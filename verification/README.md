# Verification of the parallel benchmarks

This project models three concurrent algorithms of the repository and proves what they
promise.

* **Intel's parallel stable merge sort** (`sort-bench/external/intel`). A ping-pong merge
  sort over two buffers: the mode `inplace` flips on the way down the recursion and decides
  in which buffer a result lands and which slots hold constructed objects. Slots are `Raw`,
  `Empty` or `Live(key)`; every operation on a slot demands what the checked class `Key`
  asserts. The sort is modelled in three forms: as imperative code over arrays (OpenMP loop form,
  which is also that of Cilk Plus, and the two-way recursion of `tbb::parallel_invoke`); as
  spawned tasks with call stacks and taskwaits, for OpenMP and Cilk Plus, that interleave at single
  comparisons, moves, constructions and destructions; and as the hand-written TBB task graph with
  reference counts, continuations, recycled task objects and merges that divide themselves while
  their siblings run. The second form is shown to refine the third.
* **The multi-threaded latency test** (`osu_latency_mt.c`). One sender and n receiver threads,
  interleaved at their accesses to shared state, with the barrier made of a mutex, a condition
  variable and `MPI_Barrier`, the shared `options`, and blocking sends that may or may not
  return early.
* **The coarray exchanges** (`cafbench-1.0`). The halo swap of images on a three-dimensional
  torus that synchronise pairwise only, with cells put or got in any order; the ping-pong with
  asynchronous copies that land in any order before their flush; neighbour lists and the random
  permutation behind them.

Main results: `TaskTermination.EveryRunSorts`, `TaskLifetimes.EverySlotOnce`,
`TaskPlan.EveryRunFollowsPlan`, `SortTasksRun.EveryScheduleSorts`,
`MergeTasks.EveryScheduleIsSerial`, `OpenMPSort.ParallelStableSort`, `LatencyRun.EveryRunCompletes`,
`HaloRun.EveryRunMatches`, `PingPong.CafPingPong`, `PingPongTurns.EveryRunTakesTurns`,
`Neighbours.GetNeighs`, `Permutations.ExactlyOneChoice` and `SortVerify.AllPassIffSorted`.

How the files build on each other: `StableOrder` (what stable sorting and merging are), `Keys`
(slots), `MergeStep` and `PssCommon` (the serial merge), `MergePlan` and `SortPlan` (where merges
and sorts are cut), `OpenMPSort`, `TBBSort` and `SortTest` (sequential executions of the sort and
its test program); `Pieces`, `PieceWeights` and `PiecePlan` (a merge task step by step),
`MergeTasks` and `MergeTasksPlan` (one merge by OpenMP tasks), `TaskGraph`, `TaskShape`,
`TaskMemory`, `TaskRun`, `TaskTermination`, `TaskLifetimes` and `TaskPlan` (TBB tasks), `SortTasks`,
`SortTasksView`, `SortTasksRun` and `SortTasksPlan` (the whole sort by OpenMP or Cilk Plus tasks,
and its simulation in the task graph), with `Sums` for counting and `Arithmetic` for remainders;
`LatencyMT`, `LatencyInvariant`, `LatencyRun`, `LatencyTotals`; `Torus`, `HaloSwap`, `HaloRun`;
`PingPong` (the two images in turn, over arrays) and `PingPongTurns` (the two images interleaved,
element by element); `Permutations`, `Neighbours`; `SortVerify`.

Where code and description differ, the model follows the code. The final loop of `CheckIsSorted`
stops one pair early (`SortTest.CheckIsSorted` states exactly what is accepted,
`SortTest.CheckMissesLastPair` gives an array that slips through, `SortTest.WhenCheckIsRight` says
when the check decides rightly). The halo in the third direction is assigned with dimz in place of
dimx, which is right exactly for dimx = dimz (`HaloSwap.ConformsIff`). A unit of the distributed
order test whose own block is out of order skips the team's barrier (`SortVerify.AllReturnIff` says
when all units return). The strided modes of the ping-pong step through the array by twice the block
size while the check steps by the stride, so they validate exactly for the sizes of
`PingPong.Regular`, which include every power of two. Six of its modes are unknown to the step from
one pattern to the next, so that they never end (`PingPong.LoopEndsIff`).

## Model

| member | source | states |
|---|---|---|
| StableOrder.MergeStable | sort-bench/external/intel/pss_common.h:66-85 | Merging two sorted ranges, taking x on ties, is the stable sort of their concatenation, for every strict weak order |
| StableOrder.StableSortUnique | sort-bench/external/intel/test.cpp:98-99 | Sorted order plus original order among equal keys determines the result: a stable sort is unique |
| StableOrder.StableSortPermutes | sort-bench/external/intel/test.cpp:76-87 | A stable sort is a permutation of its input: nothing duplicated, nothing missing |
| StableOrder.SortByHalves | sort-bench/external/intel/openmp/parallel_stable_sort.h:120-130 | Sorting two halves and merging them is sorting the whole, wherever the halving stops |
| StableOrder.BoundCuts | sort-bench/external/intel/openmp/parallel_stable_sort.h:79-86 | upper_bound of the middle of y, or lower_bound of the middle of x, gives a cut: nothing right of it may have to go before anything left of it, with ties going to x |
| StableOrder.MergeSplits | sort-bench/external/intel/openmp/parallel_stable_sort.h:87-92 | Merging the parts before and after any such cut and concatenating equals merging the whole, element for element |
| Keys.MoveConstruct | sort-bench/external/intel/IndexedValue.h:79-86 | Only a raw slot is constructed, only a constructed one moved from, which stays constructed but empty, within one array or across two; one more key exists |
| Keys.MoveAssign | sort-bench/external/intel/IndexedValue.h:93-100 | Move assignment demands two constructed slots, of one array or of two, and leaves the source empty |
| Keys.Destroy | sort-bench/external/intel/IndexedValue.h:87-92 | Only a constructed slot is destroyed, so none twice; one key fewer exists |
| Keys.Less | sort-bench/external/intel/IndexedValue.h:144-150 | Only live keys are compared |
| PssCommon.SerialDestroy | sort-bench/external/intel/pss_common.h:40-49 | Destroys every slot of the range exactly once, from the back, and nothing else |
| PssCommon.SerialMoveMerge | sort-bench/external/intel/pss_common.h:58-86 | The in-place loop leaves the stable merge in the output, the inputs empty, everything else as it was |
| PssCommon.StableSortBaseCase | sort-bench/external/intel/pss_common.h:92-111 | By mode: sorted keys in x with the buffer constructed but empty or raw, or in the buffer with x empty; the key count grows accordingly |
| MergePlan.SplitBalance | sort-bench/external/intel/openmp/parallel_stable_sort.h:76-86 | Neither part of a split is empty, and neither has more than three quarters of the elements, rounded up |
| MergePlan.SplitUnique | sort-bench/external/intel/openmp/parallel_stable_sort.h:79-86 | The split point is determined by the inputs |
| MergePlan.DepthIsLogarithmic | sort-bench/external/intel/tbb-highlevel/parallel_stable_sort.h:45-68 | Nesting d splits needs at least 1998 (4/3)^(d-1) elements, so the depth of splitting is logarithmic |
| MergePlan.LeafSizes | sort-bench/external/intel/tbb-highlevel/parallel_stable_sort.h:45-68 | Every serial merge has at most 2000 elements and, if the whole had 500, at least 500; it writes where the merge of the whole puts it |
| SortPlan.BasesTile | sort-bench/external/intel/openmp/parallel_stable_sort.h:115-125 | The base cases of the recursion sort the range piece by piece, each key in exactly one; none has more than 500 keys, and if the range is divided at all, none fewer than 250 |
| OpenMPSort.Bound | sort-bench/external/intel/openmp/parallel_stable_sort.h:81-85 | std::upper_bound and std::lower_bound as binary searches on live keys: everything before the result lies before the key, nothing after it does |
| OpenMPSort.ParallelMoveMerge | sort-bench/external/intel/openmp/parallel_stable_sort.h:75-99 | The loop with spawned left parts leaves the stable merge, the inputs empty or destroyed once each, and does exactly the serial merges of the two-way recursion |
| OpenMPSort.ParallelStableSortAux | sort-bench/external/intel/openmp/parallel_stable_sort.h:108-132 | For every length, the stable sort lands by mode (0: x empty, the buffer live; 1: x live, the buffer empty; 2: x live, the buffer raw), and the base cases and serial merges done are those of the plan, in its order |
| OpenMPSort.ParallelStableSort | sort-bench/external/intel/openmp/parallel_stable_sort.h:137-152 | End to end, whether a buffer was obtained or not: the range is stably sorted in place, a permutation of the input, as many keys exist as before; by the plan with a buffer, serially without |
| TBBSort.ParallelMerge | sort-bench/external/intel/tbb-highlevel/parallel_stable_sort.h:45-68 | The two-way recursion meets the contract of the loop form word for word, ending in the same serial merges |
| SortTest.CheckIsSorted | sort-bench/external/intel/test.cpp:74-103 | Accepts exactly the arrangements of all indices, each once, in which all neighbouring pairs but the last are in order |
| SortTest.CheckMissesLastPair | sort-bench/external/intel/test.cpp:90-102 | Two keys in the wrong order that the check accepts |
| SortTest.WhenCheckIsRight | sort-bench/external/intel/test.cpp:74-103 | The check decides rightly exactly if there are fewer than two keys, the last pair is in order, or something is wrong already before the last pair |
| SortTest.StableSortInOrder | sort-bench/external/intel/test.cpp:90-102 | After a stable sort every neighbouring pair is in order, by value and among equal values by original index, the last pair included |
| SortTest.Passes | sort-bench/external/intel/test.cpp:117-124 | A sort passes exactly if as many keys exist as before and all neighbouring pairs but the last are in order, with every index there once |
| SortTest.Test | sort-bench/external/intel/test.cpp:106-127 | Whatever the random values, and with or without a buffer, neither the key count nor the order check of the test program fails |
| Pieces.AdvanceLifetimes | sort-bench/external/intel/pss_common.h:40-86 | One step compares, or moves one constructed slot of the task's inputs over one of its output, or destroys one constructed slot of its inputs; no other slot changes |
| Pieces.AdvanceKeeps | sort-bench/external/intel/tbb-lowlevel/parallel_stable_sort.h:59-79 | Every comparison, move and destruction of a merge task keeps its slots as its progress says and its result the one it was assigned |
| Pieces.OnTrackIsSafe | sort-bench/external/intel/IndexedValue.h:67-115 | A merge task on track never compares a key that is not live, assigns to or from a raw slot, or destroys one twice |
| Pieces.OthersMayMove | sort-bench/external/intel/openmp/parallel_stable_sort.h:87-93 | Whatever happens to other slots, a merge task stays on track |
| Pieces.SplitShares | sort-bench/external/intel/tbb-lowlevel/parallel_stable_sort.h:79-84 | A split deals out every input and output slot to exactly one of its parts |
| Pieces.SplitKeeps | sort-bench/external/intel/tbb-lowlevel/parallel_stable_sort.h:72-84 | Both parts of a split are on track, each for its own stretch of the result |
| Pieces.OnTrackIsCutWell | sort-bench/external/intel/tbb-lowlevel/parallel_stable_sort.h:63-84 | A merge task merges serially up to 2000 elements; above, it divides in the middle of the longer input (x on a tie) and where that element belongs in the other, both parts at most three quarters |
| MergeTasks.SerialMemory | sort-bench/external/intel/pss_common.h:58-86 | The memory that one serial merge (and destruction) of the whole leaves is determined slot by slot |
| MergeTasks.EveryMergeIsJob | sort-bench/external/intel/openmp/parallel_stable_sort.h:42-43 | Any two sorted ranges of live keys and any constructed output can be what the merge tasks start from |
| MergeTasks.StepKeepsInvariant | sort-bench/external/intel/openmp/parallel_stable_sort.h:76-99 | Every step of every task keeps: tasks own disjoint slots, every slot of the merge is some task's or final, a task that returned has no running children |
| MergeTasks.SomebodySteps | sort-bench/external/intel/openmp/parallel_stable_sort.h:99-99 | The taskwaits never block each other: the youngest task that has not returned can step |
| MergeTasks.WaitsForParts | sort-bench/external/intel/openmp/parallel_stable_sort.h:99-99 | A call passes its taskwait exactly when everything that works on parts of its piece has returned, whatever else is running |
| MergeTasks.EveryScheduleIsSerial | sort-bench/external/intel/openmp/parallel_stable_sort.h:75-99 | Schedule independence: under every interleaving tasks never share a slot, only take steps that object lifetimes allow and divide where they should; the run is bounded, cannot get stuck, and leaves the memory of one serial merge |
| MergeTasks.EveryRunCanReturn | sort-bench/external/intel/openmp/parallel_stable_sort.h:75-99 | Every run, however far, can go on to the memory of one serial merge |
| MergeTasksPlan.EveryScheduleMergesLeaves | sort-bench/external/intel/openmp/parallel_stable_sort.h:75-99 | Whatever the interleaving, the serial merges of a complete run are exactly those that the two-way recursion ends in, each once |
| TaskShape.DivideSortKeepsCounts | sort-bench/external/intel/tbb-lowlevel/parallel_stable_sort.h:112-123 | Reference counts stay exact when a continuation takes its creator's place and the creator is recycled as its child |
| TaskShape.DivideMergeKeepsCounts | sort-bench/external/intel/tbb-lowlevel/parallel_stable_sort.h:80-85 | Reference counts stay exact when a merge adds a child to its parent and is recycled itself |
| TaskShape.CompleteKeepsCounts | sort-bench/external/intel/tbb-lowlevel/parallel_stable_sort.h:68-68 | Reference counts stay exact when a task returns, and a continuation is started exactly when its last child is gone |
| TaskShape.DivideSortKeepsShape | sort-bench/external/intel/tbb-lowlevel/parallel_stable_sort.h:109-123 | Ranges of tasks stay nested or disjoint: halves below their continuation, nobody else between |
| TaskShape.DivideMergeKeepsShape | sort-bench/external/intel/tbb-lowlevel/parallel_stable_sort.h:72-85 | Pieces of one merge stay pairwise disjoint in input and output while they split |
| TaskMemory.ClaimsApart | sort-bench/external/intel/tbb-lowlevel/parallel_stable_sort.h:59-125 | Two tasks that may run at the same time never have a slot in common, in either buffer |
| TaskRun.HalvesReady | sort-bench/external/intel/tbb-lowlevel/parallel_stable_sort.h:112-117 | When nobody is left in its halves, a continuation finds them as its merge needs them, whatever the mode |
| TaskRun.ReadyTasksAreSafe | sort-bench/external/intel/IndexedValue.h:67-115 | Whatever task the scheduler picks, its next step meets all demands on object lifetimes and on its parent |
| TaskRun.StepKeepsInvariant | sort-bench/external/intel/tbb-lowlevel/parallel_stable_sort.h:59-125 | Every step of every task keeps shapes, counts and memory |
| TaskRun.TerminatedIsSorted | sort-bench/external/intel/tbb-lowlevel/parallel_stable_sort.h:136-136 | When the wait is over, x holds the sort and every buffer slot is raw |
| TaskTermination.StepLowersWeight | sort-bench/external/intel/tbb-lowlevel/parallel_stable_sort.h:59-125 | Every step lowers a measure, splits and recycled tasks included |
| TaskTermination.MergeStartsOnSortedHalves | sort-bench/external/intel/tbb-lowlevel/parallel_stable_sort.h:112-117 | A merge starts only when both its input halves are completely sorted in the buffer that it reads, with its output slots constructed |
| TaskTermination.EveryRunSorts | sort-bench/external/intel/tbb-lowlevel/parallel_stable_sort.h:59-136 | Every run of the task graph, in any order of ready tasks: in every state counts are exact, every ready task's step is allowed by object lifetimes, merges start on sorted halves only and divide where they should; length bounded, never stuck, and at the end the stable sort in place with all of the buffer destroyed |
| TaskTermination.EveryRunCanEnd | sort-bench/external/intel/tbb-lowlevel/parallel_stable_sort.h:59-136 | Every run of the task graph can go on until the wait is over |
| TaskPlan.EveryRunFollowsPlan | sort-bench/external/intel/tbb-lowlevel/parallel_stable_sort.h:59-136 | Whatever the order of execution, a complete run sorts exactly the base cases and does exactly the serial merges of the sequential recursion, with their ranges and modes, each once |
| TaskLifetimes.EverySlotOnce | sort-bench/external/intel/tbb-lowlevel/parallel_stable_sort.h:59-136 | Over every complete run of the task graph: each buffer slot is constructed exactly once and destroyed exactly once if the input is longer than the cut-off, never otherwise; no slot of the input is ever destroyed |
| TaskLifetimes.ConstructedOnce | sort-bench/external/intel/pss_common.h:92-111 | At every point of a run, a buffer slot has been constructed once if no task is left that has yet to do so, and not at all before; below the cut-off never |
| SortTasksView.HalvesAreDone | sort-bench/external/intel/openmp/parallel_stable_sort.h:123-126 | When a sort passes its taskwait, nothing is left that works in its halves, whether the wait is for the tasks of the call or of the whole task |
| SortTasksRun.SimulateWait | sort-bench/external/intel/openmp/parallel_stable_sort.h:99-126 | Passing a taskwait changes nothing in the corresponding state of the task graph: a merge that starts there is ready |
| SortTasksRun.SimulateRunning | sort-bench/external/intel/openmp/parallel_stable_sort.h:75-131 | Every other step, spawning and returning included, is a step of the task graph |
| SortTasksRun.EveryStateIsInGraph | sort-bench/external/intel/openmp/parallel_stable_sort.h:108-132 | Refinement: the memory in every state of every run is one that the task graph can reach, in no more steps |
| SortTasksRun.EveryScheduleSorts | sort-bench/external/intel/openmp/parallel_stable_sort.h:75-152 | The whole sort by spawned tasks, every interleaving: running calls share no slot and only take steps that object lifetimes allow, merges start on sorted halves; length bounded, never stuck, and when the sort returns all tasks have finished, the range is stably sorted in place and the buffer destroyed; both for taskwaits of OpenMP and for syncs of Cilk Plus |
| SortTasksRun.EveryRunCanReturn | sort-bench/external/intel/openmp/parallel_stable_sort.h:75-152 | Every run of the spawned tasks can go on until the sort returns |
| SortTasksPlan.EveryScheduleFollowsPlan | sort-bench/external/intel/openmp/parallel_stable_sort.h:75-152 | The same plan is followed by spawned tasks under every interleaving, in OpenMP and in Cilk Plus |
| SortTasks.OpenMPWaitsForAll | sort-bench/external/intel/openmp/parallel_stable_sort.h:99-126 | A taskwait of OpenMP is passed when what every call of the task has spawned is finished |
| SortTasks.CilkWaitsLess | sort-bench/external/intel/cilkplus/parallel_stable_sort.h:80-82 | While a left half is still being sorted, a merge of the right half may return in Cilk Plus, but not in OpenMP |
| LatencyMT.SizesEnd | osu-micro-benchmarks-3.5.2/mpi/pt2pt/osu_latency_mt.c:162-162 | The size loop goes through exactly 24 growing sizes |
| LatencyMT.SizesArePowers | osu-micro-benchmarks-3.5.2/mpi/pt2pt/osu_latency_mt.c:162-162 | The sizes are 0 and the powers of two, in order |
| LatencyMT.OptionsBySize | osu-micro-benchmarks-3.5.2/mpi/pt2pt/osu_latency_mt.c:181-184 | The first 15 sizes, up to 8192, have the options for small messages, the other nine those for large ones |
| LatencyMT.OneVisitor | osu-micro-benchmarks-3.5.2/mpi/pt2pt/osu_latency_mt.c:192-192 | Of the loops i = val, val+n, ... of n threads, exactly the one with val = i mod n comes to an i in [0, loop+skip), and none comes to any other i |
| LatencyMT.ClassesPartition | osu-micro-benchmarks-3.5.2/mpi/pt2pt/osu_latency_mt.c:192-192 | The loops of all n threads together make loop+skip visits |
| LatencyInvariant.StepKeepsInvariant | osu-micro-benchmarks-3.5.2/mpi/pt2pt/osu_latency_mt.c:162-196 | Every step of a receiver or the sender keeps the barrier's generations, the options in force and the balance of messages |
| LatencyInvariant.EverybodyWaits | osu-micro-benchmarks-3.5.2/mpi/pt2pt/osu_latency_mt.c:163-175 | The thread that finds the count complete is the last one: all others wait on the condition variable |
| LatencyInvariant.BroadcastReachesGeneration | osu-micro-benchmarks-3.5.2/mpi/pt2pt/osu_latency_mt.c:170-178 | A broadcast wakes all other threads, all of the same size, and leaves nobody waiting: no wakeup is lost or goes to another generation |
| LatencyInvariant.BoundsAreStable | osu-micro-benchmarks-3.5.2/mpi/pt2pt/osu_latency_mt.c:181-192 | No step changes options.loop or options.skip while any thread is in the message loop, where they have the values meant for its size |
| LatencyInvariant.RequestMeetsItsSize | osu-micro-benchmarks-3.5.2/mpi/pt2pt/osu_latency_mt.c:193-194 | A request is received by a thread at the size it was sent for |
| LatencyInvariant.ReplyMeetsItsSize | osu-micro-benchmarks-3.5.2/mpi/pt2pt/osu_latency_mt.c:195-195 | A reply goes out for the sender's size, with no other message in flight |
| LatencyInvariant.SizeIsFinished | osu-micro-benchmarks-3.5.2/mpi/pt2pt/osu_latency_mt.c:246-254 | When the sender has done its iterations, every request was received by the thread it was due to and every reply arrived |
| LatencyRun.SomebodyCanStep | osu-micro-benchmarks-3.5.2/mpi/pt2pt/osu_latency_mt.c:162-199 | Deadlock freedom for every number of threads, even if no send ever returns before its message is received |
| LatencyRun.RendezvousWaits | osu-micro-benchmarks-3.5.2/mpi/pt2pt/osu_latency_mt.c:193-195 | A send that is not eager returns only when its message has been received, a receive only when there is one |
| LatencyRun.WhoWaits | osu-micro-benchmarks-3.5.2/mpi/pt2pt/osu_latency_mt.c:162-199 | Exactly who waits for what: for the lock while another thread holds it, for the sender to enter the barrier of this size, for a broadcast, for a message |
| LatencyRun.StepLowersWeight | osu-micro-benchmarks-3.5.2/mpi/pt2pt/osu_latency_mt.c:162-264 | Every step of any thread lowers a measure |
| LatencyRun.EveryRunCompletes | osu-micro-benchmarks-3.5.2/mpi/pt2pt/osu_latency_mt.c:139-264 | Every run: no receiver is released into a size before all have finished the one before; in every state at most one message is in flight, receives outstanding and requests sent add up to the iterations of the size plus the requests in flight, and nothing is in flight or outstanding at the end of a size or of the run; no step changes the bounds of a message loop in progress; the run is bounded and ends only with all threads through all sizes |
| LatencyRun.EveryRunCanComplete | osu-micro-benchmarks-3.5.2/mpi/pt2pt/osu_latency_mt.c:139-264 | Every run can go on until all threads are through all sizes |
| LatencyTotals.MessagesExchanged | osu-micro-benchmarks-3.5.2/mpi/pt2pt/osu_latency_mt.c:139-264 | Every complete run sends and receives exactly 15 times the iterations for small messages plus 9 times those for large ones, of requests and of replies |
| Torus.CoordsOfIndex | cafbench-1.0/fortran/cafhalo.f90:83-87 | image_index undoes this_image |
| Torus.IndexOfCoords | cafbench-1.0/fortran/cafhalo.f90:97-102 | this_image undoes image_index, and every coordinate triple is an image |
| Torus.UpDown | cafbench-1.0/fortran/cafhalo.f90:89-95 | Up and down are inverse to each other, around the ends included |
| Torus.NeighbourCoords | cafbench-1.0/fortran/cafhalo.f90:89-102 | The six neighbours by coordinates: one up in x, y, z, then one down, from the last place to the first and back, the other coordinates unchanged |
| Torus.NeighbourNumbers | cafbench-1.0/fortran/cafhalo.f90:89-102 | The same by image numbers: 1, a row or a layer apart, or the rest of the way round |
| Torus.NeighbourBack | cafbench-1.0/fortran/cafcore.f90:869-882 | Whoever is our neighbour in one direction has us as neighbour in the opposite one |
| Torus.SixNeighbours | cafbench-1.0/fortran/cafhalo.f90:97-102 | The six neighbours are six different images exactly if the torus measures at least three in every direction |
| HaloSwap.ConformsIff | cafbench-1.0/fortran/cafhalo.f90:187-246 | Both sides of every halo assignment have the same shape exactly if dimx = dimz |
| HaloSwap.DoesNotConform | cafbench-1.0/fortran/cafhalo.f90:199-201 | With extents 1, 1 and 2 one assignment has a section of 2 x 1 on one side and of 1 x 1 on the other |
| HaloSwap.FirstValues | cafbench-1.0/fortran/cafhalo.f90:144-155 | Before the first iteration the faces hold 1000 times the image's number, everything else zero |
| HaloSwap.CellsApart | cafbench-1.0/fortran/cafhalo.f90:163-216 | No face cell is a halo cell, and no two halos share one |
| HaloRun.FaceIsReady | cafbench-1.0/fortran/cafhalo.f90:181-246 | What is got is always the neighbour's value of the same iteration |
| HaloRun.NeighbourIsPunctual | cafbench-1.0/fortran/cafhalo.f90:255-258 | At an image's check each neighbour has transferred for this iteration and not yet for the next |
| HaloRun.HalosAlwaysMatch | cafbench-1.0/fortran/cafhalo.f90:261-281 | All six halo checks of an iteration succeed |
| HaloRun.CheckDecides | cafbench-1.0/fortran/cafhalo.f90:261-281 | A check is passed exactly if every cell just outside the array holds 1000 times the number of the image that lies there, by coordinates, plus the iteration |
| HaloRun.StepKeepsInvariant | cafbench-1.0/fortran/cafhalo.f90:158-281 | Every step of every image keeps all faces, halos and synchronisation counts consistent |
| HaloRun.SomebodyCanStep | cafbench-1.0/fortran/cafcore.f90:353-359 | As long as an image is unfinished, the one furthest behind can move |
| HaloRun.WaitsForNextTo | cafbench-1.0/fortran/cafcore.f90:353-359 | An image waits for nobody but the images one up or down in x, y or z, and only in its two synchronisations; cells go in any order |
| HaloRun.EveryRunMatches | cafbench-1.0/fortran/cafhalo.f90:158-281 | Every run in put and get mode with pairwise synchronisation only, for all extents with which the assignments conform: at every check every halo cell holds 1000 times the number of the image that lies there plus the iteration, no check ever fails, neighbours stay within one synchronisation; the run is bounded and ends with all images through all iterations |
| HaloRun.EveryRunCanEnd | cafbench-1.0/fortran/cafhalo.f90:158-281 | Every run can go on until all images are through all iterations |
| PingPong.CafSet | cafbench-1.0/dash/cafcore.h:209-230 | The value in every block and zero everywhere else, without an index out of bounds |
| PingPong.CafCheck | cafbench-1.0/dash/cafcore.h:82-117 | True exactly if every element of every block has the value; without docheck exactly if x[0] is not zero |
| PingPong.ShapeStays | cafbench-1.0/dash/cafpt2pt.cpp:512-549 | The loop over count, blksize and stride keeps the shape invariant of each mode |
| PingPong.ShapeFits | cafbench-1.0/dash/cafpt2pt.cpp:142-152 | Every pattern of the loop fits the allocated array |
| PingPong.IssueCopies | cafbench-1.0/dash/cafpt2pt.cpp:178-206 | The asynchronous copies cover exactly the ranges of the mode, all in bounds |
| PingPong.Flush | cafbench-1.0/dash/cafpt2pt.cpp:233-233 | In whatever order pending copies land, the flush leaves the same array |
| PingPong.AlignedIsCovered | cafbench-1.0/dash/cafpt2pt.cpp:199-206 | Everything that is checked was copied exactly if there is one block or the stride is twice the block size |
| PingPong.PutRepetition | cafbench-1.0/dash/cafpt2pt.cpp:168-329 | With the check, a put repetition validates exactly if the copies cover the blocks, and then leaves -irep in the blocks of both images; what the arrays hold after a failure is given, too |
| PingPong.GetRepetition | cafbench-1.0/dash/cafpt2pt.cpp:333-457 | A get repetition likewise, leaving irep+1 in the blocks of image1 for the next |
| PingPong.CafPingPong | cafbench-1.0/dash/cafpt2pt.cpp:94-549 | For every mode whose loop ends, every size and number of repetitions: validation succeeds exactly if the mode is not strided or half the size is a power of two (or the size 1), else it ends at the first pattern that is not aligned; the patterns printed and their number are given mode by mode, and so are the blocks of both arrays after the last trial |
| PingPong.PowersOfTwo | cafbench-1.0/dash/cafpt2pt.cpp:531-543 | A size passes halving down to 1 exactly if it is 2 to some power, so these are the sizes that CafPingPong speaks of |
| PingPong.LinesOfPower | cafbench-1.0/dash/cafpt2pt.cpp:512-549 | For a size of 2 to the m the loop goes through m + 1 patterns, m (at least one) in the strided modes, 8 in the plain strided ones |
| PingPong.LoopEndsIff | cafbench-1.0/dash/cafpt2pt.cpp:512-549 | The loop comes to a pattern past the end exactly in the modes that it has a case for: in the other six no pattern ever ends it |
| PingPong.SixIsIrregular | cafbench-1.0/dash/cafpt2pt.cpp:199-206 | With six elements a strided pattern checks an element that its copies leave out |
| PingPongTurns.EveryRunTakesTurns | cafbench-1.0/dash/cafpt2pt.cpp:167-458 | However two images interleave and in whatever order single elements of their copies land: they never work on the coarray at the same time, each sees what the other did before, no check fails; the run is bounded, one of them can always go on, and it ends with the arrays of the sequential trial |
| PingPongTurns.EveryRunCanEnd | cafbench-1.0/dash/cafpt2pt.cpp:167-458 | Every run can go on until both images are through all repetitions |
| PingPongTurns.CheckDecides | cafbench-1.0/dash/cafpt2pt.cpp:281-326 | A check is passed exactly if every element of every block holds the repetition's number at image2, its negative at image1 |
| PingPongTurns.WaitsForPartner | cafbench-1.0/dash/cafpt2pt.cpp:233-330 | An image passes a synchronisation exactly when its partner has come to the matching one of its own program; any pending element may land next |
| PingPongTurns.EveryRepetitionChecks | cafbench-1.0/dash/cafpt2pt.cpp:167-458 | In a complete run each image checks once and synchronises twice in every repetition |
| PingPongTurns.PatternsAreValid | cafbench-1.0/dash/cafpt2pt.cpp:142-206 | Every aligned pattern that the loop reaches is one that the interleaved run validates |
| Permutations.GetPerm | cafbench-1.0/fortran/cafcore.f90:900-932 | The swapping loop yields a permutation of 1..n for every sequence of random numbers |
| Permutations.PickIff | cafbench-1.0/fortran/cafcore.f90:922-924 | Position k of those left is drawn exactly by the random numbers from k/left up to (k+1)/left |
| Permutations.DrawnExactly | cafbench-1.0/fortran/cafcore.f90:900-932 | A given permutation comes out exactly if every random number lies in the interval of that permutation's choice |
| Permutations.SmallNumbersKeep | cafbench-1.0/fortran/cafcore.f90:900-932 | With all random numbers below 1/n nothing is moved |
| Permutations.OneNumberSwaps | cafbench-1.0/fortran/cafcore.f90:918-930 | With all but one random number below 1/n, that one's position is exchanged with the one drawn, and nothing else is moved |
| Permutations.EveryPickPossible | cafbench-1.0/fortran/cafcore.f90:922-924 | Every position not before i can be drawn |
| Permutations.ShuffleInjective | cafbench-1.0/fortran/cafcore.f90:918-930 | Different choices give different results |
| Permutations.ExactlyOneChoice | cafbench-1.0/fortran/cafcore.f90:900-932 | Every permutation of 1..n comes from exactly one sequence of choices |
| Neighbours.NeighboursSymmetric | cafbench-1.0/fortran/cafcore.f90:776-794 | With one shared permutation the neighbour relation is symmetric |
| Neighbours.OffsetsApart | cafbench-1.0/fortran/cafcore.f90:889-897 | The n places n/2 either way round the ring are all different and none our own exactly if n is less than the number of images |
| Neighbours.NeighboursAreNear | cafbench-1.0/fortran/cafcore.f90:776-794 | The neighbours are the images up to n/2 steps away, in either direction, on the ring or the permuted ring |
| Neighbours.GetNeighs | cafbench-1.0/fortran/cafcore.f90:755-799 | For every even n the double loop never overruns the list, ends with tmpneigh = n, and lists exactly the neighbours; all different and none the image itself exactly if there are fewer than images |
| Neighbours.PairsMatch | cafbench-1.0/fortran/cafcore.f90:812-828 | Everybody's pair is an image half the machine away, which has us as its pair; only the last image of an odd number is left without |
| SortVerify.ParallelVerify | sort-bench/include/dash/sortbench.h:72-100 | A unit passes exactly if its block and its left boundary are in order, and comes by the barrier exactly if its block is |
| SortVerify.AllPassIffSorted | sort-bench/include/dash/sortbench.h:72-100 | All units pass exactly if the whole array is sorted, for every distribution in non-empty blocks |
| SortVerify.AllReturnIff | sort-bench/include/dash/sortbench.h:83-98 | All units return exactly if every block is in order or none is |
| SortVerify.SomebodyWaits | sort-bench/include/dash/sortbench.h:83-98 | With the blocks [0] and [2, 1], the first unit waits at the barrier for ever and the second one returns |
| SortVerify.SortedReturns | sort-bench/include/dash/sortbench.h:72-100 | On a sorted array every unit passes and returns |

## Left out

- OpenMPSort.ParallelStableSort: whether a buffer is obtained is a parameter; raw_buffer itself and its allocator are not modelled.
- OpenMPSort.Bound: how std::upper_bound and std::lower_bound narrow their range is library code; what they return is stated exactly.
- PssCommon.StdStableSort: std::stable_sort stands for its contract; its internals are library code.
- TaskTermination.EveryRunSorts: std::stable_sort of a base case is one step, and the schedulers of TBB, OpenMP and Cilk Plus are represented by what the code relies on (reference counts, continuations, taskwait) and any choice of ready tasks; the second, unchecked buffer of the low-level version is taken to be obtained.
- TaskGraph, SortTasks and MergeTasks keep tasks and buffers as values, because steps of different tasks interleave; the update in place is modelled by the methods of PssCommon, OpenMPSort and TBBSort.
- The interleaving of the two branches of tbb::parallel_invoke in the high-level TBB version is not modelled; TBBSort has its sequential execution. OpenMP tasks that are merged into their parent or change threads make no difference to the model.
- Pieces.OnTrackIsSafe: the checks of class Iterator (positions within the array) are covered by the bounds of the slots, not by a model of the class; copy construction and copy assignment of keys are not used by the sort.
- Comparators that are not strict weak orders, NaN values for instance.
- Key values are unbounded integers, positions natural numbers: widths and wrap-around play no part in this code.
- SortTest.Test: random values are a parameter; the test's choice to start inside a parallel region makes no difference to the model.
- LatencyRun.EveryRunCompletes: spurious wakeups are excluded, as the code has no recheck loop around pthread_cond_wait; option parsing, timing, buffer contents and thread creation and joining are not modelled, and at least one iteration per size is demanded, as the option parser does.
- LatencyMT: MPI is represented by messages in order of sending, blocking receives, sends that may return early, and the barrier.
- HaloRun.EveryRunMatches: extents with dimx different from dimz are left out, as two assignments then have sides of different shape (HaloSwap.ConformsIff), for which the language defines no result. One trial with checking is modelled, without the additional barrier inside gand; where an image is a neighbour in two directions (see Torus.SixNeighbours) SYNC IMAGES is taken to count it once.
- HaloSwap keeps images as values, because their steps interleave; setting one face is one step, as nobody else may look at it meanwhile.
- PingPong.CafPingPong: demands a mode whose loop ends (PingPong.LoopEndsIff), as it would not return in the others. The repetitions asked for by the clock are a parameter; when a check fails the run stops at once, whereas in the source the other image is left waiting.
- PingPongTurns.EveryRunTakesTurns: covers one trial of the modes that copy; in MPI mode each message is a rendezvous of its own, which PingPong runs in turn. The synchronisation types that do not synchronise at all are left out.
- Permutations.GetPerm: random numbers are reals in [0, 1), without rounding.
- Neighbours.GetNeighs: the Fortran version only; the C++ version draws a separate permutation on each image, and its getneighspair mixes numberings from 0 and from 1.
- SortVerify.ParallelVerify: reading the neighbour's last element is an array access, and the barrier is represented by who comes to it. Empty blocks are excluded, as the source reads the first local element.
- Timing and its statistics, the arithmetic benchmarks with floating-point results, the generators of random keys, device code and the thin wrappers around sorts of other libraries are not part of this model: they measure, generate or delegate, and keep no state between calls that the algorithms above depend on.
