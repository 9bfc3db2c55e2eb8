/** Every run of the whole sort with spawned tasks and taskwaits, by simulation in the
    task graph: it is sound, bounded, never stuck, and sorts. */
module SortTasksRun {
  import opened Sums
  import opened StableOrder
  import opened Keys
  import opened OpenMPSort
  import opened Pieces
  import Graph = TaskGraph
  import opened TaskShape
  import opened TaskMemory
  import opened TaskRun
  import Term = TaskTermination
  import opened SortTasks
  import opened SortTasksView

  // ---------- One step ----------

  /** Taskwaits that are still to be passed. */
  function Waits(tasks: seq<Task>): nat {
    Sum((t: Task) => WaitsOf(t.stack), tasks)
  }

  function WaitsOf(stack: seq<Frame>): nat {
    Sum((f: Frame) => if f.Running? then 0 else 1, stack)
  }

  function Weight<T>(s: State<T>, v: View<T>): nat {
    2 * Term.Weight(v.g) + Waits(s.tasks)
  }

  // What the steps do to that number

  lemma SetTopWaits(tasks: seq<Task>, t: nat, f: Frame)
    requires t < |tasks| && tasks[t].stack != []
    ensures Waits(SetTop(tasks, t, f)) + (if tasks[t].stack[tasks[t].Top()].Running? then 0 else 1)
            == Waits(tasks) + (if f.Running? then 0 else 1)
  {
    var tasks' := SetTop(tasks, t, f);
    SumUpdate((f: Frame) => if f.Running? then 0 else 1, tasks[t].stack, tasks[t].Top(), f);
    SumUpdate((t: Task) => WaitsOf(t.stack), tasks, t, tasks'[t]);
  }

  lemma PopWaits(tasks: seq<Task>, t: nat)
    requires t < |tasks| && tasks[t].stack != []
    ensures Waits(Pop(tasks, t)) + (if tasks[t].stack[tasks[t].Top()].Running? then 0 else 1) == Waits(tasks)
  {
    var tasks', stack, d := Pop(tasks, t), tasks[t].stack, tasks[t].Top();
    assert stack == stack[..d] + [stack[d]];
    SumAppend((f: Frame) => if f.Running? then 0 else 1, stack[..d], stack[d]);
    SumUpdate((t: Task) => WaitsOf(t.stack), tasks, t, tasks'[t]);
  }

  lemma SpawnWaits(tasks: seq<Task>, t: nat, d: nat, w: Graph.Work)
    ensures Waits(Spawn(tasks, t, d, w)) == Waits(tasks)
  {
    var task := Task(t, d, [Running(w)]);
    assert [] + [Running(w)] == [Running(w)];
    SumAppend((f: Frame) => if f.Running? then 0 else 1, [], Running(w));
    SumAppend((t: Task) => WaitsOf(t.stack), tasks, task);
  }

  lemma PushWaits(tasks: seq<Task>, t: nat, w: Graph.Work)
    requires t < |tasks|
    ensures Waits(Push(tasks, t, Running(w))) == Waits(tasks)
  {
    var tasks' := Push(tasks, t, Running(w));
    SumAppend((f: Frame) => if f.Running? then 0 else 1, tasks[t].stack, Running(w));
    SumUpdate((t: Task) => WaitsOf(t.stack), tasks, t, tasks'[t]);
  }

  lemma DivideWaits(tasks: seq<Task>, t: nat, lo: nat, hi: nat, inplace: int)
    requires t < |tasks| && tasks[t].stack != [] && lo <= hi && tasks[t].stack[tasks[t].Top()].Running?
    ensures Waits(Divide(tasks, t, lo, hi, inplace)) == Waits(tasks) + 1
  {
    var d, mid := tasks[t].Top(), Graph.Mid(lo, hi);
    var one := SetTop(tasks, t, Halving(lo, hi, inplace));
    var left := Graph.SortRange(lo, mid, Not(inplace));
    SetTopWaits(tasks, t, Halving(lo, hi, inplace));
    SpawnWaits(one, t, d, left);
    PushWaits(Spawn(one, t, d, left), t, Graph.SortRange(mid, hi, Not(inplace)));
    hide Waits, Spawn, Push;
  }

  /** Going past a taskwait is not a step of the task graph. */
  lemma SimulateWait<T(!new)>(lt: (T, T) -> bool, own: bool, orig: seq<T>, s: State<T>, v: View<T>, t: nat)
    requires Linked(s, v) && Invariant(lt, orig, v.g) && CanStep(own, s, t)
    requires !s.tasks[t].stack[s.tasks[t].Top()].Running?
    ensures var s' := Step(lt, own, s, t); Linked(s', v) && Weight(s', v) < Weight(s, v)
  {
    hide MemoryOK, Counted, Shape, Linked, Waits, SetTop, Pop, NodesOK, BasesOK, OneToOne;
    var d := s.tasks[t].Top();
    WaitedForAll(s.tasks, own, t, d) by { LinkedStacks(s, v); }
    match s.tasks[t].stack[d]
    case AtTaskwait =>
      ReturnLinked(s, v, t);
      PopWaits(s.tasks, t);
    case Halving(lo, hi, inplace) =>
      var w := Graph.MergeRange(lo, hi, inplace, Graph.WholeMerge(lo, hi, inplace));
      HalvingNode(s, v, t);
      HalvesAreDone(s, v, |orig|, t, v.node[(t, d)]);
      StartLinked(s, v, t, w);
      SetTopWaits(s.tasks, t, Running(w));
  }

  lemma LinkedStacks<T>(s: State<T>, v: View<T>)
    requires Linked(s, v)
    ensures StacksOK(s.tasks)
  {
  }

  lemma HalvingNode<T>(s: State<T>, v: View<T>, t: nat)
    requires Linked(s, v) && t < |s.tasks| && s.tasks[t].stack != []
    requires s.tasks[t].stack[s.tasks[t].Top()].Halving?
    ensures (t, s.tasks[t].Top()) in v.node && v.node[(t, s.tasks[t].Top())] < |v.g.tasks|
    ensures Matches(s.tasks[t].stack[s.tasks[t].Top()], v.g.tasks[v.node[(t, s.tasks[t].Top())]])
  {
    HasOld(s.tasks, v, t, s.tasks[t].Top());
  }

  /** The steps of a running call, each of its own kind. */
  lemma SimulateWork<T>(lt: (T, T) -> bool, own: bool, s: State<T>, v: View<T>, t: nat, i: nat)
    requires Linked(s, v) && CanStep(own, s, t) && Graph.CanStep(v.g, i)
    requires var d := s.tasks[t].Top();
             && s.tasks[t].stack[d].Running? && WorksOn(s.tasks[t].stack[d].work)
             && (t, d) in v.node && i == v.node[(t, d)] && v.g.tasks[i].work == s.tasks[t].stack[d].work
    ensures var s', v' := Step(lt, own, s, t), v.(g := Graph.Step(lt, v.g, i));
            Linked(s', v') && Waits(s'.tasks) == Waits(s.tasks)
  {
    AloneStep(lt, v.g, i);
    LinkedMemory(s, v);
    hide Linked, Graph.Step, Graph.CanStep, SetTop, Waits, WorksOn;
    var w := s.tasks[t].stack[s.tasks[t].Top()].work;
    var alone, g' := Graph.Step(lt, Alone(w, s.x, s.z), 1), Graph.Step(lt, v.g, i);
    WorkLinked(s, v, t, Step(lt, own, s, t), g', i, alone.tasks[1].work);
    SetTopWaits(s.tasks, t, Running(alone.tasks[1].work));
  }

  lemma LinkedMemory<T>(s: State<T>, v: View<T>)
    requires Linked(s, v)
    ensures s.x == v.g.x && s.z == v.g.z
  {
  }

  lemma SimulateDivide<T>(lt: (T, T) -> bool, own: bool, s: State<T>, v: View<T>, t: nat, i: nat) returns (v': View<T>)
    requires Linked(s, v) && CanStep(own, s, t) && Graph.CanStep(v.g, i)
    requires var d := s.tasks[t].Top();
             && s.tasks[t].stack[d].Running? && !WorksOn(s.tasks[t].stack[d].work)
             && s.tasks[t].stack[d].work.SortRange?
             && (t, d) in v.node && i == v.node[(t, d)] && v.g.tasks[i].work == s.tasks[t].stack[d].work
    ensures var s' := Step(lt, own, s, t);
            Linked(s', v') && v'.g == Graph.Step(lt, v.g, i) && Waits(s'.tasks) == Waits(s.tasks) + 1
  {
    RunningHasNobody(s.tasks, t) by { LinkedStacks(s, v); }
    LinkedMemory(s, v);
    hide Linked, Waits, Divide, Divides, Graph.DivideSort;
    var SortRange(lo, hi, inplace) := s.tasks[t].stack[s.tasks[t].Top()].work;
    var g' := v.g.(tasks := Graph.DivideSort(v.g.tasks, i));
    DivideSortDivides(v.g.tasks, i);
    DivideLinked(s, v, t, g', lo, hi, inplace);
    DivideWaits(s.tasks, t, lo, hi, inplace);
    v' := DivideView(v, t, s.tasks[t].Top(), |s.tasks|, g');
  }

  lemma SimulateBuilt<T>(lt: (T, T) -> bool, own: bool, s: State<T>, v: View<T>, t: nat, i: nat) returns (v': View<T>)
    requires Linked(s, v) && CanStep(own, s, t) && Graph.CanStep(v.g, i)
    requires var d := s.tasks[t].Top();
             && s.tasks[t].stack[d].Running? && !WorksOn(s.tasks[t].stack[d].work) && s.tasks[t].stack[d].work.Build?
             && (t, d) in v.node && i == v.node[(t, d)] && v.g.tasks[i].work == s.tasks[t].stack[d].work
    requires var q := v.g.tasks[v.g.tasks[i].parent]; q.Root? || (q.Task? && q.waiting)
    ensures var s' := Step(lt, own, s, t);
            Linked(s', v') && v'.g == Graph.Step(lt, v.g, i) && Waits(s'.tasks) == Waits(s.tasks)
  {
    RunningHasNobody(s.tasks, t) by { LinkedStacks(s, v); }
    LinkedMemory(s, v);
    hide Linked, Waits, Pop, Completes, Graph.Complete;
    var g' := v.g.(tasks := Graph.Complete(v.g.tasks, i));
    CompleteCompletes(v.g.tasks, i);
    BuiltLinked(s, v, t, g');
    PopWaits(s.tasks, t);
    v' := Without(v, t, s.tasks[t].Top(), g');
  }

  lemma SimulateMerge<T>(lt: (T, T) -> bool, own: bool, s: State<T>, v: View<T>, t: nat, i: nat) returns (v': View<T>)
    requires Linked(s, v) && CanStep(own, s, t) && Graph.CanStep(v.g, i)
    requires var d := s.tasks[t].Top();
             && s.tasks[t].stack[d].Running? && !WorksOn(s.tasks[t].stack[d].work)
             && s.tasks[t].stack[d].work.MergeRange?
             && (t, d) in v.node && i == v.node[(t, d)] && v.g.tasks[i].work == s.tasks[t].stack[d].work
    requires var q := v.g.tasks[v.g.tasks[i].parent]; q.Root? || (q.Task? && q.waiting)
    ensures var s' := Step(lt, own, s, t);
            Linked(s', v') && v'.g == Graph.Step(lt, v.g, i) && Waits(s'.tasks) <= Waits(s.tasks) + 1
  {
    LinkedMemory(s, v);
    hide Linked, Waits, SetTop, Spawn, Completes, Splits, Graph.Complete, Graph.DivideMerge, Left, Right, Safe;
    var d, w := s.tasks[t].Top(), s.tasks[t].stack[s.tasks[t].Top()].work;
    if w.piece.Done() {
      var g' := v.g.(tasks := Graph.Complete(v.g.tasks, i));
      CompleteCompletes(v.g.tasks, i);
      DoneLinked(s, v, t, g');
      SetTopWaits(s.tasks, t, AtTaskwait);
      v' := Without(v, t, d, g');
    } else {
      if w.inplace != 0 {
        SafeSplit(w.piece, v.g.z, v.g.x);
      } else {
        SafeSplit(w.piece, v.g.x, v.g.z);
      }
      var g' := v.g.(tasks := Graph.DivideMerge(v.g.tasks, i));
      var l, r := w.(piece := Left(w.piece)), w.(piece := Right(w.piece));
      DivideMergeSplits(v.g.tasks, i);
      SplitLinked(s, v, t, g', l, r);
      SetTopWaits(s.tasks, t, Running(r));
      SpawnWaits(SetTop(s.tasks, t, Running(r)), t, d, l);
      v' := SplitView(v, t, d, |s.tasks|, g');
    }
  }

  /** Every other step is one of the task graph. */
  lemma SimulateRunning<T(!new)>(lt: (T, T) -> bool, own: bool, orig: seq<T>, s: State<T>, v: View<T>, t: nat)
    returns (v': View<T>, i: nat)
    requires StrictWeak(lt) && Linked(s, v) && Invariant(lt, orig, v.g) && CanStep(own, s, t)
    requires s.tasks[t].stack[s.tasks[t].Top()].Running?
    ensures Graph.CanStep(v.g, i) && v'.g == Graph.Step(lt, v.g, i)
    ensures v.g.tasks[i].work == s.tasks[t].stack[s.tasks[t].Top()].work
    ensures var s' := Step(lt, own, s, t); Linked(s', v') && Waits(s'.tasks) <= Waits(s.tasks) + 1
  {
    i := TopNode(s, v, t);
    ReadyTasksAreSafe(lt, orig, v.g, i);
    ActiveFits(v.g.tasks, |orig|, i);
    hide Invariant, Linked, Graph.CanStep, Graph.Step, Step, CanStep, Waits;
    var w := s.tasks[t].stack[s.tasks[t].Top()].work;
    if WorksOn(w) {
      SimulateWork(lt, own, s, v, t, i);
      v' := v.(g := Graph.Step(lt, v.g, i));
    } else if w.SortRange? {
      v' := SimulateDivide(lt, own, s, v, t, i);
    } else if w.Build? {
      v' := SimulateBuilt(lt, own, s, v, t, i);
    } else {
      v' := SimulateMerge(lt, own, s, v, t, i);
    }
  }

  // ---------- Runs ----------

  /** The states of a run that lets the tasks chosen by schedule take one step each. */
  ghost predicate IsRun<T>(lt: (T, T) -> bool, own: bool, orig: seq<T>, schedule: seq<nat>, states: seq<State<T>>) {
    && |states| == |schedule| + 1 && states[0] == Initial(orig)
    && forall k :: 0 <= k < |schedule| ==>
        CanStep(own, states[k], schedule[k]) && states[k + 1] == Step(lt, own, states[k], schedule[k])
  }

  /** A run of the task graph that ends in state g. */
  ghost predicate Reaches<T(!new)>(lt: (T, T) -> bool, orig: seq<T>, g: Graph.State<T>, most: nat) {
    exists schedule, states :: Reached(lt, orig, schedule, states, g) && |schedule| <= most
  }

  ghost predicate Reached<T>(lt: (T, T) -> bool, orig: seq<T>, schedule: seq<nat>, states: seq<Graph.State<T>>,
                             g: Graph.State<T>) {
    Term.IsRun(lt, orig, schedule, states) && states[|schedule|] == g
  }

  lemma ReachesFirst<T(!new)>(lt: (T, T) -> bool, orig: seq<T>)
    ensures Reaches(lt, orig, Graph.Initial(orig), 0)
  {
    assert Reached(lt, orig, [], [Graph.Initial(orig)], Graph.Initial(orig));
  }

  lemma ReachesNext<T(!new)>(lt: (T, T) -> bool, orig: seq<T>, g: Graph.State<T>, most: nat, i: nat)
    requires Reaches(lt, orig, g, most) && Graph.CanStep(g, i)
    ensures Reaches(lt, orig, Graph.Step(lt, g, i), most + 1)
  {
    hide Graph.CanStep, Graph.Step;
    var schedule, states :| Reached(lt, orig, schedule, states, g) && |schedule| <= most;
    assert Reached(lt, orig, schedule + [i], states + [Graph.Step(lt, g, i)], Graph.Step(lt, g, i));
  }

  lemma InitialWaits<T>(orig: seq<T>)
    ensures Waits(Initial(orig).tasks) == 0
  {
    var tasks := Initial(orig).tasks;
    assert [] + [tasks[0].stack[0]] == tasks[0].stack && [] + [tasks[0]] == tasks;
    SumAppend((f: Frame) => if f.Running? then 0 else 1, [], tasks[0].stack[0]);
    SumAppend((t: Task) => WaitsOf(t.stack), [], tasks[0]);
  }

  /** Every state of a run has a view that some run of the task graph reaches, in no more
      steps; and every step lowers the weight. */
  lemma {:induction false} RunIsViewed<T(!new)>(lt: (T, T) -> bool, own: bool, orig: seq<T>, schedule: seq<nat>,
                                         states: seq<State<T>>, k: nat) returns (v: View<T>)
    requires StrictWeak(lt) && IsRun(lt, own, orig, schedule, states) && k < |states|
    ensures Linked(states[k], v) && Invariant(lt, orig, v.g) && Reaches(lt, orig, v.g, k)
    ensures k + Weight(states[k], v) <= 2 * Term.SortWeight(|orig|)
  {
    hide Invariant, Linked, Step, CanStep, Graph.Step, Graph.CanStep, Initial, Waits, Reaches;
    hide Term.SortWeight, Term.Weight;
    if k == 0 {
      v := View(Graph.Initial(orig), map[(0, 0) := 1], [0]);
      InitialLinked(orig);
      InitialInvariant(lt, orig);
      InitialWaits(orig);
      Term.InitialWeight(orig);
      ReachesFirst(lt, orig);
    } else {
      v := RunIsViewed(lt, own, orig, schedule, states, k - 1);
      v := OneStep(lt, own, orig, states[k - 1], schedule[k - 1], v, k - 1);
    }
  }

  lemma OneStep<T(!new)>(lt: (T, T) -> bool, own: bool, orig: seq<T>, s: State<T>, t: nat, v: View<T>, most: nat)
    returns (v': View<T>)
    requires StrictWeak(lt) && CanStep(own, s, t)
    requires Linked(s, v) && Invariant(lt, orig, v.g) && Reaches(lt, orig, v.g, most)
    ensures Linked(Step(lt, own, s, t), v') && Invariant(lt, orig, v'.g) && Reaches(lt, orig, v'.g, most + 1)
    ensures Weight(Step(lt, own, s, t), v') < Weight(s, v)
  {
    var running := s.tasks[t].stack[s.tasks[t].Top()].Running?;
    hide Invariant, Linked, Step, CanStep, Graph.Step, Graph.CanStep, Waits, Term.Weight;
    if running {
      var i;
      v', i := SimulateRunning(lt, own, orig, s, v, t);
      StepKeepsInvariant(lt, orig, v.g, i);
      Term.StepLowersWeight(lt, orig, v.g, i);
      ReachesNext(lt, orig, v.g, most, i);
    } else {
      SimulateWait(lt, own, orig, s, v, t);
      v' := v;
    }
  }

  /** What the sort's own steps never do wrong, whoever else is where: the next step of a
      running call meets all demands on its slots, no two running calls have a slot in
      common, and merges start on sorted halves. */
  ghost predicate Sound<T>(lt: (T, T) -> bool, own: bool, orig: seq<T>, s: State<T>) {
    && (forall t :: 0 <= t < |s.tasks| && IsRunning(s.tasks, t) ==>
          && CanStep(own, s, t)
          && (Work(s.tasks, t).MergeRange? ==>
                && Term.FindsSorted(lt, orig, Alone(Work(s.tasks, t), s.x, s.z), Work(s.tasks, t))
                && Term.MergesWell(lt, Alone(Work(s.tasks, t), s.x, s.z), Work(s.tasks, t))))
    && (forall t, u, k :: 0 <= t < |s.tasks| && 0 <= u < |s.tasks| && t != u ==> Apart(s.tasks, t, u, k))
  }

  predicate IsRunning(tasks: seq<Task>, t: nat)
    requires t < |tasks|
  {
    tasks[t].stack != [] && tasks[t].stack[tasks[t].Top()].Running?
  }

  function Work(tasks: seq<Task>, t: nat): Graph.Work
    requires t < |tasks| && IsRunning(tasks, t)
  {
    tasks[t].stack[tasks[t].Top()].work
  }

  ghost predicate Apart(tasks: seq<Task>, t: nat, u: nat, k: int)
    requires t < |tasks| && u < |tasks|
  {
    IsRunning(tasks, t) && IsRunning(tasks, u) ==>
      && !(ClaimsX(Work(tasks, t), k) && ClaimsX(Work(tasks, u), k))
      && !(ClaimsZ(Work(tasks, t), k) && ClaimsZ(Work(tasks, u), k))
  }

  lemma LinkedSound<T(!new)>(lt: (T, T) -> bool, own: bool, orig: seq<T>, s: State<T>, v: View<T>)
    requires StrictWeak(lt) && Linked(s, v) && Invariant(lt, orig, v.g)
    ensures Sound(lt, own, orig, s)
  {
    hide StrictWeak, Linked, Invariant, Term.FindsSorted, Term.MergesWell, Graph.CanStep, ClaimsX, ClaimsZ;
    LinkedMemory(s, v);
    forall t | 0 <= t < |s.tasks| && IsRunning(s.tasks, t)
      ensures CanStep(own, s, t)
      ensures Work(s.tasks, t).MergeRange? ==>
                && Term.FindsSorted(lt, orig, Alone(Work(s.tasks, t), s.x, s.z), Work(s.tasks, t))
                && Term.MergesWell(lt, Alone(Work(s.tasks, t), s.x, s.z), Work(s.tasks, t))
    {
      var i := TopNode(s, v, t);
      ReadyTasksAreSafe(lt, orig, v.g, i);
      AloneStep(lt, v.g, i);
      if Work(s.tasks, t).MergeRange? {
        Term.MergeStartsOnSortedHalves(lt, orig, v.g, i);
        Term.MergesAreCutWell(lt, orig, v.g, i);
        SameFinds(lt, orig, v.g, Alone(Work(s.tasks, t), s.x, s.z), Work(s.tasks, t));
      }
    }
    forall t, u, k | 0 <= t < |s.tasks| && 0 <= u < |s.tasks| && t != u ensures Apart(s.tasks, t, u, k) {
      if IsRunning(s.tasks, t) && IsRunning(s.tasks, u) {
        var i := TopNode(s, v, t);
        var j := TopNode(s, v, u);
        LinkedDiffer(s, v, (t, s.tasks[t].Top()), (u, s.tasks[u].Top()));
        ClaimsApart(v.g.tasks, |orig|, i, j, k) by { InvariantShape(lt, orig, v.g); }
      }
    }
  }

  lemma InvariantShape<T>(lt: (T, T) -> bool, orig: seq<T>, g: Graph.State<T>)
    requires Invariant(lt, orig, g)
    ensures Shape(g.tasks, |orig|)
  {
  }

  lemma LinkedDiffer<T>(s: State<T>, v: View<T>, k: (nat, nat), k': (nat, nat))
    requires Linked(s, v) && k in v.node && k' in v.node && k != k'
    ensures v.node[k] != v.node[k']
  {
    Differ(v, k, k');
  }

  lemma SameFinds<T>(lt: (T, T) -> bool, orig: seq<T>, g: Graph.State<T>, g': Graph.State<T>, w: Graph.Work)
    requires w.MergeRange? && Term.FindsSorted(lt, orig, g, w) && g'.x == g.x && g'.z == g.z
    requires Term.MergesWell(lt, g, w)
    ensures Term.FindsSorted(lt, orig, g', w) && Term.MergesWell(lt, g', w)
  {
  }

  // ---------- The end ----------

  lemma {:induction false} CallerReturnsLast(tasks: seq<Task>, t: nat)
    requires StacksOK(tasks) && tasks[0].stack == [] && t < |tasks|
    ensures tasks[t].stack == []
  {
    if t > 0 && tasks[t].stack != [] {
      assert SpawnerWaits(tasks, t);
      CallerReturnsLast(tasks, tasks[t].spawner);
    }
  }

  lemma ReturnedIsTerminated<T>(lt: (T, T) -> bool, orig: seq<T>, s: State<T>, v: View<T>)
    requires Linked(s, v) && Invariant(lt, orig, v.g) && s.tasks[0].stack == []
    ensures Graph.Terminated(v.g) && forall t :: 0 <= t < |s.tasks| ==> s.tasks[t].stack == []
  {
    hide MemoryOK, BasesOK;
    forall t | 0 <= t < |s.tasks| ensures s.tasks[t].stack == [] {
      CallerReturnsLast(s.tasks, t);
    }
    forall k ensures k !in v.node {
      HasOld(s.tasks, v, k.0, k.1);
    }
    SumZero(ChildOf(0), v.g.tasks);
    CountsOf(v.g.tasks, 0);
  }

  /** The youngest unfinished task can step. */
  lemma {:induction false} SomebodySteps<T>(lt: (T, T) -> bool, own: bool, orig: seq<T>, s: State<T>, v: View<T>,
                                            from: nat) returns (t: nat)
    requires Linked(s, v) && Sound(lt, own, orig, s) && 0 < from <= |s.tasks| && s.tasks[0].stack != []
    requires forall u :: from <= u < |s.tasks| ==> s.tasks[u].stack == []
    ensures CanStep(own, s, t)
    decreases from
  {
    hide Linked, Graph.CanStep, Apart, Term.FindsSorted, Term.MergesWell;
    t := from - 1;
    if s.tasks[t].stack == [] {
      t := SomebodySteps(lt, own, orig, s, v, t);
    } else if IsRunning(s.tasks, t) {
      assert CanStep(own, s, t);
    } else if s.tasks[t].stack[s.tasks[t].Top()].Halving? {
      HalvingNode(s, v, t);
    }
  }

  /** The main theorem, for OpenMP and for Cilk Plus (own). For every strict weak order,
      every input and every interleaving: every state is sound, the run is shorter than a
      bound that depends on the input's length alone, it cannot get stuck before the sort
      returns, and then all tasks have finished, the keys are in place, stably sorted, and
      every slot of the buffer has been destroyed. */
  lemma EveryScheduleSorts<T(!new)>(lt: (T, T) -> bool, own: bool, orig: seq<T>, schedule: seq<nat>,
                                    states: seq<State<T>>)
    requires StrictWeak(lt) && IsRun(lt, own, orig, schedule, states)
    ensures |schedule| <= 2 * Term.SortWeight(|orig|)
    ensures forall k :: 0 <= k < |states| ==> Sound(lt, own, orig, states[k])
    ensures var end := states[|schedule|];
            if end.tasks != [] && end.tasks[0].stack == [] then
              && (forall t :: 0 <= t < |end.tasks| ==> end.tasks[t].stack == [])
              && AllLive(end.x, 0, |orig|) && AllAre(end.z, 0, |orig|, Raw)
              && IsStableSort(lt, orig, KeysIn(end.x, 0, |orig|))
            else exists t :: CanStep(own, end, t)
  {
    hide Invariant, Step, IsStableSort, Sound, CanStep, Linked, Initial, Reaches;
    forall k | 0 <= k < |states| ensures Sound(lt, own, orig, states[k]) {
      var v := RunIsViewed(lt, own, orig, schedule, states, k);
      LinkedSound(lt, own, orig, states[k], v);
    }
    var end := states[|schedule|];
    var v := RunIsViewed(lt, own, orig, schedule, states, |schedule|);
    LinkedStacks(end, v);
    LinkedMemory(end, v);
    hide StacksOK, Term.SortWeight, Weight;
    if end.tasks != [] && end.tasks[0].stack == [] {
      ReturnedIsTerminated(lt, orig, end, v);
      TerminatedIsSorted(lt, orig, v.g);
      LiveKeys(end.x, 0, Sort(lt, orig));
      SortStable(lt, orig);
    } else {
      StacksExist(end.tasks) by { LinkedStacks(end, v); }
      var t := SomebodySteps(lt, own, orig, end, v, |end.tasks|);
    }
  }

  /** Any task that can step may be the next one of a run. */
  lemma RunGoesOn<T>(lt: (T, T) -> bool, own: bool, orig: seq<T>, schedule: seq<nat>, states: seq<State<T>>, t: nat)
    requires IsRun(lt, own, orig, schedule, states) && CanStep(own, states[|schedule|], t)
    ensures IsRun(lt, own, orig, schedule + [t], states + [Step(lt, own, states[|schedule|], t)])
  {
    hide Step, CanStep, Initial;
  }

  /** Every run can go on until the sort has returned. */
  lemma {:induction false} EveryRunCanReturn<T(!new)>(lt: (T, T) -> bool, own: bool, orig: seq<T>, schedule: seq<nat>,
                                                      states: seq<State<T>>)
    returns (schedule': seq<nat>, states': seq<State<T>>)
    requires StrictWeak(lt) && IsRun(lt, own, orig, schedule, states)
    ensures schedule <= schedule' && states <= states' && IsRun(lt, own, orig, schedule', states')
    ensures var end := states'[|schedule'|]; end.tasks != [] && end.tasks[0].stack == []
    decreases 2 * Term.SortWeight(|orig|) - |schedule|
  {
    hide StrictWeak, Sound, Step, CanStep, Term.SortWeight, IsStableSort;
    EveryScheduleSorts(lt, own, orig, schedule, states);
    var end := states[|schedule|];
    if end.tasks != [] && end.tasks[0].stack == [] {
      return schedule, states;
    }
    var t :| CanStep(own, end, t);
    RunGoesOn(lt, own, orig, schedule, states, t);
    schedule', states' := EveryRunCanReturn(lt, own, orig, schedule + [t], states + [Step(lt, own, end, t)]);
  }

  lemma StacksExist(tasks: seq<Task>)
    requires StacksOK(tasks)
    ensures tasks != []
  {
  }

  /** Refinement: whatever spawned tasks and taskwaits lead to, the memory is that of a
      state which the task graph can reach too, in no more steps. */
  lemma EveryStateIsInGraph<T(!new)>(lt: (T, T) -> bool, own: bool, orig: seq<T>, schedule: seq<nat>,
                                     states: seq<State<T>>, k: nat) returns (g: Graph.State<T>)
    requires StrictWeak(lt) && IsRun(lt, own, orig, schedule, states) && k < |states|
    ensures Reaches(lt, orig, g, k) && g.x == states[k].x && g.z == states[k].z
  {
    var v := RunIsViewed(lt, own, orig, schedule, states, k);
    LinkedMemory(states[k], v);
    g := v.g;
  }
}
