/** The whole sort as OpenMP and Cilk Plus run it: each half of a range is sorted by a
    spawned task and by a call, a merge spawns its left pieces, and taskwaits hold calls
    back. Tasks interleave at single comparisons, moves, constructions and destructions.
    SortTasksRun shows that every run is one of the task graph that waits longer. */
module SortTasks {
  import opened Keys
  import opened OpenMPSort
  import opened Pieces
  import Graph = TaskGraph

  /** A call on a task's stack. Running: a sort that has not divided, in its base case or
      before, or a merge in its loop or serial part. Halving: a sort whose left half has
      been spawned and whose right half is the call above; when that has returned, the
      sort is at its taskwait. AtTaskwait: a merge that has done its own part. */
  datatype Frame =
    | Running(work: Graph.Work)
    | Halving(lo: nat, hi: nat, inplace: int)
    | AtTaskwait

  /** A task was spawned by call number at of task spawner; it has finished when its
      stack is empty. Task 0 is whoever calls the sort. */
  datatype Task = Task(spawner: nat, at: nat, stack: seq<Frame>) {
    function Top(): nat
      requires stack != []
    {
      |stack| - 1
    }
  }

  datatype State<T> = State(x: seq<Slot<T>>, z: seq<Slot<T>>, tasks: seq<Task>)

  function Initial<T>(keys: seq<T>): State<T> {
    var g := Graph.Initial(keys);
    State(g.x, g.z, [Task(0, 0, [Running(Graph.SortRange(0, |keys|, 2))])])
  }

  /** Call d of task t may pass its taskwait. In OpenMP it waits for all tasks that task t
      has spawned; in Cilk Plus (own) for those that this very call has. */
  predicate Waited(tasks: seq<Task>, own: bool, t: nat, d: nat) {
    forall j :: t < j < |tasks| && tasks[j].spawner == t && (own ==> tasks[j].at == d) ==> tasks[j].stack == []
  }

  /** OpenMP waits for what all calls of the task have spawned. */
  lemma OpenMPWaitsForAll(tasks: seq<Task>, t: nat)
    ensures forall d: nat :: Waited(tasks, false, t, d) <==> forall e: nat :: Waited(tasks, true, t, e)
  {
    if forall e: nat :: Waited(tasks, true, t, e) {
      forall j | t < j < |tasks| && tasks[j].spawner == t ensures tasks[j].stack == [] {
        assert Waited(tasks, true, t, tasks[j].at);
      }
    }
  }

  /** While a left half is still being sorted, the merge of a right half may return in Cilk
      Plus, not in OpenMP. */
  lemma CilkWaitsLess()
    ensures var sort := Running(Graph.SortRange(0, 1000, 0));
            var tasks := [Task(0, 0, [Halving(0, 2000, 2), AtTaskwait]), Task(0, 0, [sort])];
            Waited(tasks, true, 0, 1) && !Waited(tasks, false, 0, 1) && !Waited(tasks, true, 0, 0)
  {
    var sort := Running(Graph.SortRange(0, 1000, 0));
    var tasks := [Task(0, 0, [Halving(0, 2000, 2), AtTaskwait]), Task(0, 0, [sort])];
    assert tasks[1].stack != [];
  }

  /** A call by itself in the task graph: what it does to its own slots, and demands of
      them, does not depend on who else is there. */
  function Alone<T>(w: Graph.Work, x: seq<Slot<T>>, z: seq<Slot<T>>): Graph.State<T> {
    Graph.State(x, z, [Graph.Root(2), Graph.Task(0, 0, false, w)])
  }

  predicate CanStep<T>(own: bool, s: State<T>, t: nat) {
    && t < |s.tasks| && s.tasks[t].stack != []
    && var d := s.tasks[t].Top();
    && match s.tasks[t].stack[d]
       case Running(w) => Graph.CanStep(Alone(w, s.x, s.z), 1)
       case Halving(lo, hi, _) => lo <= hi && Waited(s.tasks, own, t, d)
       case AtTaskwait => Waited(s.tasks, own, t, d)
  }

  /** The next step concerns the call's own slots only: it neither spawns nor returns. */
  predicate WorksOn(w: Graph.Work) {
    match w
    case SortRange(lo, hi, _) => hi - lo <= SORT_CUT_OFF
    case Build(_, hi, _, done) => done != hi
    case MergeRange(_, _, _, piece) => !piece.Done() && !piece.Splits()
  }

  function SetTop(tasks: seq<Task>, t: nat, f: Frame): seq<Task>
    requires t < |tasks| && tasks[t].stack != []
  {
    tasks[t := tasks[t].(stack := tasks[t].stack[tasks[t].Top() := f])]
  }

  function Push(tasks: seq<Task>, t: nat, f: Frame): seq<Task>
    requires t < |tasks|
  {
    tasks[t := tasks[t].(stack := tasks[t].stack + [f])]
  }

  function Pop(tasks: seq<Task>, t: nat): seq<Task>
    requires t < |tasks| && tasks[t].stack != []
  {
    tasks[t := tasks[t].(stack := tasks[t].stack[..tasks[t].Top()])]
  }

  /** Call d of task t spawns a task. */
  function Spawn(tasks: seq<Task>, t: nat, d: nat, w: Graph.Work): seq<Task> {
    tasks + [Task(t, d, [Running(w)])]
  }

  /** A sort above the cut-off spawns the left half and calls the right one. */
  function Divide(tasks: seq<Task>, t: nat, lo: nat, hi: nat, inplace: int): seq<Task>
    requires t < |tasks| && tasks[t].stack != [] && lo <= hi
  {
    var d, mid := tasks[t].Top(), Graph.Mid(lo, hi);
    Push(Spawn(SetTop(tasks, t, Halving(lo, hi, inplace)), t, d, Graph.SortRange(lo, mid, Not(inplace))),
         t, Running(Graph.SortRange(mid, hi, Not(inplace))))
  }

  /** The loop of a merge spawns the left piece and goes on with the right one. */
  function Split(tasks: seq<Task>, t: nat, w: Graph.Work): seq<Task>
    requires t < |tasks| && tasks[t].stack != [] && w.MergeRange? && w.piece.Splits()
    requires w.piece.Range().Valid() && w.piece.xs <= w.piece.XM() && w.piece.ys <= w.piece.YM()
  {
    Spawn(SetTop(tasks, t, Running(w.(piece := Right(w.piece)))), t, tasks[t].Top(), w.(piece := Left(w.piece)))
  }

  /** Task t takes its next step. */
  function Step<T>(lt: (T, T) -> bool, own: bool, s: State<T>, t: nat): State<T>
    requires CanStep(own, s, t)
  {
    match s.tasks[t].stack[s.tasks[t].Top()]
    case Halving(lo, hi, inplace) =>
      s.(tasks := SetTop(s.tasks, t, Running(Graph.MergeRange(lo, hi, inplace, Graph.WholeMerge(lo, hi, inplace)))))
    case AtTaskwait => s.(tasks := Pop(s.tasks, t))
    case Running(w) =>
      if WorksOn(w) then
        var alone := Graph.Step(lt, Alone(w, s.x, s.z), 1);
        State(alone.x, alone.z, SetTop(s.tasks, t, Running(alone.tasks[1].work)))
      else match w
        case SortRange(lo, hi, inplace) => s.(tasks := Divide(s.tasks, t, lo, hi, inplace))
        case Build(_, _, _, _) => s.(tasks := Pop(s.tasks, t))
        case MergeRange(_, _, _, piece) =>
          if piece.Done() then s.(tasks := SetTop(s.tasks, t, AtTaskwait))
          else s.(tasks := Split(s.tasks, t, w))
  }
}
