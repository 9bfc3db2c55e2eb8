/** The TBB task graph of the sort: tasks with parents and reference counts, merge
    tasks as continuations, recycled task objects, and merges that divide
    themselves while their siblings run. A run executes ready tasks in any order,
    interleaved at single comparisons, moves, constructions and destructions. */
module TaskGraph {
  import opened StableOrder
  import opened Keys
  import opened OpenMPSort
  import opened Pieces

  /** The fields of a task object. Positions are offsets into both buffers. A merge
      also remembers the range [lo, hi) it was created for and the mode of the sort
      that created it; no step reads lo or hi. Build is a stable_sort_task whose
      keys are sorted and whose buffer is prepared up to done. */
  datatype Work =
    | SortRange(lo: nat, hi: nat, inplace: int)
    | Build(lo: nat, hi: nat, inplace: int, done: nat)
    | MergeRange(lo: nat, hi: nat, inplace: int, piece: Piece)

  /** Root is the dummy task that spawn_root_and_wait waits on. A waiting task is a
      continuation whose reference count is not yet zero. */
  datatype Task =
    | Root(refs: int)
    | Task(parent: nat, refs: int, waiting: bool, work: Work)
    | Finished
  {
    predicate Active() {
      Task? && !waiting
    }
  }

  datatype State<T> = State(x: seq<Slot<T>>, z: seq<Slot<T>>, tasks: seq<Task>)

  /** What parallel_stable_sort starts from: one spawned sort task, the root's count
      at 2 (the task and the wait), the keys in x and a raw buffer. */
  function Initial<T>(keys: seq<T>): State<T> {
    State(seq(|keys|, i requires 0 <= i < |keys| => Live(keys[i])), seq(|keys|, i => Raw),
          [Root(2), Task(0, 0, false, SortRange(0, |keys|, 2))])
  }

  function Mid(lo: nat, hi: nat): nat
    requires lo <= hi
  {
    lo + (hi - lo) / 2
  }

  /** The merge of the two sorted halves of a range, before it starts. */
  function WholeMerge(lo: nat, hi: nat, inplace: int): Piece
    requires lo <= hi
  {
    Piece(lo, Mid(lo, hi), Mid(lo, hi), hi, lo, inplace == 2, Fresh)
  }

  // ---------- Steps ----------

  /** A task returns: its parent's count drops, and at zero the parent is spawned. */
  function Complete(tasks: seq<Task>, i: nat): seq<Task>
    requires i < |tasks| && tasks[i].Task? && tasks[i].parent < |tasks| && tasks[i].parent != i
    requires !tasks[tasks[i].parent].Finished?
  {
    var p := tasks[i].parent;
    var parent := tasks[p];
    tasks[i := Finished][p :=
      if parent.Root? then Root(parent.refs - 1)
      else parent.(refs := parent.refs - 1, waiting := parent.refs - 1 != 0)]
  }

  /** stable_sort_task::execute above the cut-off: a merge continuation takes over the
      parent, the right half is spawned, and this object is recycled for the left half. */
  function DivideSort(tasks: seq<Task>, i: nat): seq<Task>
    requires i < |tasks| && tasks[i].Task? && tasks[i].work.SortRange? && tasks[i].work.lo <= tasks[i].work.hi
  {
    var SortRange(lo, hi, inplace) := tasks[i].work;
    var m := |tasks|;
    tasks[i := Task(m, 0, false, SortRange(lo, Mid(lo, hi), Not(inplace)))]
    + [Task(tasks[i].parent, 2, true, MergeRange(lo, hi, inplace, WholeMerge(lo, hi, inplace))),
       Task(m, 0, false, SortRange(Mid(lo, hi), hi, Not(inplace)))]
  }

  /** merge_task::execute above the cut-off, its search done: the right part becomes an
      additional child of the parent, this object is recycled for the left part. */
  function DivideMerge(tasks: seq<Task>, i: nat): seq<Task>
    requires i < |tasks| && tasks[i].Task? && tasks[i].work.MergeRange? && tasks[i].work.piece.Splits()
    requires var p := tasks[i].work.piece; p.Range().Valid() && p.xs <= p.XM() && p.ys <= p.YM()
    requires tasks[i].parent < |tasks| && tasks[i].parent != i && !tasks[tasks[i].parent].Finished?
  {
    var MergeRange(lo, hi, inplace, piece) := tasks[i].work;
    var p := tasks[i].parent;
    tasks[i := tasks[i].(work := MergeRange(lo, hi, inplace, Left(piece)))]
         [p := tasks[p].(refs := tasks[p].refs + 1)]
    + [Task(p, 0, false, MergeRange(lo, hi, inplace, Right(piece)))]
  }

  function SortedRange<T>(lt: (T, T) -> bool, m: seq<Slot<T>>, lo: nat, hi: nat): (r: seq<Slot<T>>)
    requires lo <= hi <= |m| && forall k :: lo <= k < hi ==> m[k].Live?
    ensures |r| == |m|
  {
    var keys := Sort(lt, seq(hi - lo, i requires 0 <= i < hi - lo => m[lo + i].key));
    seq(|m|, k requires 0 <= k < |m| => if lo <= k < hi then Live(keys[k - lo]) else m[k])
  }

  /** The demands of a task's next step on the slots it touches, and on its parent. */
  predicate CanStep<T>(s: State<T>, i: nat) {
    && i < |s.tasks| && s.tasks[i].Active() && |s.x| == |s.z|
    && var t := s.tasks[i];
    && t.parent < |s.tasks| && t.parent != i && !s.tasks[t.parent].Finished?
    && match t.work
       case SortRange(lo, hi, inplace) =>
         lo <= hi <= |s.x| && (hi - lo <= SORT_CUT_OFF ==> forall k :: lo <= k < hi ==> s.x[k].Live?)
       case Build(lo, hi, inplace, done) =>
         lo <= done <= hi <= |s.x| && (done < hi ==> s.z[done].Raw? && (inplace == 0 ==> s.x[done].Constructed()))
       case MergeRange(lo, hi, inplace, piece) =>
         && (if inplace != 0 then Safe(piece, s.z, s.x) else Safe(piece, s.x, s.z))
         && (piece.Splits() ==> piece.xs <= piece.XM() && piece.ys <= piece.YM())
  }

  /** Task i executes its next step. */
  function Step<T>(lt: (T, T) -> bool, s: State<T>, i: nat): State<T>
    requires CanStep(s, i)
  {
    var t := s.tasks[i];
    match t.work
    case SortRange(lo, hi, inplace) =>
      if hi - lo <= SORT_CUT_OFF
      then State(SortedRange(lt, s.x, lo, hi), s.z,
                 s.tasks[i := t.(work := Build(lo, hi, inplace, if inplace == 2 then hi else lo))])
      else s.(tasks := DivideSort(s.tasks, i))
    case Build(lo, hi, inplace, done) =>
      if done == hi then s.(tasks := Complete(s.tasks, i))
      else
        var tasks' := s.tasks[i := t.(work := Build(lo, hi, inplace, done + 1))];
        if inplace == 0 then State(s.x[done := Empty], s.z[done := s.x[done]], tasks')
        else State(s.x, s.z[done := Empty], tasks')
    case MergeRange(lo, hi, inplace, piece) =>
      if piece.Done() then s.(tasks := Complete(s.tasks, i))
      else if piece.Splits() then s.(tasks := DivideMerge(s.tasks, i))
      else if inplace != 0 then
        var (piece', z', x') := Advance(lt, piece, s.z, s.x);
        State(x', z', s.tasks[i := t.(work := MergeRange(lo, hi, inplace, piece'))])
      else
        var (piece', x', z') := Advance(lt, piece, s.x, s.z);
        State(x', z', s.tasks[i := t.(work := MergeRange(lo, hi, inplace, piece'))])
  }

  /** The wait of spawn_root_and_wait is over when only its own count is left. */
  predicate Terminated<T>(s: State<T>) {
    |s.tasks| > 0 && s.tasks[0] == Root(1)
  }
}
