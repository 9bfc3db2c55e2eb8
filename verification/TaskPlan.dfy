/** The base cases and serial merges of a run of the task graph are those of the
    sequential recursion, whatever the order of execution. */
module TaskPlan {
  import opened Sums
  import opened StableOrder
  import opened MergePlan
  import opened SortPlan
  import opened OpenMPSort
  import opened Pieces
  import opened PiecePlan
  import opened TaskGraph
  import opened TaskShape
  import opened TaskMemory
  import opened TaskRun
  import opened TaskTermination

  /** The job that a task starts by going over from w to w': a base case by sorting its
      keys, a serial merge by beginning to move. */
  function Starts(w: Work, w': Work): seq<Job> {
    if w.SortRange? && w'.Build? && w.lo <= w.hi then [BaseSort(w.lo, w.lo, w.hi - w.lo, w.inplace)]
    else if w.MergeRange? && w'.MergeRange? then Merges(w.inplace != 0, Begins(w.piece, w'.piece))
    else []
  }

  function StartedBy<T>(s: State<T>, s': State<T>, i: nat): seq<Job> {
    if i < |s.tasks| && i < |s'.tasks| && s.tasks[i].Task? && s'.tasks[i].Task?
    then Starts(s.tasks[i].work, s'.tasks[i].work) else []
  }

  /** All that are started in the first k steps. */
  function Started<T>(schedule: seq<nat>, states: seq<State<T>>, k: nat): seq<Job>
    requires k <= |schedule| < |states|
  {
    if k == 0 then [] else Started(schedule, states, k - 1) + StartedBy(states[k - 1], states[k], schedule[k - 1])
  }

  // ---------- What tasks are due for ----------

  ghost function WorkJobs<T(!new)>(lt: (T, T) -> bool, orig: seq<T>, w: Work): seq<Job>
    requires StrictWeak(lt)
  {
    match w
    case SortRange(lo, hi, inplace) => if lo <= hi <= |orig| then Plan(lt, orig[lo..hi], lo, lo, inplace) else []
    case Build(_, _, _, _) => []
    case MergeRange(lo, hi, inplace, piece) =>
      if lo <= hi <= |orig| then Merges(inplace != 0, PieceLeaves(lt, piece, Base(lt, orig, lo, hi))) else []
  }

  /** How many of the jobs that a task is due for are j. */
  ghost function Due<T(!new)>(lt: (T, T) -> bool, orig: seq<T>, j: Job): Task -> nat
    requires StrictWeak(lt)
  {
    (t: Task) => if t.Task? then multiset(WorkJobs(lt, orig, t.work))[j] else 0
  }

  lemma MergesConcat(back: bool, a: seq<Leaf>, b: seq<Leaf>)
    ensures Merges(back, a + b) == Merges(back, a) + Merges(back, b)
  {
  }

  /** A sort that divides deals out its jobs. */
  lemma DivideDeals<T(!new)>(lt: (T, T) -> bool, orig: seq<T>, lo: nat, hi: nat, inplace: int)
    requires StrictWeak(lt) && lo <= hi <= |orig| && hi - lo > SORT_CUT_OFF
    ensures var mid := Mid(lo, hi);
            WorkJobs(lt, orig, SortRange(lo, hi, inplace)) ==
              WorkJobs(lt, orig, SortRange(lo, mid, Not(inplace)))
              + WorkJobs(lt, orig, SortRange(mid, hi, Not(inplace)))
              + WorkJobs(lt, orig, MergeRange(lo, hi, inplace, WholeMerge(lo, hi, inplace)))
  {
    hide Plan, Sort, Sorted, Leaves, Base;
    var mid, keys := Mid(lo, hi), orig[lo..hi];
    PlanHalves(lt, keys, lo, lo, inplace);
    assert keys[..|keys| / 2] == orig[lo..mid] && keys[|keys| / 2..] == orig[mid..hi];
    BaseParts(lt, orig, lo, hi);
  }

  lemma BaseStarts<T(!new)>(lt: (T, T) -> bool, orig: seq<T>, lo: nat, hi: nat, inplace: int, done: nat)
    requires StrictWeak(lt) && lo <= hi <= |orig| && hi - lo <= SORT_CUT_OFF
    ensures WorkJobs(lt, orig, SortRange(lo, hi, inplace)) ==
            Starts(SortRange(lo, hi, inplace), Build(lo, hi, inplace, done))
    ensures WorkJobs(lt, orig, Build(lo, hi, inplace, done)) == []
  {
    hide Plan;
    PlanSmall(lt, orig[lo..hi], lo, lo, inplace);
  }

  lemma DivideDue<T(!new)>(lt: (T, T) -> bool, orig: seq<T>, tasks: seq<Task>, i: nat, j: Job)
    requires StrictWeak(lt) && i < |tasks| && tasks[i].Task? && tasks[i].work.SortRange?
    requires tasks[i].work.lo <= tasks[i].work.hi <= |orig| && tasks[i].work.hi - tasks[i].work.lo > SORT_CUT_OFF
    ensures Sum(Due(lt, orig, j), DivideSort(tasks, i)) == Sum(Due(lt, orig, j), tasks)
  {
    hide Sum, WorkJobs;
    var f, tasks', m := Due(lt, orig, j), DivideSort(tasks, i), |tasks|;
    var one := tasks[i := tasks'[i]];
    SumUpdate(f, tasks, i, tasks'[i]);
    SumAppend(f, one, tasks'[m]);
    SumAppend(f, one + [tasks'[m]], tasks'[m + 1]);
    assert tasks' == one + [tasks'[m]] + [tasks'[m + 1]];
    DivideDeals(lt, orig, tasks[i].work.lo, tasks[i].work.hi, tasks[i].work.inplace);
  }

  lemma CompleteDue<T(!new)>(lt: (T, T) -> bool, orig: seq<T>, tasks: seq<Task>, i: nat, j: Job)
    requires StrictWeak(lt) && i < |tasks| && tasks[i].Active() && WorkJobs(lt, orig, tasks[i].work) == []
    requires tasks[i].parent < |tasks| && tasks[i].parent != i
    requires var q := tasks[tasks[i].parent]; q.Root? || (q.Task? && q.waiting)
    ensures Sum(Due(lt, orig, j), Complete(tasks, i)) == Sum(Due(lt, orig, j), tasks)
  {
    hide Sum, WorkJobs;
    var f, tasks', q := Due(lt, orig, j), Complete(tasks, i), tasks[i].parent;
    var one := tasks[i := Finished];
    SumUpdate(f, tasks, i, Finished);
    SumUpdate(f, one, q, tasks'[q]);
    assert one[q] == tasks[q] && tasks' == one[q := tasks'[q]];
  }

  lemma DivideMergeDue<T(!new)>(lt: (T, T) -> bool, orig: seq<T>, tasks: seq<Task>, i: nat, j: Job)
    requires StrictWeak(lt) && i < |tasks| && tasks[i].Active() && tasks[i].work.MergeRange?
    requires var p := tasks[i].work.piece; p.Range().Valid() && p.Splits() && p.xs <= p.XM() && p.ys <= p.YM()
    requires tasks[i].parent < |tasks| && tasks[i].parent != i && !tasks[tasks[i].parent].Finished?
    requires var w := tasks[i].work;
             WorkJobs(lt, orig, w) ==
               WorkJobs(lt, orig, w.(piece := Left(w.piece))) + WorkJobs(lt, orig, w.(piece := Right(w.piece)))
    ensures Sum(Due(lt, orig, j), DivideMerge(tasks, i)) == Sum(Due(lt, orig, j), tasks)
  {
    hide Sum, WorkJobs, Left, Right;
    var f, tasks', r, q := Due(lt, orig, j), DivideMerge(tasks, i), |tasks|, tasks[i].parent;
    var one := tasks[i := tasks'[i]];
    var two := one[q := tasks'[q]];
    SumUpdate(f, tasks, i, tasks'[i]);
    SumUpdate(f, one, q, tasks'[q]);
    SumAppend(f, two, tasks'[r]);
    assert one[q] == tasks[q] && tasks' == two + [tasks'[r]];
  }

  /** The piece of an active merge is on track, in the buffers that it uses. */
  lemma MergeOnTrack<T>(lt: (T, T) -> bool, orig: seq<T>, s: State<T>, i: nat)
    requires Invariant(lt, orig, s) && i < |s.tasks| && s.tasks[i].Active() && s.tasks[i].work.MergeRange?
    ensures var w := s.tasks[i].work;
            && w.lo <= w.hi <= |orig|
            && OnTrack(lt, w.piece, if w.inplace != 0 then s.z else s.x, if w.inplace != 0 then s.x else s.z,
                       Base(lt, orig, w.lo, w.hi), Out(lt, orig, w.lo, w.hi))
  {
    hide Shape, Counted, Covered, OnTrack, Base, Out;
    MemoryLocal(lt, orig, s, i);
  }

  lemma DoneJobs<T(!new)>(lt: (T, T) -> bool, orig: seq<T>, w: Work)
    requires StrictWeak(lt) && w.MergeRange? && w.piece.Done()
    ensures WorkJobs(lt, orig, w) == []
  {
    hide PieceLeaves, Base;
    if w.lo <= w.hi <= |orig| {
      DecidedNone(lt, w.piece, Base(lt, orig, w.lo, w.hi));
    }
  }

  /** A task that completes was due for nothing more. */
  lemma CompleteStarts<T(!new)>(lt: (T, T) -> bool, orig: seq<T>, s: State<T>, i: nat, j: Job)
    requires StrictWeak(lt) && Invariant(lt, orig, s) && CanStep(s, i) && IsComplete(s.tasks[i].work)
    requires WorkJobs(lt, orig, s.tasks[i].work) == []
    ensures var s' := Step(lt, s, i);
            Sum(Due(lt, orig, j), s'.tasks) + multiset(StartedBy(s, s', i))[j] == Sum(Due(lt, orig, j), s.tasks)
  {
    ActiveFits(s.tasks, |orig|, i);
    CompleteDue(lt, orig, s.tasks, i, j);
    hide Invariant, Complete, Sum, StrictWeak, WorkJobs, Safe, Due;
    CompleteEnds(s.tasks, i);
  }

  lemma SplitStarts<T(!new)>(lt: (T, T) -> bool, orig: seq<T>, s: State<T>, i: nat, j: Job)
    requires StrictWeak(lt) && Invariant(lt, orig, s) && CanStep(s, i)
    requires s.tasks[i].work.MergeRange? && s.tasks[i].work.piece.Splits()
    ensures var s' := Step(lt, s, i);
            Sum(Due(lt, orig, j), s'.tasks) + multiset(StartedBy(s, s', i))[j] == Sum(Due(lt, orig, j), s.tasks)
  {
    ActiveFits(s.tasks, |orig|, i);
    SplitWork(lt, orig, s, i);
    StepSplits(lt, s, i);
    hide Invariant, DivideMerge, Step, CanStep, StrictWeak, Left, Right, WorkJobs, Due, Starts, Sum;
    DivideMergeDue(lt, orig, s.tasks, i, j);
    SplitStartsNone(s.tasks, i);
  }

  lemma StepSplits<T>(lt: (T, T) -> bool, s: State<T>, i: nat)
    requires CanStep(s, i) && s.tasks[i].work.MergeRange? && s.tasks[i].work.piece.Splits()
    ensures var t := s.tasks[i];
            && t.work.piece.Range().Valid()
            && t.work.piece.xs <= t.work.piece.XM() && t.work.piece.ys <= t.work.piece.YM()
            && t.parent < |s.tasks| && t.parent != i && !s.tasks[t.parent].Finished?
            && Step(lt, s, i) == s.(tasks := DivideMerge(s.tasks, i))
  {
    hide DivideMerge, Advance, Left, Right;
  }

  lemma SplitWork<T(!new)>(lt: (T, T) -> bool, orig: seq<T>, s: State<T>, i: nat)
    requires StrictWeak(lt) && Invariant(lt, orig, s) && i < |s.tasks| && s.tasks[i].Active()
    requires s.tasks[i].work.MergeRange? && s.tasks[i].work.piece.Splits()
    ensures var w := s.tasks[i].work;
            && w.piece.Range().Valid() && w.piece.xs <= w.piece.XM() && w.piece.ys <= w.piece.YM()
            && WorkJobs(lt, orig, w) ==
                 WorkJobs(lt, orig, w.(piece := Left(w.piece))) + WorkJobs(lt, orig, w.(piece := Right(w.piece)))
  {
    MergeOnTrack(lt, orig, s, i);
    hide Invariant, PieceLeaves, OnTrack, Base, Out, StrictWeak, Left, Right, WorkJobs;
    var w := s.tasks[i].work;
    var p, base, out := w.piece, Base(lt, orig, w.lo, w.hi), Out(lt, orig, w.lo, w.hi);
    if w.inplace != 0 {
      SplitDeals(lt, p, s.z, s.x, base, out);
    } else {
      SplitDeals(lt, p, s.x, s.z, base, out);
    }
    MergesConcat(w.inplace != 0, PieceLeaves(lt, Left(p), base), PieceLeaves(lt, Right(p), base));
    PartsWork(lt, orig, w);
  }

  lemma WorkStarts<T(!new)>(lt: (T, T) -> bool, orig: seq<T>, w: Work, p': Piece)
    requires StrictWeak(lt) && w.MergeRange? && w.lo <= w.hi <= |orig|
    requires var base := Base(lt, orig, w.lo, w.hi);
             PieceLeaves(lt, w.piece, base) == Begins(w.piece, p') + PieceLeaves(lt, p', base)
    ensures WorkJobs(lt, orig, w) == Starts(w, w.(piece := p')) + WorkJobs(lt, orig, w.(piece := p'))
  {
    hide PieceLeaves, Base, Begins;
    var base := Base(lt, orig, w.lo, w.hi);
    MergesConcat(w.inplace != 0, Begins(w.piece, p'), PieceLeaves(lt, p', base));
  }

  lemma AdvanceMerge<T(!new)>(lt: (T, T) -> bool, orig: seq<T>, s: State<T>, i: nat, j: Job)
    requires StrictWeak(lt) && Invariant(lt, orig, s) && CanStep(s, i)
    requires s.tasks[i].work.MergeRange? && !s.tasks[i].work.piece.Done() && !s.tasks[i].work.piece.Splits()
    ensures var s' := Step(lt, s, i);
            Sum(Due(lt, orig, j), s'.tasks) + multiset(StartedBy(s, s', i))[j] == Sum(Due(lt, orig, j), s.tasks)
  {
    MergeOnTrack(lt, orig, s, i);
    hide Invariant, Advance, Safe, Sum, PieceLeaves, OnTrack, Base, Out, StrictWeak, WorkJobs, Begins;
    var w, s' := s.tasks[i].work, Step(lt, s, i);
    var src, dst := if w.inplace != 0 then s.z else s.x, if w.inplace != 0 then s.x else s.z;
    AdvanceStarts(lt, w.piece, src, dst, Base(lt, orig, w.lo, w.hi), Out(lt, orig, w.lo, w.hi));
    WorkStarts(lt, orig, w, s'.tasks[i].work.piece);
    SumUpdate(Due(lt, orig, j), s.tasks, i, s'.tasks[i]);
  }

  lemma MergeStarts<T(!new)>(lt: (T, T) -> bool, orig: seq<T>, s: State<T>, i: nat, j: Job)
    requires StrictWeak(lt) && Invariant(lt, orig, s) && CanStep(s, i) && s.tasks[i].work.MergeRange?
    ensures var s' := Step(lt, s, i);
            Sum(Due(lt, orig, j), s'.tasks) + multiset(StartedBy(s, s', i))[j] == Sum(Due(lt, orig, j), s.tasks)
  {
    hide Invariant, Step, StartedBy, Due, StrictWeak, Safe, WorkJobs;
    if s.tasks[i].work.piece.Done() {
      DoneJobs(lt, orig, s.tasks[i].work);
      CompleteStarts(lt, orig, s, i, j);
    } else if s.tasks[i].work.piece.Splits() {
      SplitStarts(lt, orig, s, i, j);
    } else {
      AdvanceMerge(lt, orig, s, i, j);
    }
  }

  lemma PartsWork<T(!new)>(lt: (T, T) -> bool, orig: seq<T>, w: Work)
    requires StrictWeak(lt) && w.MergeRange? && w.lo <= w.hi <= |orig| && w.piece.Splits() && w.piece.Range().Valid()
    requires w.piece.xs <= w.piece.XM() && w.piece.ys <= w.piece.YM()
    requires var p, base, back := w.piece, Base(lt, orig, w.lo, w.hi), w.inplace != 0;
             Merges(back, PieceLeaves(lt, p, base)) ==
               Merges(back, PieceLeaves(lt, Left(p), base)) + Merges(back, PieceLeaves(lt, Right(p), base))
    ensures WorkJobs(lt, orig, w) ==
              WorkJobs(lt, orig, w.(piece := Left(w.piece))) + WorkJobs(lt, orig, w.(piece := Right(w.piece)))
  {
    hide PieceLeaves, Base, Left, Right;
  }

  lemma CompleteEnds(tasks: seq<Task>, i: nat)
    requires i < |tasks| && tasks[i].Task? && tasks[i].parent < |tasks| && tasks[i].parent != i
    requires !tasks[tasks[i].parent].Finished?
    ensures |Complete(tasks, i)| == |tasks| && !Complete(tasks, i)[i].Task?
  {
  }

  lemma SplitStartsNone(tasks: seq<Task>, i: nat)
    requires i < |tasks| && tasks[i].Task? && tasks[i].work.MergeRange? && tasks[i].work.piece.Splits()
    requires var p := tasks[i].work.piece; p.Range().Valid() && p.xs <= p.XM() && p.ys <= p.YM()
    requires tasks[i].parent < |tasks| && tasks[i].parent != i && !tasks[tasks[i].parent].Finished?
    ensures |DivideMerge(tasks, i)| > i && DivideMerge(tasks, i)[i].Task?
    ensures Starts(tasks[i].work, DivideMerge(tasks, i)[i].work) == []
  {
  }

  lemma ActiveRange<T>(lt: (T, T) -> bool, orig: seq<T>, s: State<T>, i: nat)
    requires Invariant(lt, orig, s) && i < |s.tasks| && s.tasks[i].Active()
    ensures s.tasks[i].work.lo <= s.tasks[i].work.hi <= |orig|
  {
    hide Counted, MemoryOK, Compatible;
    assert Fits(s.tasks, i, |orig|);
  }

  lemma SortStarts<T(!new)>(lt: (T, T) -> bool, orig: seq<T>, s: State<T>, i: nat, j: Job)
    requires StrictWeak(lt) && Invariant(lt, orig, s) && CanStep(s, i) && s.tasks[i].work.SortRange?
    ensures var s' := Step(lt, s, i);
            Sum(Due(lt, orig, j), s'.tasks) + multiset(StartedBy(s, s', i))[j] == Sum(Due(lt, orig, j), s.tasks)
  {
    ActiveRange(lt, orig, s, i);
    hide Invariant, SortedRange, Sum, WorkJobs, StrictWeak;
    var s' := Step(lt, s, i);
    var SortRange(lo, hi, inplace) := s.tasks[i].work;
    if hi - lo <= SORT_CUT_OFF {
      SumUpdate(Due(lt, orig, j), s.tasks, i, s'.tasks[i]);
      BaseStarts(lt, orig, lo, hi, inplace, s'.tasks[i].work.done);
    } else {
      DivideDue(lt, orig, s.tasks, i, j);
    }
  }

  lemma BuildStarts<T(!new)>(lt: (T, T) -> bool, orig: seq<T>, s: State<T>, i: nat, j: Job)
    requires StrictWeak(lt) && Invariant(lt, orig, s) && CanStep(s, i) && s.tasks[i].work.Build?
    ensures var s' := Step(lt, s, i);
            Sum(Due(lt, orig, j), s'.tasks) + multiset(StartedBy(s, s', i))[j] == Sum(Due(lt, orig, j), s.tasks)
  {
    hide Invariant, Step, StartedBy, Due, StrictWeak;
    if s.tasks[i].work.done == s.tasks[i].work.hi {
      CompleteStarts(lt, orig, s, i, j);
    } else {
      BuildGoesOn(lt, orig, s, i, j);
    }
  }

  lemma BuildGoesOn<T(!new)>(lt: (T, T) -> bool, orig: seq<T>, s: State<T>, i: nat, j: Job)
    requires StrictWeak(lt) && CanStep(s, i) && s.tasks[i].work.Build? && s.tasks[i].work.done != s.tasks[i].work.hi
    ensures var s' := Step(lt, s, i);
            Sum(Due(lt, orig, j), s'.tasks) + multiset(StartedBy(s, s', i))[j] == Sum(Due(lt, orig, j), s.tasks)
  {
    hide StrictWeak, Sum;
    var s' := Step(lt, s, i);
    SumUpdate(Due(lt, orig, j), s.tasks, i, s'.tasks[i]);
  }

  /** Every step starts a job that its task was due for, or none, and passes the rest on. */
  lemma StepStarts<T(!new)>(lt: (T, T) -> bool, orig: seq<T>, s: State<T>, i: nat, j: Job)
    requires StrictWeak(lt) && Invariant(lt, orig, s) && CanStep(s, i)
    ensures var s' := Step(lt, s, i);
            Sum(Due(lt, orig, j), s'.tasks) + multiset(StartedBy(s, s', i))[j] == Sum(Due(lt, orig, j), s.tasks)
  {
    hide Invariant, Step, StartedBy, Due, StrictWeak, Safe;
    match s.tasks[i].work
    case SortRange(_, _, _) => SortStarts(lt, orig, s, i, j);
    case Build(_, _, _, _) => BuildStarts(lt, orig, s, i, j);
    case MergeRange(_, _, _, _) => MergeStarts(lt, orig, s, i, j);
  }

  // ---------- Runs ----------

  lemma {:induction false} RunStarts<T(!new)>(lt: (T, T) -> bool, orig: seq<T>, schedule: seq<nat>,
                                       states: seq<State<T>>, k: nat, j: Job)
    requires StrictWeak(lt) && IsRun(lt, orig, schedule, states) && k < |states|
    ensures Sum(Due(lt, orig, j), states[k].tasks) + multiset(Started(schedule, states, k))[j]
            == multiset(Plan(lt, orig, 0, 0, 2))[j]
  {
    hide Invariant, Step, CanStep, Due, Plan;
    if k == 0 {
      FirstDue(lt, orig, j);
    } else {
      RunStarts(lt, orig, schedule, states, k - 1, j);
      RunKeepsInvariant(lt, orig, schedule, states, k - 1);
      StepStarts(lt, orig, states[k - 1], schedule[k - 1], j);
    }
  }

  lemma FirstDue<T(!new)>(lt: (T, T) -> bool, orig: seq<T>, j: Job)
    requires StrictWeak(lt)
    ensures Sum(Due(lt, orig, j), Initial(orig).tasks) == multiset(Plan(lt, orig, 0, 0, 2))[j]
  {
    hide Plan;
    var f, tasks := Due(lt, orig, j), Initial(orig).tasks;
    assert [] + [tasks[0]] == [tasks[0]] && [tasks[0]] + [tasks[1]] == tasks && orig[0..|orig|] == orig;
    SumAppend(f, [], tasks[0]);
    SumAppend(f, [tasks[0]], tasks[1]);
  }

  lemma NobodyDue<T(!new)>(lt: (T, T) -> bool, orig: seq<T>, s: State<T>, j: Job)
    requires StrictWeak(lt) && Invariant(lt, orig, s) && Terminated(s)
    ensures Sum(Due(lt, orig, j), s.tasks) == 0
  {
    TerminatedIsSorted(lt, orig, s);
    hide Invariant;
    SumZero(Due(lt, orig, j), s.tasks);
  }

  /** Whatever the order of execution, a complete run sorts exactly the base cases and does
      exactly the serial merges of the sequential recursion, each of them once. */
  lemma EveryRunFollowsPlan<T(!new)>(lt: (T, T) -> bool, orig: seq<T>, schedule: seq<nat>, states: seq<State<T>>)
    requires StrictWeak(lt) && IsRun(lt, orig, schedule, states) && Terminated(states[|schedule|])
    ensures multiset(Started(schedule, states, |schedule|)) == multiset(Plan(lt, orig, 0, 0, 2))
  {
    hide Invariant, Step, CanStep, Due, Plan, Started;
    RunKeepsInvariant(lt, orig, schedule, states, |schedule|);
    forall j ensures multiset(Started(schedule, states, |schedule|))[j] == multiset(Plan(lt, orig, 0, 0, 2))[j] {
      RunStarts(lt, orig, schedule, states, |schedule|, j);
      NobodyDue(lt, orig, states[|schedule|], j);
    }
  }
}
