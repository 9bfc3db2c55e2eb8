/** A measure that every step of the task graph lowers, and the theorem about all runs. */
module TaskTermination {
  import opened Sums
  import opened StableOrder
  import opened Keys
  import opened MergeStep
  import opened MergePlan
  import opened OpenMPSort
  import opened Pieces
  import opened PieceWeights
  import opened TaskGraph
  import opened TaskShape
  import opened TaskMemory
  import opened TaskRun

  /** A bound on the steps left of a sort of n keys that has not started. */
  function SortWeight(n: nat): nat {
    16 * Square(n) + n + 4
  }

  function TaskWeight(t: Task): nat {
    if !t.Task? then 0
    else (match t.work
          case SortRange(lo, hi, _) => SortWeight(Gap(lo, hi))
          case Build(_, hi, _, done) => Gap(done, hi) + 1
          case MergeRange(_, _, _, piece) => PieceWeight(piece))
         + (if t.waiting then 1 else 0)
  }

  function Weight<T>(s: State<T>): nat {
    Sum((t: Task) => TaskWeight(t), s.tasks)
  }

  lemma SortWeightSplits(n: nat)
    requires n > SORT_CUT_OFF
    ensures SortWeight(n / 2) + SortWeight(n - n / 2) + MergeWeight(n) + 1 < SortWeight(n)
  {
    hide Square;
    var h := n / 2;
    SquareOfSum(h, n - h);
    NextSquare(h);
  }

  lemma NextSquare(h: nat)
    ensures h * h == Square(h) && Square(h) >= h
    ensures Square(h + 1) == Square(h) + 2 * h + 1 && h * (h + 1) == Square(h) + h
  {
  }

  lemma ReplaceLowers(tasks: seq<Task>, i: nat, t: Task)
    requires i < |tasks| && TaskWeight(t) < TaskWeight(tasks[i])
    ensures Sum((t: Task) => TaskWeight(t), tasks[i := t]) < Sum((t: Task) => TaskWeight(t), tasks)
  {
    SumUpdate((t: Task) => TaskWeight(t), tasks, i, t);
  }

  lemma DivideSortLowers(tasks: seq<Task>, i: nat)
    requires i < |tasks| && tasks[i].Active() && tasks[i].work.SortRange? && tasks[i].work.lo <= tasks[i].work.hi
    requires tasks[i].work.hi - tasks[i].work.lo > SORT_CUT_OFF
    ensures Sum((t: Task) => TaskWeight(t), DivideSort(tasks, i)) < Sum((t: Task) => TaskWeight(t), tasks)
  {
    hide Square, SortWeight, MergeWeight, Sum;
    var f, tasks', m := (t: Task) => TaskWeight(t), DivideSort(tasks, i), |tasks|;
    var one := tasks[i := tasks'[i]];
    SumUpdate(f, tasks, i, tasks'[i]);
    SumAppend(f, one, tasks'[m]);
    SumAppend(f, one + [tasks'[m]], tasks'[m + 1]);
    assert tasks' == one + [tasks'[m]] + [tasks'[m + 1]];
    SortWeightSplits(tasks[i].work.hi - tasks[i].work.lo);
  }

  lemma DivideMergeLowers(tasks: seq<Task>, i: nat)
    requires i < |tasks| && tasks[i].Active() && tasks[i].work.MergeRange?
    requires var p := tasks[i].work.piece;
             && p.Range().Valid() && p.Splits() && p.Size() > MERGE_CUT_OFF
             && p.xs <= p.XM() <= p.xe && p.ys <= p.YM() <= p.ye
    requires tasks[i].parent < |tasks| && tasks[i].parent != i && !tasks[tasks[i].parent].Finished?
    ensures Sum((t: Task) => TaskWeight(t), DivideMerge(tasks, i)) < Sum((t: Task) => TaskWeight(t), tasks)
  {
    hide PieceWeight, Sum, Left, Right;
    var f, tasks', r, q := (t: Task) => TaskWeight(t), DivideMerge(tasks, i), |tasks|, tasks[i].parent;
    var one := tasks[i := tasks'[i]];
    var two := one[q := tasks'[q]];
    SumUpdate(f, tasks, i, tasks'[i]);
    SumUpdate(f, one, q, tasks'[q]);
    SumAppend(f, two, tasks'[r]);
    assert one[q] == tasks[q] && tasks' == two + [tasks'[r]];
    SplitLowers(tasks[i].work.piece);
  }

  lemma CompleteLowers(tasks: seq<Task>, i: nat)
    requires i < |tasks| && tasks[i].Active() && IsComplete(tasks[i].work)
    requires tasks[i].parent < |tasks| && tasks[i].parent != i
    requires var q := tasks[tasks[i].parent]; q.Root? || (q.Task? && q.waiting)
    ensures Sum((t: Task) => TaskWeight(t), Complete(tasks, i)) < Sum((t: Task) => TaskWeight(t), tasks)
  {
    hide Sum;
    var f, tasks', q := (t: Task) => TaskWeight(t), Complete(tasks, i), tasks[i].parent;
    var one := tasks[i := Finished];
    SumUpdate(f, tasks, i, Finished);
    SumUpdate(f, one, q, tasks'[q]);
    assert one[q] == tasks[q] && tasks' == one[q := tasks'[q]];
  }

  /** Every step brings the end closer. */
  lemma StepLowersWeight<T(!new)>(lt: (T, T) -> bool, orig: seq<T>, s: State<T>, i: nat)
    requires StrictWeak(lt) && Invariant(lt, orig, s) && CanStep(s, i)
    ensures Weight(Step(lt, s, i)) < Weight(s)
  {
    hide Shape, Counted, MemoryOK, Complete, DivideSort, DivideMerge, Advance, SortedRange, Safe, PieceWeight, Sum,
         Square;
    var t, s' := s.tasks[i], Step(lt, s, i);
    ActiveFits(s.tasks, |orig|, i);
    match t.work
    case SortRange(lo, hi, _) =>
      if hi - lo <= SORT_CUT_OFF {
        ReplaceLowers(s.tasks, i, s'.tasks[i]);
      } else {
        DivideSortLowers(s.tasks, i);
      }
    case Build(_, hi, _, done) =>
      if done == hi {
        CompleteLowers(s.tasks, i);
      } else {
        ReplaceLowers(s.tasks, i, s'.tasks[i]);
      }
    case MergeRange(_, _, _, _) => MergeStepLowers(lt, orig, s, i);
  }

  lemma MergeStepLowers<T(!new)>(lt: (T, T) -> bool, orig: seq<T>, s: State<T>, i: nat)
    requires StrictWeak(lt) && Invariant(lt, orig, s) && CanStep(s, i) && s.tasks[i].work.MergeRange?
    ensures Weight(Step(lt, s, i)) < Weight(s)
  {
    hide Shape, Counted, MemoryOK, Complete, DivideMerge, Advance, Safe, PieceWeight, Sum, Square;
    var t, s' := s.tasks[i], Step(lt, s, i);
    ActiveFits(s.tasks, |orig|, i);
    var piece, inplace := t.work.piece, t.work.inplace;
    var src, dst := if inplace != 0 then s.z else s.x, if inplace != 0 then s.x else s.z;
    SafeSplit(piece, src, dst);
    if piece.Done() {
      CompleteLowers(s.tasks, i);
    } else if piece.Splits() {
      MemoryLocal(lt, orig, s, i);
      LocalSplits(lt, orig, t.work, s.x, s.z);
      DivideMergeLowers(s.tasks, i);
    } else {
      AdvanceLowers(lt, piece, src, dst);
      ReplaceLowers(s.tasks, i, s'.tasks[i]);
    }
  }

  lemma MemoryLocal<T>(lt: (T, T) -> bool, orig: seq<T>, s: State<T>, i: nat)
    requires MemoryOK(lt, orig, s) && i < |s.tasks| && s.tasks[i].Active()
    ensures Local(lt, orig, s.tasks[i].work, s.x, s.z)
  {
  }

  // ---------- Runs ----------

  /** The states of a run that executes the tasks chosen by schedule, one step each. */
  ghost predicate IsRun<T>(lt: (T, T) -> bool, orig: seq<T>, schedule: seq<nat>, states: seq<State<T>>) {
    && |states| == |schedule| + 1 && states[0] == Initial(orig)
    && forall k :: 0 <= k < |schedule| ==>
        CanStep(states[k], schedule[k]) && states[k + 1] == Step(lt, states[k], schedule[k])
  }

  lemma {:induction false} RunKeepsInvariant<T(!new)>(lt: (T, T) -> bool, orig: seq<T>, schedule: seq<nat>,
                                                      states: seq<State<T>>, k: nat)
    requires StrictWeak(lt) && IsRun(lt, orig, schedule, states) && k < |states|
    ensures Invariant(lt, orig, states[k]) && k + Weight(states[k]) <= Weight(Initial(orig))
  {
    hide Invariant, Step, CanStep, Initial, Weight;
    if k == 0 {
      InitialInvariant(lt, orig);
    } else {
      RunKeepsInvariant(lt, orig, schedule, states, k - 1);
      StepKeepsInvariant(lt, orig, states[k - 1], schedule[k - 1]);
      StepLowersWeight(lt, orig, states[k - 1], schedule[k - 1]);
    }
  }

  /** A merge that starts finds both its halves completely sorted in the buffer it reads,
      and its output slots constructed. */
  ghost predicate FindsSorted<T>(lt: (T, T) -> bool, orig: seq<T>, s: State<T>, w: Work)
    requires w.MergeRange?
  {
    var src, dst := if w.inplace != 0 then s.z else s.x, if w.inplace != 0 then s.x else s.z;
    w.lo <= w.hi && w.piece == WholeMerge(w.lo, w.hi, w.inplace) ==>
      && w.hi <= |orig| && Holds(src, w.lo, Sort(lt, orig[w.lo..Mid(w.lo, w.hi)]))
      && Holds(src, Mid(w.lo, w.hi), Sort(lt, orig[Mid(w.lo, w.hi)..w.hi])) && AllConstructed(dst, w.lo, w.hi)
  }

  /** Reference counts are exact, and whichever ready task is picked, its next step
      meets all demands on slots and parent; merges start on sorted halves. */
  ghost predicate Sound<T>(lt: (T, T) -> bool, orig: seq<T>, s: State<T>) {
    && Counted(s.tasks)
    && (forall i :: 0 <= i < |s.tasks| && s.tasks[i].Active() ==> CanStep(s, i))
    && (forall i :: 0 <= i < |s.tasks| && s.tasks[i].Active() && s.tasks[i].work.MergeRange? ==>
          FindsSorted(lt, orig, s, s.tasks[i].work) && MergesWell(lt, s, s.tasks[i].work))
  }

  /** A merge divides where it should, in the buffer that it reads. */
  ghost predicate MergesWell<T>(lt: (T, T) -> bool, s: State<T>, w: Work)
    requires w.MergeRange?
  {
    CutWell(lt, w.piece, if w.inplace != 0 then s.z else s.x)
  }

  lemma MergesAreCutWell<T(!new)>(lt: (T, T) -> bool, orig: seq<T>, s: State<T>, i: nat)
    requires StrictWeak(lt) && Invariant(lt, orig, s)
    requires i < |s.tasks| && s.tasks[i].Active() && s.tasks[i].work.MergeRange?
    ensures MergesWell(lt, s, s.tasks[i].work)
  {
    hide Shape, Counted, Covered, OnTrack, Base, Out, CutWell;
    MemoryLocal(lt, orig, s, i);
    var w := s.tasks[i].work;
    if w.inplace != 0 {
      OnTrackIsCutWell(lt, w.piece, s.z, s.x, Base(lt, orig, w.lo, w.hi), Out(lt, orig, w.lo, w.hi));
    } else {
      OnTrackIsCutWell(lt, w.piece, s.x, s.z, Base(lt, orig, w.lo, w.hi), Out(lt, orig, w.lo, w.hi));
    }
  }

  /** The main theorem. For every strict weak order, every input and every order of
      execution: every state is sound, the run is shorter than a bound that depends on
      the input's length alone, it cannot get stuck before the wait is over, and when it
      is over the keys are in place, stably sorted, and every slot of the buffer has been
      destroyed. */
  lemma EveryRunSorts<T(!new)>(lt: (T, T) -> bool, orig: seq<T>, schedule: seq<nat>, states: seq<State<T>>)
    requires StrictWeak(lt) && IsRun(lt, orig, schedule, states)
    ensures |schedule| <= SortWeight(|orig|)
    ensures forall k :: 0 <= k < |states| ==> Sound(lt, orig, states[k])
    ensures var end := states[|schedule|];
            if Terminated(end) then
              && AllLive(end.x, 0, |orig|) && AllAre(end.z, 0, |orig|, Raw)
              && IsStableSort(lt, orig, KeysIn(end.x, 0, |orig|))
            else exists i :: CanStep(end, i)
  {
    hide Invariant, Step, IsStableSort, Sound, CanStep;
    var end := states[|schedule|];
    forall k | 0 <= k < |states| ensures Sound(lt, orig, states[k]) {
      RunKeepsInvariant(lt, orig, schedule, states, k);
      InvariantSound(lt, orig, states[k]);
    }
    RunKeepsInvariant(lt, orig, schedule, states, |schedule|);
    InitialWeight(orig);
    if Terminated(end) {
      TerminatedIsSorted(lt, orig, end);
      LiveKeys(end.x, 0, Sort(lt, orig));
      SortStable(lt, orig);
    } else {
      var i := NeverStuck(lt, orig, end);
    }
  }

  /** Any task that can step may be the next one of a run. */
  lemma RunGoesOn<T>(lt: (T, T) -> bool, orig: seq<T>, schedule: seq<nat>, states: seq<State<T>>, i: nat)
    requires IsRun(lt, orig, schedule, states) && CanStep(states[|schedule|], i)
    ensures IsRun(lt, orig, schedule + [i], states + [Step(lt, states[|schedule|], i)])
  {
    hide Step, CanStep, Initial;
  }

  /** Every run can go on until the wait is over. */
  lemma {:induction false} EveryRunCanEnd<T(!new)>(lt: (T, T) -> bool, orig: seq<T>, schedule: seq<nat>,
                                                   states: seq<State<T>>)
    returns (schedule': seq<nat>, states': seq<State<T>>)
    requires StrictWeak(lt) && IsRun(lt, orig, schedule, states)
    ensures schedule <= schedule' && states <= states' && IsRun(lt, orig, schedule', states')
    ensures Terminated(states'[|schedule'|])
    decreases SortWeight(|orig|) - |schedule|
  {
    hide StrictWeak, Sound, Step, CanStep, SortWeight, Terminated, IsStableSort;
    EveryRunSorts(lt, orig, schedule, states);
    if Terminated(states[|schedule|]) {
      return schedule, states;
    }
    var i :| CanStep(states[|schedule|], i);
    RunGoesOn(lt, orig, schedule, states, i);
    schedule', states' := EveryRunCanEnd(lt, orig, schedule + [i], states + [Step(lt, states[|schedule|], i)]);
  }

  lemma InvariantSound<T(!new)>(lt: (T, T) -> bool, orig: seq<T>, s: State<T>)
    requires StrictWeak(lt) && Invariant(lt, orig, s)
    ensures Sound(lt, orig, s)
  {
    assert Counted(s.tasks);
    hide Invariant, CanStep, Counted, FindsSorted, MergesWell, StrictWeak;
    forall i | 0 <= i < |s.tasks| && s.tasks[i].Active() ensures CanStep(s, i) {
      ReadyTasksAreSafe(lt, orig, s, i);
    }
    forall i | 0 <= i < |s.tasks| && s.tasks[i].Active() && s.tasks[i].work.MergeRange?
      ensures FindsSorted(lt, orig, s, s.tasks[i].work) && MergesWell(lt, s, s.tasks[i].work)
    {
      MergesAreCutWell(lt, orig, s, i);
      MergeStartsOnSortedHalves(lt, orig, s, i);
    }
  }

  lemma InitialWeight<T>(orig: seq<T>)
    ensures Weight(Initial(orig)) == SortWeight(|orig|)
  {
    var f, tasks := (t: Task) => TaskWeight(t), Initial(orig).tasks;
    SumAppend(f, [], tasks[0]);
    SumAppend(f, [tasks[0]], tasks[1]);
    assert [] + [tasks[0]] == [tasks[0]] && [tasks[0]] + [tasks[1]] == tasks;
  }

  lemma MergeStartsOnSortedHalves<T>(lt: (T, T) -> bool, orig: seq<T>, s: State<T>, i: nat)
    requires Invariant(lt, orig, s) && i < |s.tasks| && s.tasks[i].Active() && s.tasks[i].work.MergeRange?
    ensures FindsSorted(lt, orig, s, s.tasks[i].work)
  {
    hide Shape, Counted, Covered, Sort, Merge, Sorted, Merging, Base, Out, Holds, AllConstructed;
    var w := s.tasks[i].work;
    MemoryLocal(lt, orig, s, i);
    if w.lo <= w.hi && w.piece == WholeMerge(w.lo, w.hi, w.inplace) {
      BaseHalves(lt, orig, w.lo, w.hi);
      if w.inplace != 0 {
        FreshFinds(lt, w.piece, s.z, s.x, Base(lt, orig, w.lo, w.hi), Out(lt, orig, w.lo, w.hi));
      } else {
        FreshFinds(lt, w.piece, s.x, s.z, Base(lt, orig, w.lo, w.hi), Out(lt, orig, w.lo, w.hi));
      }
    }
  }

  lemma FreshFinds<T>(lt: (T, T) -> bool, p: Piece, src: seq<Slot<T>>, dst: seq<Slot<T>>, base: seq<T>, out: seq<T>)
    requires p.phase.Fresh? && OnTrack(lt, p, src, dst, base, out)
    ensures p.Range().Valid() && p.xe <= |base| && p.ye <= |base|
    ensures Holds(src, p.xs, base[p.xs..p.xe]) && Holds(src, p.ys, base[p.ys..p.ye])
    ensures AllConstructed(dst, p.zs, p.Range().End())
  {
    hide Merge, Sorted, Rest;
  }

  lemma BaseHalves<T>(lt: (T, T) -> bool, orig: seq<T>, lo: nat, hi: nat)
    requires lo <= hi <= |orig|
    ensures Base(lt, orig, lo, hi)[lo..Mid(lo, hi)] == Sort(lt, orig[lo..Mid(lo, hi)])
    ensures Base(lt, orig, lo, hi)[Mid(lo, hi)..hi] == Sort(lt, orig[Mid(lo, hi)..hi])
  {
    hide Sort;
  }
}
