/** Every run of the task graph, whatever the order of execution, is safe, stops,
    and leaves the stable sort. */
module TaskRun {
  import opened Sums
  import opened StableOrder
  import opened Keys
  import opened MergeStep
  import opened PssCommon
  import opened OpenMPSort
  import opened Pieces
  import opened TaskGraph
  import opened TaskShape
  import opened TaskMemory

  // ---------- Single steps on a task's own slots ----------

  lemma AdvanceLocal<T(!new)>(lt: (T, T) -> bool, orig: seq<T>, w: Work, src: seq<Slot<T>>, dst: seq<Slot<T>>)
    requires StrictWeak(lt) && w.MergeRange? && w.lo <= w.hi <= |orig|
    requires OnTrack(lt, w.piece, src, dst, Base(lt, orig, w.lo, w.hi), Out(lt, orig, w.lo, w.hi))
    requires Safe(w.piece, src, dst) && !w.piece.Done() && !w.piece.Splits()
    ensures var (piece', src', dst') := Advance(lt, w.piece, src, dst);
            && OnTrack(lt, piece', src', dst', Base(lt, orig, w.lo, w.hi), Out(lt, orig, w.lo, w.hi))
            && piece' == w.piece.(phase := piece'.phase) && OnlyOwn(w.piece, src, src', dst, dst')
  {
    hide OnTrack, Base, Out;
    AdvanceKeeps(lt, w.piece, src, dst, Base(lt, orig, w.lo, w.hi), Out(lt, orig, w.lo, w.hi));
    AdvanceOnlyOwn(lt, w.piece, src, dst);
  }

  lemma MergeStepKeeps<T(!new)>(lt: (T, T) -> bool, orig: seq<T>, s: State<T>, i: nat)
    requires StrictWeak(lt) && Invariant(lt, orig, s) && CanStep(s, i) && s.tasks[i].work.MergeRange?
    requires !s.tasks[i].work.piece.Done() && !s.tasks[i].work.piece.Splits()
    ensures Invariant(lt, orig, Step(lt, s, i))
  {
    hide Shape, Counted, Covered, OnTrack, Base, Out, Safe, Advance;
    var s', w := Step(lt, s, i), s.tasks[i].work;
    assert Local(lt, orig, w, s.x, s.z);
    if w.inplace != 0 {
      AdvanceLocal(lt, orig, w, s.z, s.x);
    } else {
      AdvanceLocal(lt, orig, w, s.x, s.z);
    }
    OwnWorkKeepsInvariant(lt, orig, s, s', i, s'.tasks[i].work);
  }

  lemma SortStepKeeps<T>(lt: (T, T) -> bool, orig: seq<T>, s: State<T>, i: nat)
    requires Invariant(lt, orig, s) && CanStep(s, i) && s.tasks[i].work.SortRange?
    requires s.tasks[i].work.hi - s.tasks[i].work.lo <= SORT_CUT_OFF
    ensures Invariant(lt, orig, Step(lt, s, i))
  {
    hide Shape, Counted, Covered, Local, OwnWork;
    var s' := Step(lt, s, i);
    assert Local(lt, orig, s.tasks[i].work, s.x, s.z);
    assert Fits(s.tasks, i, |orig|) by { ShapeFits(s.tasks, |orig|, i); }
    SortStepLocal(lt, orig, s, i);
    OwnWorkKeepsInvariant(lt, orig, s, s', i, s'.tasks[i].work);
  }

  lemma SortStepLocal<T>(lt: (T, T) -> bool, orig: seq<T>, s: State<T>, i: nat)
    requires CanStep(s, i) && s.tasks[i].work.SortRange?
    requires s.tasks[i].work.hi - s.tasks[i].work.lo <= SORT_CUT_OFF
    requires Fits(s.tasks, i, |orig|) && Local(lt, orig, s.tasks[i].work, s.x, s.z)
    ensures var s' := Step(lt, s, i);
            && OwnWork(s, s', i, s'.tasks[i].work) && Local(lt, orig, s'.tasks[i].work, s'.x, s'.z)
  {
    hide Sort;
    var SortRange(lo, hi, inplace) := s.tasks[i].work;
    assert seq(hi - lo, i requires 0 <= i < hi - lo => s.x[lo + i].key) == orig[lo..hi];
  }

  lemma ShapeFits(tasks: seq<Task>, n: nat, i: nat)
    requires Shape(tasks, n) && i < |tasks|
    ensures Fits(tasks, i, n)
  {
  }

  lemma BuildStepKeeps<T>(lt: (T, T) -> bool, orig: seq<T>, s: State<T>, i: nat)
    requires Invariant(lt, orig, s) && CanStep(s, i) && s.tasks[i].work.Build?
    requires s.tasks[i].work.done < s.tasks[i].work.hi
    ensures Invariant(lt, orig, Step(lt, s, i))
  {
    hide Shape, Counted, Covered, Local, OwnWork;
    var s' := Step(lt, s, i);
    assert Local(lt, orig, s.tasks[i].work, s.x, s.z);
    assert Fits(s.tasks, i, |orig|) by { ShapeFits(s.tasks, |orig|, i); }
    BuildStepLocal(lt, orig, s, i);
    OwnWorkKeepsInvariant(lt, orig, s, s', i, s'.tasks[i].work);
  }

  lemma BuildStepLocal<T>(lt: (T, T) -> bool, orig: seq<T>, s: State<T>, i: nat)
    requires CanStep(s, i) && s.tasks[i].work.Build? && s.tasks[i].work.done < s.tasks[i].work.hi
    requires Fits(s.tasks, i, |orig|) && Local(lt, orig, s.tasks[i].work, s.x, s.z)
    ensures var s' := Step(lt, s, i);
            && OwnWork(s, s', i, s'.tasks[i].work) && Local(lt, orig, s'.tasks[i].work, s'.x, s'.z)
  {
    hide Sort;
  }

  // ---------- Completion ----------

  predicate IsComplete(w: Work) {
    (w.Build? && w.done == w.hi) || (w.MergeRange? && w.piece.Done())
  }

  /** A task that has completed leaves its slots as the merge above expects them. */
  lemma CompleteIsDone<T>(lt: (T, T) -> bool, orig: seq<T>, tasks: seq<Task>, i: nat, x: seq<Slot<T>>,
                          z: seq<Slot<T>>, k: int)
    requires i < |tasks| && tasks[i].Task? && Fits(tasks, i, |orig|)
    requires Local(lt, orig, tasks[i].work, x, z) && IsComplete(tasks[i].work)
    ensures var w := tasks[i].work; ClaimsX(w, k) ==>
            w.lo <= k < w.hi && x[k] == DoneX(lt, orig, w.lo, w.hi, w.inplace, k)
    ensures var w := tasks[i].work; ClaimsZ(w, k) ==>
            w.lo <= k < w.hi && z[k] == DoneZ(lt, orig, w.lo, w.hi, w.inplace, k)
  {
    hide Sort, OnTrack;
    var w := tasks[i].work;
    if w.MergeRange? {
      if w.inplace != 0 {
        DoneIsMerged(lt, w.piece, z, x, Base(lt, orig, w.lo, w.hi), Out(lt, orig, w.lo, w.hi));
      } else {
        DoneIsMerged(lt, w.piece, x, z, Base(lt, orig, w.lo, w.hi), Out(lt, orig, w.lo, w.hi));
      }
    }
  }

  /** Whoever awaits more than what task i was for still finds i's slots claimed, by
      i's parent. */
  lemma ParentTakesOver(tasks: seq<Task>, n: nat, i: nat, lo: nat, hi: nat, inplace: int)
    requires Shape(tasks, n) && i < |tasks| && tasks[i].Active() && tasks[i].work.lo < tasks[i].work.hi
    requires Awaited(tasks, n, lo, hi, inplace) && Within(tasks[i].work, lo, hi)
    ensures var w, q := tasks[i].work, tasks[i].parent;
            || (w.lo == lo && w.hi == hi && w.inplace == inplace)
            || (0 < q < |tasks| && tasks[q].Task? && Within(tasks[q].work, lo, hi)
                && forall k :: w.lo <= k < w.hi ==> ClaimsX(tasks[q].work, k) && ClaimsZ(tasks[q].work, k))
  {
    hide Compatible, InRange, IsHalf, Fits;
    var q := tasks[i].parent;
    if q != 0 {
      ParentCovers(tasks, n, i);
      if !(lo == 0 && hi == n && inplace == 2) {
        var v :| 0 <= v < |tasks| && AwaitedBy(tasks[v], lo, hi, inplace);
        ParentWithin(tasks, n, i, v, lo, hi, inplace);
      } else {
        WholeCovers(tasks, n, q);
      }
    } else if !(lo == 0 && hi == n && inplace == 2) {
      var v :| 0 <= v < |tasks| && AwaitedBy(tasks[v], lo, hi, inplace);
      ShapeFits(tasks, n, i);
      ShapeFits(tasks, n, v);
      HalfIsProper(tasks, n, v, lo, hi, inplace);
      RootsChildIsWhole(tasks, n, i);
    } else {
      RootsChildIsWhole(tasks, n, i);
    }
  }

  lemma RootsChildIsWhole(tasks: seq<Task>, n: nat, i: nat)
    requires Shape(tasks, n) && i < |tasks| && tasks[i].Task? && tasks[i].parent == 0
    ensures tasks[i].work.lo == 0 && tasks[i].work.hi == n && tasks[i].work.inplace == 2
  {
    hide Compatible;
    assert Fits(tasks, i, n);
  }

  lemma WholeCovers(tasks: seq<Task>, n: nat, q: nat)
    requires Shape(tasks, n) && q < |tasks| && tasks[q].Task?
    ensures Within(tasks[q].work, 0, n)
  {
    hide Compatible;
    assert Fits(tasks, q, n);
  }

  /** A parent other than the root is a continuation that has its child's slots among
      its own. */
  lemma ParentCovers(tasks: seq<Task>, n: nat, i: nat)
    requires Shape(tasks, n) && i < |tasks| && tasks[i].Task? && tasks[i].parent != 0
    ensures 0 < tasks[i].parent < |tasks| && tasks[tasks[i].parent].Task?
    ensures var w, p := tasks[i].work, tasks[tasks[i].parent].work;
            forall k :: w.lo <= k < w.hi ==> ClaimsX(p, k) && ClaimsZ(p, k)
  {
    hide Compatible;
    assert Fits(tasks, i, n);
    assert Fits(tasks, tasks[i].parent, n);
  }

  /** Below a continuation, a task's parent is that continuation or below it, too. */
  lemma ParentWithin(tasks: seq<Task>, n: nat, i: nat, v: nat, lo: nat, hi: nat, inplace: int)
    requires Shape(tasks, n) && i < |tasks| && tasks[i].Active() && tasks[i].work.lo < tasks[i].work.hi
    requires tasks[i].parent != 0
    requires v < |tasks| && AwaitedBy(tasks[v], lo, hi, inplace) && Within(tasks[i].work, lo, hi)
    ensures var w, q := tasks[i].work, tasks[i].parent;
            || (w.lo == lo && w.hi == hi && w.inplace == inplace)
            || (q < |tasks| && tasks[q].Task? && Within(tasks[q].work, lo, hi))
  {
    hide Compatible, InRange;
    var q := tasks[i].parent;
    assert Fits(tasks, i, n) && Fits(tasks, v, n);
    assert Fits(tasks, q, n);
    if q != v {
      ParentBelow(tasks, n, v, i);
    }
  }

  lemma HalfIsProper(tasks: seq<Task>, n: nat, v: nat, lo: nat, hi: nat, inplace: int)
    requires v < |tasks| && Fits(tasks, v, n) && AwaitedBy(tasks[v], lo, hi, inplace)
    ensures hi - lo < n
  {
  }

  lemma CompleteCovers<T>(lt: (T, T) -> bool, orig: seq<T>, s: State<T>, i: nat, lo: nat, hi: nat, inplace: int)
    requires Invariant(lt, orig, s) && CanStep(s, i) && IsComplete(s.tasks[i].work)
    requires Awaited(s.tasks, |orig|, lo, hi, inplace)
    ensures Covered(lt, orig, s.(tasks := Complete(s.tasks, i)), lo, hi, inplace)
  {
    hide Shape, Counted, Sort, Local, ClaimsX, ClaimsZ, Awaited, DoneX, DoneZ;
    var tasks, tasks', w := s.tasks, Complete(s.tasks, i), s.tasks[i].work;
    assert Covered(lt, orig, s, lo, hi, inplace);
    assert Local(lt, orig, w, s.x, s.z);
    ShapeFits(tasks, |orig|, i);
    if Within(w, lo, hi) && w.lo < w.hi {
      ParentTakesOver(tasks, |orig|, i, lo, hi, inplace);
    }
    forall k | lo <= k < hi
      ensures ClaimedX(tasks, lo, hi, k) ==>
              ClaimedX(tasks', lo, hi, k) || s.x[k] == DoneX(lt, orig, lo, hi, inplace, k)
      ensures ClaimedZ(tasks, lo, hi, k) ==>
              ClaimedZ(tasks', lo, hi, k) || s.z[k] == DoneZ(lt, orig, lo, hi, inplace, k)
    {
      CompleteIsDone(lt, orig, tasks, i, s.x, s.z, k);
      ClaimsPassOn(tasks, i, lo, hi, k);
    }
  }

  /** Claims on slot k outlive task i, unless only i itself claimed it. */
  lemma ClaimsPassOn(tasks: seq<Task>, i: nat, lo: nat, hi: nat, k: int)
    requires i < |tasks| && tasks[i].Task? && tasks[i].parent < |tasks| && tasks[i].parent != i
    requires !tasks[tasks[i].parent].Finished?
    ensures ClaimedX(tasks, lo, hi, k) ==>
              ClaimedX(Complete(tasks, i), lo, hi, k) || (Within(tasks[i].work, lo, hi) && ClaimsX(tasks[i].work, k))
    ensures ClaimedZ(tasks, lo, hi, k) ==>
              ClaimedZ(Complete(tasks, i), lo, hi, k) || (Within(tasks[i].work, lo, hi) && ClaimsZ(tasks[i].work, k))
    ensures var q := tasks[tasks[i].parent];
            q.Task? && Within(q.work, lo, hi) && ClaimsX(q.work, k) ==> ClaimedX(Complete(tasks, i), lo, hi, k)
    ensures var q := tasks[tasks[i].parent];
            q.Task? && Within(q.work, lo, hi) && ClaimsZ(q.work, k) ==> ClaimedZ(Complete(tasks, i), lo, hi, k)
  {
    hide ClaimsX, ClaimsZ;
    var tasks' := Complete(tasks, i);
    if ClaimedX(tasks, lo, hi, k) {
      var j :| 0 <= j < |tasks| && tasks[j].Task? && Within(tasks[j].work, lo, hi) && ClaimsX(tasks[j].work, k);
      assert j != i ==> tasks'[j].Task? && tasks'[j].work == tasks[j].work;
    }
    if ClaimedZ(tasks, lo, hi, k) {
      var j :| 0 <= j < |tasks| && tasks[j].Task? && Within(tasks[j].work, lo, hi) && ClaimsZ(tasks[j].work, k);
      assert j != i ==> tasks'[j].Task? && tasks'[j].work == tasks[j].work;
    }
    var q := tasks[i].parent;
    assert tasks[q].Task? ==> tasks'[q].Task? && tasks'[q].work == tasks[q].work;
  }

  // ---------- Starting a continuation ----------

  /** Once no task is left in its halves, a continuation finds both sorted, in the
      buffer it reads, and the other buffer ready to be assigned to. */
  lemma HalvesReady<T(!new)>(lt: (T, T) -> bool, orig: seq<T>, w: Work, x: seq<Slot<T>>, z: seq<Slot<T>>)
    requires StrictWeak(lt) && w.MergeRange? && w.lo <= w.hi <= |orig| && |x| == |z| == |orig| && 0 <= w.inplace <= 2
    requires w.piece == WholeMerge(w.lo, w.hi, w.inplace)
    requires forall k :: w.lo <= k < Mid(w.lo, w.hi) ==>
      && x[k] == DoneX(lt, orig, w.lo, Mid(w.lo, w.hi), Not(w.inplace), k)
      && z[k] == DoneZ(lt, orig, w.lo, Mid(w.lo, w.hi), Not(w.inplace), k)
    requires forall k :: Mid(w.lo, w.hi) <= k < w.hi ==>
      && x[k] == DoneX(lt, orig, Mid(w.lo, w.hi), w.hi, Not(w.inplace), k)
      && z[k] == DoneZ(lt, orig, Mid(w.lo, w.hi), w.hi, Not(w.inplace), k)
    ensures Local(lt, orig, w, x, z)
  {
    hide Sort, Merge, Sorted, Merging;
    var lo, hi, mid := w.lo, w.hi, Mid(w.lo, w.hi);
    var a, b := Sort(lt, orig[lo..mid]), Sort(lt, orig[mid..hi]);
    BaseParts(lt, orig, lo, hi);
    if w.inplace != 0 {
      FreshMerging(lt, w.piece, z, x, a, b);
    } else {
      FreshMerging(lt, w.piece, x, z, a, b);
    }
  }

  /** A merge of the sorted halves is assigned the sort of the whole. */
  lemma BaseParts<T(!new)>(lt: (T, T) -> bool, orig: seq<T>, lo: nat, hi: nat)
    requires StrictWeak(lt) && lo <= hi <= |orig|
    ensures var base, mid := Base(lt, orig, lo, hi), Mid(lo, hi);
            && base[lo..mid] == Sort(lt, orig[lo..mid]) && base[mid..hi] == Sort(lt, orig[mid..hi])
            && Sorted(lt, base[lo..mid]) && Sorted(lt, base[mid..hi])
            && Merge(lt, base[lo..mid], base[mid..hi]) == Out(lt, orig, lo, hi)[lo..hi]
  {
    hide Sort, Merge, Sorted;
    var mid := Mid(lo, hi);
    SortStable(lt, orig[lo..mid]);
    SortStable(lt, orig[mid..hi]);
    SortByHalves(lt, orig[lo..mid], orig[mid..hi]);
    assert orig[lo..mid] + orig[mid..hi] == orig[lo..hi];
    assert Out(lt, orig, lo, hi)[lo..hi] == Sort(lt, orig[lo..hi]);
    assert Base(lt, orig, lo, hi)[lo..mid] == Sort(lt, orig[lo..mid]);
    assert Base(lt, orig, lo, hi)[mid..hi] == Sort(lt, orig[mid..hi]);
  }

  /** Nothing works inside a range that an active merge covers as a whole. */
  lemma NobodyWithin(tasks: seq<Task>, n: nat, q: nat, lo: nat, hi: nat, k: int)
    requires Shape(tasks, n) && q < |tasks| && tasks[q].Active() && tasks[q].work.lo < tasks[q].work.hi
    requires tasks[q].work.lo <= lo <= hi <= tasks[q].work.hi && hi - lo < tasks[q].work.hi - tasks[q].work.lo
    ensures !ClaimedX(tasks, lo, hi, k) && !ClaimedZ(tasks, lo, hi, k)
  {
    hide InRange, WholeMerge, IsHalf, ClaimsX, ClaimsZ;
    forall j | 0 <= j < |tasks| && tasks[j].Task? ensures !Within(tasks[j].work, lo, hi) {
      assert Fits(tasks, j, n) && Fits(tasks, q, n) && (j != q ==> Compatible(tasks[j], tasks[q]));
    }
  }

  lemma ReleasedLocal<T(!new)>(lt: (T, T) -> bool, orig: seq<T>, s: State<T>, i: nat)
    requires StrictWeak(lt) && Invariant(lt, orig, s) && CanStep(s, i) && IsComplete(s.tasks[i].work)
    requires var q := s.tasks[i].parent; s.tasks[q].Task? && s.tasks[q].waiting && Complete(s.tasks, i)[q].Active()
    requires Shape(Complete(s.tasks, i), |orig|)
    ensures Local(lt, orig, s.tasks[s.tasks[i].parent].work, s.x, s.z)
  {
    hide Shape, Counted, Local, Sort, ClaimedX, ClaimedZ, DoneX, DoneZ;
    var q, tasks' := s.tasks[i].parent, Complete(s.tasks, i);
    var w := s.tasks[q].work;
    ShapeFits(s.tasks, |orig|, q);
    var mid := Mid(w.lo, w.hi);
    assert AwaitedBy(s.tasks[q], w.lo, mid, Not(w.inplace)) && AwaitedBy(s.tasks[q], mid, w.hi, Not(w.inplace));
    CompleteCovers(lt, orig, s, i, w.lo, mid, Not(w.inplace));
    CompleteCovers(lt, orig, s, i, mid, w.hi, Not(w.inplace));
    forall k: int ensures !ClaimedX(tasks', w.lo, mid, k) && !ClaimedZ(tasks', w.lo, mid, k)
                  ensures !ClaimedX(tasks', mid, w.hi, k) && !ClaimedZ(tasks', mid, w.hi, k) {
      NobodyWithin(tasks', |orig|, q, w.lo, mid, k);
      NobodyWithin(tasks', |orig|, q, mid, w.hi, k);
    }
    HalvesReady(lt, orig, w, s.x, s.z);
  }

  lemma CompleteKeepsInvariant<T(!new)>(lt: (T, T) -> bool, orig: seq<T>, s: State<T>, i: nat)
    requires StrictWeak(lt) && Invariant(lt, orig, s) && CanStep(s, i) && IsComplete(s.tasks[i].work)
    ensures Invariant(lt, orig, s.(tasks := Complete(s.tasks, i)))
  {
    hide Shape, Counted, Local, Covered;
    var tasks, tasks', q := s.tasks, Complete(s.tasks, i), s.tasks[i].parent;
    ActiveFits(tasks, |orig|, i);
    CompleteKeepsShape(tasks, |orig|, i);
    CompleteKeepsCounts(tasks, i);
    forall j | 0 <= j < |tasks'| && tasks'[j].Active() ensures Local(lt, orig, tasks'[j].work, s.x, s.z) {
      if j == q {
        ReleasedLocal(lt, orig, s, i);
      } else {
        assert tasks'[j] == tasks[j];
      }
    }
    forall lo: nat, hi: nat, inplace: int | Awaited(tasks', |orig|, lo, hi, inplace)
      ensures Covered(lt, orig, s.(tasks := tasks'), lo, hi, inplace)
    {
      assert Awaited(tasks, |orig|, lo, hi, inplace) by {
        if !(lo == 0 && hi == |orig| && inplace == 2) {
          var v :| 0 <= v < |tasks'| && AwaitedBy(tasks'[v], lo, hi, inplace);
          assert AwaitedBy(tasks[v], lo, hi, inplace);
        }
      }
      CompleteCovers(lt, orig, s, i, lo, hi, inplace);
    }
  }

  // ---------- All steps ----------

  /** Every task that is ready may take its next step: its slots are in the state
      the step demands (nothing raw is assigned to or destroyed, nothing constructed
      is constructed again, nothing but live keys is compared), whatever the other
      tasks are in the middle of. */
  lemma ReadyTasksAreSafe<T>(lt: (T, T) -> bool, orig: seq<T>, s: State<T>, i: nat)
    requires Invariant(lt, orig, s) && i < |s.tasks| && s.tasks[i].Active()
    ensures CanStep(s, i)
  {
    hide Shape, Counted, Covered, Sort, OnTrack, Base, Out, Safe;
    ActiveFits(s.tasks, |orig|, i);
    var w := s.tasks[i].work;
    assert Local(lt, orig, w, s.x, s.z);
    if w.MergeRange? {
      if w.inplace != 0 {
        OnTrackIsSafe(lt, w.piece, s.z, s.x, Base(lt, orig, w.lo, w.hi), Out(lt, orig, w.lo, w.hi));
        SafeSplit(w.piece, s.z, s.x);
      } else {
        OnTrackIsSafe(lt, w.piece, s.x, s.z, Base(lt, orig, w.lo, w.hi), Out(lt, orig, w.lo, w.hi));
        SafeSplit(w.piece, s.x, s.z);
      }
    }
  }

  lemma SafeSplit<T>(p: Piece, src: seq<Slot<T>>, dst: seq<Slot<T>>)
    requires Safe(p, src, dst)
    ensures p.Range().Valid() && (p.Splits() ==> p.xs <= p.XM() && p.ys <= p.YM())
  {
  }

  /** Every step of every task keeps the invariant. */
  lemma StepKeepsInvariant<T(!new)>(lt: (T, T) -> bool, orig: seq<T>, s: State<T>, i: nat)
    requires StrictWeak(lt) && Invariant(lt, orig, s) && CanStep(s, i)
    ensures Invariant(lt, orig, Step(lt, s, i))
  {
    hide Invariant, Complete, DivideSort, DivideMerge, Advance, SortedRange, Safe;
    match s.tasks[i].work
    case SortRange(lo, hi, _) =>
      if hi - lo <= SORT_CUT_OFF {
        SortStepKeeps(lt, orig, s, i);
      } else {
        DivideSortKeepsInvariant(lt, orig, s, i);
      }
    case Build(_, hi, _, done) =>
      if done == hi {
        CompleteKeepsInvariant(lt, orig, s, i);
      } else {
        BuildStepKeeps(lt, orig, s, i);
      }
    case MergeRange(_, _, inplace, piece) =>
      assert piece.Range().Valid() by {
        if inplace != 0 {
          SafeSplit(piece, s.z, s.x);
        } else {
          SafeSplit(piece, s.x, s.z);
        }
      }
      if piece.Done() {
        CompleteKeepsInvariant(lt, orig, s, i);
      } else if piece.Splits() {
        DivideMergeKeepsInvariant(lt, orig, s, i);
      } else {
        MergeStepKeeps(lt, orig, s, i);
      }
  }

  lemma InitialInvariant<T>(lt: (T, T) -> bool, orig: seq<T>)
    ensures Invariant(lt, orig, Initial(orig))
  {
    InitialCounts(orig);
    InitialMemory(lt, orig);
    InitialShape(orig);
  }

  lemma InitialShape<T>(orig: seq<T>)
    ensures Shape(Initial(orig).tasks, |orig|)
  {
  }

  lemma InitialCounts<T>(orig: seq<T>)
    ensures Counted(Initial(orig).tasks)
  {
    var tasks := Initial(orig).tasks;
    forall p | 0 <= p < 2 ensures Sum(ChildOf(p), tasks) == if p == 0 then 1 else 0 {
      SumAppend(ChildOf(p), [], Root(2));
      SumAppend(ChildOf(p), [Root(2)], tasks[1]);
      assert [] + [Root(2)] == [Root(2)] && [Root(2)] + [tasks[1]] == tasks;
    }
  }

  lemma InitialMemory<T>(lt: (T, T) -> bool, orig: seq<T>)
    ensures MemoryOK(lt, orig, Initial(orig))
  {
    hide Sort;
    var s := Initial(orig);
    forall k | 0 <= k < |orig| ensures ClaimedX(s.tasks, 0, |orig|, k) && ClaimedZ(s.tasks, 0, |orig|, k) {
      var t := s.tasks[1];
      assert t.Task? && Within(t.work, 0, |orig|) && ClaimsX(t.work, k) && ClaimsZ(t.work, k);
    }
    forall lo: nat, hi: nat, inplace: int | Awaited(s.tasks, |orig|, lo, hi, inplace) ensures lo == 0 && hi == |orig| {
      assert forall w :: 0 <= w < |s.tasks| ==> !AwaitedBy(s.tasks[w], lo, hi, inplace);
    }
  }

  /** When the wait is over, x holds the stable sort and the buffer is raw again. */
  lemma TerminatedIsSorted<T>(lt: (T, T) -> bool, orig: seq<T>, s: State<T>)
    requires Invariant(lt, orig, s) && Terminated(s)
    ensures Landed(2, s.x, 0, s.z, 0, Sort(lt, orig))
    ensures forall i :: 0 < i < |s.tasks| ==> s.tasks[i].Finished?
  {
    hide Sort;
    assert CountIs(s.tasks[0], Sum(ChildOf(0), s.tasks));
    forall i | 0 < i < |s.tasks| ensures s.tasks[i].Finished? {
      if s.tasks[i].Task? {
        RootHasChild(s.tasks, |orig|, i);
      }
    }
    assert Awaited(s.tasks, |orig|, 0, |orig|, 2);
    assert orig[0..|orig|] == orig;
    forall k | 0 <= k < |orig| ensures s.x[k] == Live(Sort(lt, orig)[k]) && s.z[k] == Raw {
    }
  }

  /** Until then some task is ready. */
  lemma NeverStuck<T>(lt: (T, T) -> bool, orig: seq<T>, s: State<T>) returns (i: nat)
    requires Invariant(lt, orig, s) && !Terminated(s)
    ensures CanStep(s, i)
  {
    assert CountIs(s.tasks[0], Sum(ChildOf(0), s.tasks));
    var c := SumPositive(ChildOf(0), s.tasks);
    i := SomeActive(s.tasks, |orig|, c);
    ReadyTasksAreSafe(lt, orig, s, i);
  }
}
