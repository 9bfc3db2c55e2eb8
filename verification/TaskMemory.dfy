/** What the slots hold while the task graph runs: every slot is either the business
    of exactly one task or already as the merge above it expects to find it. */
module TaskMemory {
  import opened StableOrder
  import opened Keys
  import opened MergePlan
  import opened OpenMPSort
  import opened Pieces
  import opened TaskGraph
  import opened TaskShape

  /** Slot k of x, resp. z, once range [lo, hi) has been sorted in the given mode. */
  ghost function DoneX<T>(lt: (T, T) -> bool, orig: seq<T>, lo: nat, hi: nat, inplace: int, k: int): Slot<T>
    requires lo <= k < hi <= |orig|
  {
    if inplace == 0 then Empty else Live(Sort(lt, orig[lo..hi])[k - lo])
  }

  ghost function DoneZ<T>(lt: (T, T) -> bool, orig: seq<T>, lo: nat, hi: nat, inplace: int, k: int): Slot<T>
    requires lo <= k < hi <= |orig|
  {
    if inplace == 0 then Live(Sort(lt, orig[lo..hi])[k - lo]) else if inplace == 1 then Empty else Raw
  }

  /** The keys a merge of [lo, hi) finds, by position: both halves sorted. */
  ghost function Base<T>(lt: (T, T) -> bool, orig: seq<T>, lo: nat, hi: nat): (b: seq<T>)
    requires lo <= hi <= |orig|
    ensures |b| == |orig|
  {
    orig[..lo] + Sort(lt, orig[lo..Mid(lo, hi)]) + Sort(lt, orig[Mid(lo, hi)..hi]) + orig[hi..]
  }

  /** The keys it is to produce, by position. */
  ghost function Out<T>(lt: (T, T) -> bool, orig: seq<T>, lo: nat, hi: nat): (b: seq<T>)
    requires lo <= hi <= |orig|
    ensures |b| == |orig|
  {
    orig[..lo] + Sort(lt, orig[lo..hi]) + orig[hi..]
  }

  /** The slots that are a task's business. */
  predicate ClaimsX(w: Work, k: int) {
    if w.MergeRange? then (if w.inplace != 0 then w.piece.Writes(k) else w.piece.Reads(k)) else w.lo <= k < w.hi
  }

  predicate ClaimsZ(w: Work, k: int) {
    if w.MergeRange? then (if w.inplace != 0 then w.piece.Reads(k) else w.piece.Writes(k)) else w.lo <= k < w.hi
  }

  predicate Within(w: Work, lo: nat, hi: nat) {
    lo <= w.lo && w.hi <= hi
  }

  ghost predicate ClaimedX(tasks: seq<Task>, lo: nat, hi: nat, k: int) {
    exists j :: 0 <= j < |tasks| && tasks[j].Task? && Within(tasks[j].work, lo, hi) && ClaimsX(tasks[j].work, k)
  }

  ghost predicate ClaimedZ(tasks: seq<Task>, lo: nat, hi: nat, k: int) {
    exists j :: 0 <= j < |tasks| && tasks[j].Task? && Within(tasks[j].work, lo, hi) && ClaimsZ(tasks[j].work, k)
  }

  /** Every slot of [lo, hi) is some task's business or done. */
  ghost predicate Covered<T>(lt: (T, T) -> bool, orig: seq<T>, s: State<T>, lo: nat, hi: nat, inplace: int) {
    && lo <= hi <= |orig| && hi <= |s.x| && hi <= |s.z|
    && (forall k :: lo <= k < hi ==> ClaimedX(s.tasks, lo, hi, k) || s.x[k] == DoneX(lt, orig, lo, hi, inplace, k))
    && (forall k :: lo <= k < hi ==> ClaimedZ(s.tasks, lo, hi, k) || s.z[k] == DoneZ(lt, orig, lo, hi, inplace, k))
  }

  /** The slots of an active task are as far as the task itself is. */
  ghost predicate Local<T>(lt: (T, T) -> bool, orig: seq<T>, w: Work, x: seq<Slot<T>>, z: seq<Slot<T>>) {
    && w.lo <= w.hi <= |orig| && |x| == |z| == |orig|
    && match w
       case SortRange(lo, hi, inplace) =>
         forall k :: lo <= k < hi ==> x[k] == Live(orig[k]) && z[k] == Raw
       case Build(lo, hi, inplace, done) =>
         && lo <= done <= hi
         && (forall k :: lo <= k < done ==>
               x[k] == DoneX(lt, orig, lo, hi, inplace, k) && z[k] == DoneZ(lt, orig, lo, hi, inplace, k))
         && (forall k :: done <= k < hi ==> x[k] == Live(Sort(lt, orig[lo..hi])[k - lo]) && z[k] == Raw)
         && (inplace == 2 ==> done == hi)
       case MergeRange(lo, hi, inplace, piece) =>
         if inplace != 0 then OnTrack(lt, piece, z, x, Base(lt, orig, lo, hi), Out(lt, orig, lo, hi))
         else OnTrack(lt, piece, x, z, Base(lt, orig, lo, hi), Out(lt, orig, lo, hi))
  }

  /** The ranges for which results are still awaited: the whole, and the halves that
      continuations wait for. */
  ghost predicate Awaited(tasks: seq<Task>, n: nat, lo: nat, hi: nat, inplace: int) {
    || (lo == 0 && hi == n && inplace == 2)
    || exists w :: 0 <= w < |tasks| && AwaitedBy(tasks[w], lo, hi, inplace)
  }

  predicate AwaitedBy(w: Task, lo: nat, hi: nat, inplace: int) {
    w.Task? && w.waiting && w.work.lo <= w.work.hi && inplace == Not(w.work.inplace)
    && ((lo == w.work.lo && hi == Mid(w.work.lo, w.work.hi)) || (lo == Mid(w.work.lo, w.work.hi) && hi == w.work.hi))
  }

  ghost predicate MemoryOK<T>(lt: (T, T) -> bool, orig: seq<T>, s: State<T>) {
    && |s.x| == |s.z| == |orig|
    && (forall i :: 0 <= i < |s.tasks| && s.tasks[i].Active() ==> Local(lt, orig, s.tasks[i].work, s.x, s.z))
    && (forall lo: nat, hi: nat, inplace: int ::
          Awaited(s.tasks, |orig|, lo, hi, inplace) ==> Covered(lt, orig, s, lo, hi, inplace))
  }

  ghost predicate Invariant<T>(lt: (T, T) -> bool, orig: seq<T>, s: State<T>) {
    Shape(s.tasks, |orig|) && Counted(s.tasks) && MemoryOK(lt, orig, s)
  }

  // ---------- No task touches another's slots ----------

  lemma ClaimsInRange(tasks: seq<Task>, n: nat, i: nat, k: int)
    requires i < |tasks| && Fits(tasks, i, n) && tasks[i].Task?
    requires ClaimsX(tasks[i].work, k) || ClaimsZ(tasks[i].work, k)
    ensures tasks[i].work.lo <= k < tasks[i].work.hi
  {
  }

  lemma ClaimsApart(tasks: seq<Task>, n: nat, i: nat, j: nat, k: int)
    requires Shape(tasks, n) && i < |tasks| && j < |tasks| && i != j && tasks[i].Active() && tasks[j].Active()
    ensures !(ClaimsX(tasks[i].work, k) && ClaimsX(tasks[j].work, k))
    ensures !(ClaimsZ(tasks[i].work, k) && ClaimsZ(tasks[j].work, k))
  {
    assert Fits(tasks, i, n) && Fits(tasks, j, n) && Compatible(tasks[i], tasks[j]);
  }

  /** Steps on other slots leave a task's own memory as it was. */
  lemma LocalFrame<T>(lt: (T, T) -> bool, orig: seq<T>, w: Work, x: seq<Slot<T>>, x': seq<Slot<T>>,
                      z: seq<Slot<T>>, z': seq<Slot<T>>)
    requires Local(lt, orig, w, x, z) && |x'| == |x| && |z'| == |z|
    requires forall k :: 0 <= k < |x| && ClaimsX(w, k) ==> x'[k] == x[k]
    requires forall k :: 0 <= k < |z| && ClaimsZ(w, k) ==> z'[k] == z[k]
    ensures Local(lt, orig, w, x', z')
  {
    hide Sort, OnTrack;
    if w.MergeRange? {
      if w.inplace != 0 {
        OthersMayMove(lt, w.piece, z, z', x, x', Base(lt, orig, w.lo, w.hi), Out(lt, orig, w.lo, w.hi));
      } else {
        OthersMayMove(lt, w.piece, x, x', z, z', Base(lt, orig, w.lo, w.hi), Out(lt, orig, w.lo, w.hi));
      }
    }
  }

  /** An active task works inside an awaited range or apart from it. */
  lemma WithinOrApart(tasks: seq<Task>, n: nat, i: nat, lo: nat, hi: nat, inplace: int)
    requires Shape(tasks, n) && i < |tasks| && tasks[i].Active() && Awaited(tasks, n, lo, hi, inplace)
    ensures Within(tasks[i].work, lo, hi) || tasks[i].work.hi <= lo || hi <= tasks[i].work.lo
  {
    hide Compatible, WholeMerge, InRange, IsHalf;
    assert Fits(tasks, i, n);
    if !(lo == 0 && hi == n && inplace == 2) {
      var w :| 0 <= w < |tasks| && AwaitedBy(tasks[w], lo, hi, inplace);
      assert Compatible(tasks[i], tasks[w]) && Fits(tasks, w, n);
      ApartFromHalf(tasks[i], tasks[w], lo, hi, inplace);
    }
  }

  lemma ApartFromHalf(t: Task, w: Task, lo: nat, hi: nat, inplace: int)
    requires t.Active() && AwaitedBy(w, lo, hi, inplace) && Compatible(t, w)
    ensures Within(t.work, lo, hi) || t.work.hi <= lo || hi <= t.work.lo
  {
  }

  // ---------- Steps of one task ----------

  /** s' is s after task i, and nobody else, has worked on its own slots. */
  ghost predicate OwnWork<T>(s: State<T>, s': State<T>, i: nat, w: Work)
    requires i < |s.tasks| && s.tasks[i].Task?
  {
    && s'.tasks == s.tasks[i := s.tasks[i].(work := w)] && SameExtent(s.tasks[i].work, w)
    && |s'.x| == |s.x| && |s'.z| == |s.z|
    && (forall k :: 0 <= k < |s.x| && !ClaimsX(w, k) ==> s'.x[k] == s.x[k])
    && (forall k :: 0 <= k < |s.z| && !ClaimsZ(w, k) ==> s'.z[k] == s.z[k])
  }

  lemma SameClaims(w: Work, w': Work, k: int)
    requires SameExtent(w, w')
    ensures ClaimsX(w, k) <==> ClaimsX(w', k)
    ensures ClaimsZ(w, k) <==> ClaimsZ(w', k)
  {
  }

  lemma OwnWorkKeepsClaims<T>(s: State<T>, s': State<T>, i: nat, w: Work, lo: nat, hi: nat, k: int)
    requires i < |s.tasks| && s.tasks[i].Task? && OwnWork(s, s', i, w)
    ensures ClaimedX(s.tasks, lo, hi, k) ==> ClaimedX(s'.tasks, lo, hi, k)
    ensures ClaimedZ(s.tasks, lo, hi, k) ==> ClaimedZ(s'.tasks, lo, hi, k)
  {
    SameClaims(s.tasks[i].work, w, k);
    if ClaimedX(s.tasks, lo, hi, k) {
      var j :| 0 <= j < |s.tasks| && s.tasks[j].Task? && Within(s.tasks[j].work, lo, hi) && ClaimsX(s.tasks[j].work, k);
      assert s'.tasks[j].Task? && Within(s'.tasks[j].work, lo, hi) && ClaimsX(s'.tasks[j].work, k);
    }
    if ClaimedZ(s.tasks, lo, hi, k) {
      var j :| 0 <= j < |s.tasks| && s.tasks[j].Task? && Within(s.tasks[j].work, lo, hi) && ClaimsZ(s.tasks[j].work, k);
      assert s'.tasks[j].Task? && Within(s'.tasks[j].work, lo, hi) && ClaimsZ(s'.tasks[j].work, k);
    }
  }

  lemma OwnWorkKeepsCover<T>(lt: (T, T) -> bool, orig: seq<T>, s: State<T>, s': State<T>, i: nat, w: Work,
                             lo: nat, hi: nat, inplace: int)
    requires Shape(s.tasks, |orig|) && |s.x| == |s.z| == |orig| && i < |s.tasks| && s.tasks[i].Active()
    requires OwnWork(s, s', i, w)
    requires Awaited(s.tasks, |orig|, lo, hi, inplace) && Covered(lt, orig, s, lo, hi, inplace)
    ensures Covered(lt, orig, s', lo, hi, inplace)
  {
    hide Shape, Sort, ClaimedX, ClaimedZ;
    WithinOrApart(s.tasks, |orig|, i, lo, hi, inplace);
    forall k | lo <= k < hi
      ensures ClaimedX(s'.tasks, lo, hi, k) || s'.x[k] == DoneX(lt, orig, lo, hi, inplace, k)
      ensures ClaimedZ(s'.tasks, lo, hi, k) || s'.z[k] == DoneZ(lt, orig, lo, hi, inplace, k)
    {
      OwnWorkKeepsClaims(s, s', i, w, lo, hi, k);
      OwnerClaims(s'.tasks, |orig|, i, lo, hi, k, s.tasks);
    }
  }

  lemma OwnerClaims(tasks': seq<Task>, n: nat, i: nat, lo: nat, hi: nat, k: int, tasks: seq<Task>)
    requires Shape(tasks, n) && i < |tasks| && tasks[i].Task?
    requires i < |tasks'| && tasks'[i].Task? && SameExtent(tasks[i].work, tasks'[i].work)
    requires Within(tasks[i].work, lo, hi) || tasks[i].work.hi <= lo || hi <= tasks[i].work.lo
    requires lo <= k < hi
    ensures ClaimsX(tasks'[i].work, k) ==> ClaimedX(tasks', lo, hi, k)
    ensures ClaimsZ(tasks'[i].work, k) ==> ClaimedZ(tasks', lo, hi, k)
  {
    assert Fits(tasks, i, n);
    SameClaims(tasks[i].work, tasks'[i].work, k);
    if ClaimsX(tasks'[i].work, k) || ClaimsZ(tasks'[i].work, k) {
      ClaimsInRange(tasks, n, i, k);
      assert Within(tasks'[i].work, lo, hi);
    }
  }

  /** If its own memory stays right, a task's work disturbs nothing. */
  lemma OwnWorkKeepsInvariant<T>(lt: (T, T) -> bool, orig: seq<T>, s: State<T>, s': State<T>, i: nat, w: Work)
    requires Invariant(lt, orig, s) && i < |s.tasks| && s.tasks[i].Active() && OwnWork(s, s', i, w)
    requires Local(lt, orig, w, s'.x, s'.z)
    ensures Invariant(lt, orig, s')
  {
    hide Shape, Counted, Local, Covered, OwnWork;
    assert s'.tasks == s.tasks[i := s.tasks[i].(work := w)] by { OwnWorkParts(s, s', i, w); }
    OwnWorkParts(s, s', i, w);
    ProgressKeepsShape(s.tasks, |orig|, i, w);
    forall j | 0 <= j < |s'.tasks| && s'.tasks[j].Active() ensures Local(lt, orig, s'.tasks[j].work, s'.x, s'.z) {
      if j != i {
        OthersFrame(lt, orig, s, s', i, w, j);
      }
    }
    forall lo: nat, hi: nat, inplace: int | Awaited(s'.tasks, |orig|, lo, hi, inplace)
      ensures Covered(lt, orig, s', lo, hi, inplace)
    {
      assert Awaited(s.tasks, |orig|, lo, hi, inplace) by { AwaitedBefore(s, s', i, w, |orig|, lo, hi, inplace); }
      OwnWorkKeepsCover(lt, orig, s, s', i, w, lo, hi, inplace);
    }
  }

  lemma OwnWorkParts<T>(s: State<T>, s': State<T>, i: nat, w: Work)
    requires i < |s.tasks| && s.tasks[i].Task? && OwnWork(s, s', i, w)
    ensures s'.tasks == s.tasks[i := s.tasks[i].(work := w)] && SameExtent(s.tasks[i].work, w)
    ensures |s'.x| == |s.x| && |s'.z| == |s.z|
  {
  }

  lemma AwaitedBefore<T>(s: State<T>, s': State<T>, i: nat, w: Work, n: nat, lo: nat, hi: nat, inplace: int)
    requires i < |s.tasks| && s.tasks[i].Active() && OwnWork(s, s', i, w) && Awaited(s'.tasks, n, lo, hi, inplace)
    ensures Awaited(s.tasks, n, lo, hi, inplace)
  {
    if !(lo == 0 && hi == n && inplace == 2) {
      var v :| 0 <= v < |s'.tasks| && AwaitedBy(s'.tasks[v], lo, hi, inplace);
      assert AwaitedBy(s.tasks[v], lo, hi, inplace);
    }
  }

  lemma OthersFrame<T>(lt: (T, T) -> bool, orig: seq<T>, s: State<T>, s': State<T>, i: nat, w: Work, j: nat)
    requires Shape(s.tasks, |orig|) && i < |s.tasks| && s.tasks[i].Active() && OwnWork(s, s', i, w)
    requires j < |s.tasks| && j != i && s.tasks[j].Active() && Local(lt, orig, s.tasks[j].work, s.x, s.z)
    ensures Local(lt, orig, s.tasks[j].work, s'.x, s'.z)
  {
    hide Shape, Local;
    forall k ensures 0 <= k < |s.x| && ClaimsX(s.tasks[j].work, k) ==> s'.x[k] == s.x[k] {
      SameClaims(s.tasks[i].work, w, k);
      ClaimsApart(s.tasks, |orig|, i, j, k);
    }
    forall k ensures 0 <= k < |s.z| && ClaimsZ(s.tasks[j].work, k) ==> s'.z[k] == s.z[k] {
      SameClaims(s.tasks[i].work, w, k);
      ClaimsApart(s.tasks, |orig|, i, j, k);
    }
    LocalFrame(lt, orig, s.tasks[j].work, s.x, s'.x, s.z, s'.z);
  }

  // ---------- Divisions ----------

  lemma DivideSortCovers<T>(lt: (T, T) -> bool, orig: seq<T>, s: State<T>, i: nat, lo: nat, hi: nat, inplace: int)
    requires Invariant(lt, orig, s) && i < |s.tasks| && s.tasks[i].Active() && s.tasks[i].work.SortRange?
    requires s.tasks[i].work.lo <= s.tasks[i].work.hi && Covered(lt, orig, s, lo, hi, inplace)
    ensures Covered(lt, orig, s.(tasks := DivideSort(s.tasks, i)), lo, hi, inplace)
  {
    hide Shape, Counted, MemoryOK, Sort;
    var tasks, tasks', m := s.tasks, DivideSort(s.tasks, i), |s.tasks|;
    forall k | lo <= k < hi && ClaimedX(tasks, lo, hi, k) ensures ClaimedX(tasks', lo, hi, k) {
      var j :| 0 <= j < |tasks| && tasks[j].Task? && Within(tasks[j].work, lo, hi) && ClaimsX(tasks[j].work, k);
      var j' := if j == i then m else j;
      assert tasks'[j'].Task? && Within(tasks'[j'].work, lo, hi) && ClaimsX(tasks'[j'].work, k);
    }
    forall k | lo <= k < hi && ClaimedZ(tasks, lo, hi, k) ensures ClaimedZ(tasks', lo, hi, k) {
      var j :| 0 <= j < |tasks| && tasks[j].Task? && Within(tasks[j].work, lo, hi) && ClaimsZ(tasks[j].work, k);
      var j' := if j == i then m else j;
      assert tasks'[j'].Task? && Within(tasks'[j'].work, lo, hi) && ClaimsZ(tasks'[j'].work, k);
    }
  }

  /** The two new halves are covered: each is wholly a new sort task's business. */
  lemma NewHalvesCovered<T>(lt: (T, T) -> bool, orig: seq<T>, s: State<T>, i: nat, lo: nat, hi: nat, inplace: int)
    requires i < |s.tasks| && s.tasks[i].Active() && s.tasks[i].work.SortRange? && |s.x| == |s.z| == |orig|
    requires s.tasks[i].work.lo <= s.tasks[i].work.hi <= |orig|
    requires AwaitedBy(DivideSort(s.tasks, i)[|s.tasks|], lo, hi, inplace)
    ensures Covered(lt, orig, s.(tasks := DivideSort(s.tasks, i)), lo, hi, inplace)
  {
    hide Sort;
    var tasks', m := DivideSort(s.tasks, i), |s.tasks|;
    var j := if lo == tasks'[m].work.lo && hi == Mid(lo, tasks'[m].work.hi) then i else m + 1;
    assert tasks'[j].Task? && Within(tasks'[j].work, lo, hi);
    forall k | lo <= k < hi ensures ClaimedX(tasks', lo, hi, k) && ClaimedZ(tasks', lo, hi, k) {
      assert ClaimsX(tasks'[j].work, k) && ClaimsZ(tasks'[j].work, k);
    }
  }

  lemma DivideSortKeepsInvariant<T>(lt: (T, T) -> bool, orig: seq<T>, s: State<T>, i: nat)
    requires Invariant(lt, orig, s) && i < |s.tasks| && s.tasks[i].Active() && s.tasks[i].work.SortRange?
    requires s.tasks[i].work.lo <= s.tasks[i].work.hi && s.tasks[i].work.hi - s.tasks[i].work.lo > SORT_CUT_OFF
    ensures Invariant(lt, orig, s.(tasks := DivideSort(s.tasks, i)))
  {
    hide Shape, Counted, Covered, Sort;
    var s', m := s.(tasks := DivideSort(s.tasks, i)), |s.tasks|;
    assert Local(lt, orig, s.tasks[i].work, s.x, s.z);
    ActiveFits(s.tasks, |orig|, i);
    DivideSortKeepsShape(s.tasks, |orig|, i);
    DivideSortKeepsCounts(s.tasks, |orig|, i);
    forall j | 0 <= j < |s'.tasks| && s'.tasks[j].Active() ensures Local(lt, orig, s'.tasks[j].work, s.x, s.z) {
      if j < |s.tasks| && j != i {
        assert s'.tasks[j] == s.tasks[j];
      }
    }
    forall lo: nat, hi: nat, inplace: int | Awaited(s'.tasks, |orig|, lo, hi, inplace)
      ensures Covered(lt, orig, s', lo, hi, inplace)
    {
      if AwaitedBy(s'.tasks[m], lo, hi, inplace) {
        NewHalvesCovered(lt, orig, s, i, lo, hi, inplace);
      } else {
        assert Awaited(s.tasks, |orig|, lo, hi, inplace) by {
          if !(lo == 0 && hi == |orig| && inplace == 2) {
            var v :| 0 <= v < |s'.tasks| && AwaitedBy(s'.tasks[v], lo, hi, inplace);
            assert AwaitedBy(s.tasks[v], lo, hi, inplace);
          }
        }
        DivideSortCovers(lt, orig, s, i, lo, hi, inplace);
      }
    }
  }

  lemma ActiveFits(tasks: seq<Task>, n: nat, i: nat)
    requires Shape(tasks, n) && i < |tasks| && tasks[i].Active()
    ensures tasks[i].parent < |tasks| && tasks[i].parent != i
    ensures var q := tasks[tasks[i].parent]; q.Root? || (q.Task? && q.waiting)
  {
    assert Fits(tasks, i, n);
  }

  lemma DivideMergeCovers<T>(lt: (T, T) -> bool, orig: seq<T>, s: State<T>, i: nat, lo: nat, hi: nat, inplace: int)
    requires i < |s.tasks| && s.tasks[i].Active() && s.tasks[i].work.MergeRange?
    requires Covered(lt, orig, s, lo, hi, inplace)
    requires var p := s.tasks[i].work.piece;
             && p.Range().Valid() && p.Splits() && p.Size() > MERGE_CUT_OFF
             && p.xs <= p.XM() <= p.xe && p.ys <= p.YM() <= p.ye
    requires s.tasks[i].parent < |s.tasks| && s.tasks[i].parent != i && !s.tasks[s.tasks[i].parent].Finished?
    ensures Covered(lt, orig, s.(tasks := DivideMerge(s.tasks, i)), lo, hi, inplace)
  {
    hide Sort, Left, Right;
    var tasks, tasks', r := s.tasks, DivideMerge(s.tasks, i), |s.tasks|;
    SplitShares(tasks[i].work.piece);
    forall k | lo <= k < hi && ClaimedX(tasks, lo, hi, k) ensures ClaimedX(tasks', lo, hi, k) {
      var j :| 0 <= j < |tasks| && tasks[j].Task? && Within(tasks[j].work, lo, hi) && ClaimsX(tasks[j].work, k);
      var j' := if j == i && !ClaimsX(tasks'[i].work, k) then r else j;
      assert tasks'[j'].Task? && Within(tasks'[j'].work, lo, hi) && ClaimsX(tasks'[j'].work, k);
    }
    forall k | lo <= k < hi && ClaimedZ(tasks, lo, hi, k) ensures ClaimedZ(tasks', lo, hi, k) {
      var j :| 0 <= j < |tasks| && tasks[j].Task? && Within(tasks[j].work, lo, hi) && ClaimsZ(tasks[j].work, k);
      var j' := if j == i && !ClaimsZ(tasks'[i].work, k) then r else j;
      assert tasks'[j'].Task? && Within(tasks'[j'].work, lo, hi) && ClaimsZ(tasks'[j'].work, k);
    }
  }

  lemma LocalSplits<T(!new)>(lt: (T, T) -> bool, orig: seq<T>, w: Work, x: seq<Slot<T>>, z: seq<Slot<T>>)
    requires StrictWeak(lt) && Local(lt, orig, w, x, z) && w.MergeRange? && w.piece.Splits()
    ensures var p := w.piece;
            && p.Range().Valid() && p.Size() > MERGE_CUT_OFF
            && p.xs <= p.XM() <= p.xe && p.ys <= p.YM() <= p.ye
    ensures Local(lt, orig, w.(piece := Left(w.piece)), x, z) && Local(lt, orig, w.(piece := Right(w.piece)), x, z)
  {
    hide Sort, InPhase, Left, Right, Base, Out, Merge, Sorted;
    if w.inplace != 0 {
      SplitKeeps(lt, w.piece, z, x, Base(lt, orig, w.lo, w.hi), Out(lt, orig, w.lo, w.hi));
    } else {
      SplitKeeps(lt, w.piece, x, z, Base(lt, orig, w.lo, w.hi), Out(lt, orig, w.lo, w.hi));
    }
  }

  lemma DivideMergeKeepsInvariant<T(!new)>(lt: (T, T) -> bool, orig: seq<T>, s: State<T>, i: nat)
    requires StrictWeak(lt) && Invariant(lt, orig, s) && i < |s.tasks| && s.tasks[i].Active()
    requires s.tasks[i].work.MergeRange?
    requires var p := s.tasks[i].work.piece; p.Range().Valid() && p.Splits() && p.xs <= p.XM() && p.ys <= p.YM()
    requires s.tasks[i].parent < |s.tasks| && s.tasks[i].parent != i && !s.tasks[s.tasks[i].parent].Finished?
    ensures Invariant(lt, orig, s.(tasks := DivideMerge(s.tasks, i)))
  {
    hide Shape, Counted, Covered, Local, Left, Right;
    var s', r := s.(tasks := DivideMerge(s.tasks, i)), |s.tasks|;
    assert Local(lt, orig, s.tasks[i].work, s.x, s.z);
    LocalSplits(lt, orig, s.tasks[i].work, s.x, s.z);
    ActiveFits(s.tasks, |orig|, i);
    DivideMergeKeepsShape(s.tasks, |orig|, i);
    DivideMergeKeepsCounts(s.tasks, |orig|, i);
    forall j | 0 <= j < |s'.tasks| && s'.tasks[j].Active() ensures Local(lt, orig, s'.tasks[j].work, s.x, s.z) {
      if j < r && j != i {
        assert s.tasks[j].Active() && s'.tasks[j].work == s.tasks[j].work;
      }
    }
    forall lo: nat, hi: nat, inplace: int | Awaited(s'.tasks, |orig|, lo, hi, inplace)
      ensures Covered(lt, orig, s', lo, hi, inplace)
    {
      assert Awaited(s.tasks, |orig|, lo, hi, inplace) by {
        if !(lo == 0 && hi == |orig| && inplace == 2) {
          var v :| 0 <= v < |s'.tasks| && AwaitedBy(s'.tasks[v], lo, hi, inplace);
          assert AwaitedBy(s.tasks[v], lo, hi, inplace);
        }
      }
      DivideMergeCovers(lt, orig, s, i, lo, hi, inplace);
    }
  }
}
