/** The OpenMP parallel stable sort on its two buffers, tasks run where they are
    spawned. SortTasks has the tasks of the whole sort in any order, MergeTasks those of
    one merge. */
module OpenMPSort {
  import opened StableOrder
  import opened Keys
  import opened MergeStep
  import opened PssCommon
  import opened MergePlan
  import opened SortPlan

  const SORT_CUT_OFF: nat := 500

  /** std::upper_bound (upper) and std::lower_bound over a[lo..hi), for the key in a[at]. */
  method Bound<T(!new)>(lt: (T, T) -> bool, upper: bool, a: array<Slot<T>>, lo: nat, hi: nat, at: nat) returns (r: nat)
    requires StrictWeak(lt) && AllLive(a[..], lo, hi) && at < a.Length && a[at].Live?
    requires Sorted(lt, KeysIn(a[..], lo, hi))
    ensures lo <= r <= hi && Narrowed(lt, upper, KeysIn(a[..], lo, hi), a[at].key, r - lo, 0)
  {
    ghost var keys, v := KeysIn(a[..], lo, hi), a[at].key;
    var first, len := lo, hi - lo;
    while len > 0
      invariant lo <= first <= first + len <= hi
      invariant Narrowed(lt, upper, keys, v, first - lo, len)
    {
      var half := len / 2;
      var mid := first + half;
      assert a[mid] == Live(keys[mid - lo]);
      Narrow(lt, upper, keys, v, first - lo, len, mid - lo);
      var less := Less(lt, a, if upper then at else mid, if upper then mid else at);
      if less != upper {
        first, len := mid + 1, len - half - 1;
      } else {
        len := half;
      }
    }
    r := first;
  }

  method ChooseSplit<T(!new)>(lt: (T, T) -> bool, src: array<Slot<T>>, xs: nat, xe: nat, ys: nat, ye: nat)
    returns (xm: nat, ym: nat)
    requires StrictWeak(lt) && AllLive(src[..], xs, xe) && AllLive(src[..], ys, ye)
    requires Sorted(lt, KeysIn(src[..], xs, xe)) && Sorted(lt, KeysIn(src[..], ys, ye))
    requires (xe - xs) + (ye - ys) > 0
    ensures xs <= xm <= xe && ys <= ym <= ye
    ensures SplitAt(lt, KeysIn(src[..], xs, xe), KeysIn(src[..], ys, ye), xm - xs, ym - ys)
  {
    hide Sorted, KeysIn, Narrowed;
    if xe - xs < ye - ys {
      ym := ys + (ye - ys) / 2;
      xm := Bound(lt, true, src, xs, xe, ym);
    } else {
      xm := xs + (xe - xs) / 2;
      ym := Bound(lt, false, src, ys, ye, xm);
    }
  }

  lemma RestOfInputs<T>(lt: (T, T) -> bool, src: seq<Slot<T>>, dst: seq<Slot<T>>, c: Cursor, i: nat, j: nat,
                        x: seq<T>, y: seq<T>, gone: Slot<T>)
    requires Merging(lt, src, dst, c, x, y, gone) && c.i <= i <= c.xe && c.j <= j <= c.ye
    requires Sorted(lt, x) && Sorted(lt, y)
    ensures AllLive(src, c.i, i) && KeysIn(src, c.i, i) == x[c.i - c.xs..i - c.xs] && Sorted(lt, KeysIn(src, c.i, i))
    ensures AllLive(src, c.j, j) && KeysIn(src, c.j, j) == y[c.j - c.ys..j - c.ys] && Sorted(lt, KeysIn(src, c.j, j))
    ensures AllConstructed(dst, c.Out(), c.Out() + (i - c.i) + (j - c.j))
    ensures i == c.xe ==> x[c.i - c.xs..i - c.xs] == x[c.i - c.xs..]
    ensures j == c.ye ==> y[c.j - c.ys..j - c.ys] == y[c.j - c.ys..]
  {
    hide Merge, Rest, Sorted;
    InputKeys(src, c.xs, c.i, c.xe, x, gone, i);
    InputKeys(src, c.ys, c.j, c.ye, y, gone, j);
    SortedSlice(lt, x, c.i - c.xs, i - c.xs);
    SortedSlice(lt, y, c.j - c.ys, j - c.ys);
  }

  /** A chosen split hands on a proper piece that is ready to be merged by itself. */
  lemma PieceReady<T(!new)>(lt: (T, T) -> bool, src: seq<Slot<T>>, dst: seq<Slot<T>>, c: Cursor, i: nat, j: nat,
                            x: seq<T>, y: seq<T>, gone: Slot<T>)
    requires c.Valid() && |x| == c.xe - c.xs && |y| == c.ye - c.ys && c.i <= i <= c.xe && c.j <= j <= c.ye
    requires StrictWeak(lt) && Merging(lt, src, dst, c, x, y, gone) && Sorted(lt, x) && Sorted(lt, y)
    requires c.End() - c.Out() >= 3
    requires AllLive(src, c.i, c.xe) && AllLive(src, c.j, c.ye)
    requires SplitAt(lt, KeysIn(src, c.i, c.xe), KeysIn(src, c.j, c.ye), i - c.i, j - c.j)
    ensures AllLive(src, c.i, i) && KeysIn(src, c.i, i) == x[c.i - c.xs..i - c.xs] && Sorted(lt, KeysIn(src, c.i, i))
    ensures AllLive(src, c.j, j) && KeysIn(src, c.j, j) == y[c.j - c.ys..j - c.ys] && Sorted(lt, KeysIn(src, c.j, j))
    ensures AllConstructed(dst, c.Out(), c.Out() + (i - c.i) + (j - c.j))
    ensures IsCut(lt, x[c.i - c.xs..], y[c.j - c.ys..], i - c.i, j - c.j)
    ensures 0 < (i - c.i) + (j - c.j) < c.End() - c.Out()
  {
    hide Merge, Merging, Sorted, KeysIn, IsCut, SplitAt;
    RestOfInputs(lt, src, dst, c, c.xe, c.ye, x, y, gone);
    SplitCuts(lt, x[c.i - c.xs..], y[c.j - c.ys..], i - c.i, j - c.j);
    SplitBalance(lt, x[c.i - c.xs..], y[c.j - c.ys..], i - c.i, j - c.j);
    RestOfInputs(lt, src, dst, c, i, j, x, y, gone);
  }

  /** The serial merges done so far, followed by those that the rest will be cut
      into, are those that the two-way recursion would do. */
  ghost predicate Remaining<T(!new)>(lt: (T, T) -> bool, c: Cursor, x: seq<T>, y: seq<T>, leaves: seq<Leaf>)
    requires c.Valid() && |x| == c.xe - c.xs && |y| == c.ye - c.ys
  {
    && StrictWeak(lt) && Sorted(lt, x) && Sorted(lt, y)
    && Sorted(lt, x[c.i - c.xs..]) && Sorted(lt, y[c.j - c.ys..])
    && leaves + Leaves(lt, x[c.i - c.xs..], y[c.j - c.ys..], c.i, c.j, c.Out()) == Leaves(lt, x, y, c.xs, c.ys, c.zs)
  }

  lemma RemainingStarts<T(!new)>(lt: (T, T) -> bool, c: Cursor, x: seq<T>, y: seq<T>)
    requires c.Valid() && |x| == c.xe - c.xs && |y| == c.ye - c.ys && c.i == c.xs && c.j == c.ys
    requires StrictWeak(lt) && Sorted(lt, x) && Sorted(lt, y)
    ensures Remaining(lt, c, x, y, [])
  {
    hide Sorted, Leaves;
    assert x[0..] == x && y[0..] == y;
  }

  lemma RemainingEnds<T(!new)>(lt: (T, T) -> bool, c: Cursor, x: seq<T>, y: seq<T>, leaves: seq<Leaf>)
    requires c.Valid() && |x| == c.xe - c.xs && |y| == c.ye - c.ys && Remaining(lt, c, x, y, leaves)
    requires c.End() - c.Out() <= MERGE_CUT_OFF
    ensures StrictWeak(lt) && Sorted(lt, x) && Sorted(lt, y)
    ensures leaves + [Leaf(c.i, c.xe, c.j, c.ye, c.Out())] == Leaves(lt, x, y, c.xs, c.ys, c.zs)
  {
    hide Sorted, Leaves;
    LeavesSmall(lt, x[c.i - c.xs..], y[c.j - c.ys..], c.i, c.j, c.Out());
  }

  lemma RemainingSplits<T(!new)>(lt: (T, T) -> bool, c: Cursor, x: seq<T>, y: seq<T>,
                                   leaves: seq<Leaf>, l: seq<Leaf>, i: nat, j: nat)
    requires c.Valid() && |x| == c.xe - c.xs && |y| == c.ye - c.ys && Remaining(lt, c, x, y, leaves)
    requires c.End() - c.Out() > MERGE_CUT_OFF && c.i <= i <= c.xe && c.j <= j <= c.ye
    requires SplitAt(lt, x[c.i - c.xs..], y[c.j - c.ys..], i - c.i, j - c.j)
    requires Sorted(lt, x[c.i - c.xs..i - c.xs]) && Sorted(lt, y[c.j - c.ys..j - c.ys])
    requires l == Leaves(lt, x[c.i - c.xs..i - c.xs], y[c.j - c.ys..j - c.ys], c.i, c.j, c.Out())
    ensures Remaining(lt, c.(i := i, j := j), x, y, leaves + l)
  {
    hide Sorted, SplitAt, Leaves;
    LeavesSplit(lt, x[c.i - c.xs..], y[c.j - c.ys..], c.i, c.j, c.Out(), i - c.i, j - c.j);
    SlicesOfSlices(x, c.i - c.xs, i - c.i);
    SlicesOfSlices(y, c.j - c.ys, j - c.j);
  }

  /** parallel_move_merge: splits off left pieces as tasks until what is left is small. */
  method ParallelMoveMerge<T(!new)>(count: KeyCounter, lt: (T, T) -> bool, src: array<Slot<T>>, xs_: nat, xe: nat,
                                    ys_: nat, ye: nat, dst: array<Slot<T>>, zs_: nat, destroy: bool)
    returns (ghost leaves: seq<Leaf>)
    requires StrictWeak(lt) && src != dst && Start(xs_, xe, ys_, ye, zs_).Valid()
    requires AllLive(src[..], xs_, xe) && AllLive(src[..], ys_, ye)
    requires Sorted(lt, KeysIn(src[..], xs_, xe)) && Sorted(lt, KeysIn(src[..], ys_, ye))
    requires AllConstructed(dst[..], zs_, zs_ + (xe - xs_) + (ye - ys_))
    modifies count, src, dst
    ensures Merged(lt, src[..], dst[..], Start(xs_, xe, ys_, ye, zs_),
                   old(KeysIn(src[..], xs_, xe)), old(KeysIn(src[..], ys_, ye)), if destroy then Raw else Empty)
    ensures OnlyMerged(Start(xs_, xe, ys_, ye, zs_), old(src[..]), src[..], old(dst[..]), dst[..])
    ensures count.extant == old(count.extant) - if destroy then (xe - xs_) + (ye - ys_) else 0
    ensures leaves == Leaves(lt, old(KeysIn(src[..], xs_, xe)), old(KeysIn(src[..], ys_, ye)), xs_, ys_, zs_)
    decreases (xe - xs_) + (ye - ys_), 1
  {
    hide Merge, Merging, Merged, Sorted, KeysIn, Leaves, Remaining, OnlyMerged;
    leaves := [];
    ghost var src0, dst0 := src[..], dst[..];
    ghost var x, y := KeysIn(src0, xs_, xe), KeysIn(src0, ys_, ye);
    ghost var gone := if destroy then Raw else Empty;
    ghost var c := Start(xs_, xe, ys_, ye, zs_);
    MergingStarts(lt, src0, dst0, c, gone);
    RemainingStarts(lt, c, x, y);
    OnlyMergedNothing(c, src0, dst0);
    var xs: nat, ys: nat, zs: nat := xs_, ys_, zs_;
    while (xe - xs) + (ye - ys) > MERGE_CUT_OFF
      invariant c == Cursor(xs_, xs, xe, ys_, ys, ye, zs_) && c.Valid() && zs == c.Out()
      invariant Merging(lt, src[..], dst[..], c, x, y, gone)
      invariant OnlyMerged(c, src0, src[..], dst0, dst[..])
      invariant count.extant == old(count.extant) - if destroy then zs - zs_ else 0
      invariant Remaining(lt, c, x, y, leaves)
    {
      ghost var spawned;
      ghost var src1, dst1 := src[..], dst[..];
      var xm, ym;
      xm, ym, spawned := SpawnLeft(count, lt, src, xs, xe, ys, ye, dst, zs, destroy, c, x, y, leaves);
      OnlyMergedChain(c, c.(i := xm, j := ym), src0, src1, src[..], dst0, dst1, dst[..]);
      leaves := leaves + spawned;
      zs := zs + (xm - xs) + (ym - ys);
      xs := xm;
      ys := ym;
      c := c.(i := xs, j := ys);
    }
    RemainingEnds(lt, c, x, y, leaves);
    leaves := leaves + [Leaf(xs, xe, ys, ye, zs)];
    ghost var src1, dst1 := src[..], dst[..];
    FinishMerge(count, lt, src, xs, xe, ys, ye, dst, zs, destroy, c, x, y);
    OnlyMergedChain(c, Start(xs_, xe, ys_, ye, zs_), src0, src1, src[..], dst0, dst1, dst[..]);
    MergingEnds(lt, src[..], dst[..], c.(i := xe, j := ye), x, y, gone);
  }

  /** One round of the loop: choose the split and have the left piece merged. */
  method SpawnLeft<T(!new)>(count: KeyCounter, lt: (T, T) -> bool, src: array<Slot<T>>, xs: nat, xe: nat,
                            ys: nat, ye: nat, dst: array<Slot<T>>, zs: nat, destroy: bool,
                            ghost c: Cursor, ghost x: seq<T>, ghost y: seq<T>, ghost leaves: seq<Leaf>)
    returns (xm: nat, ym: nat, ghost spawned: seq<Leaf>)
    requires StrictWeak(lt) && src != dst && Merging(lt, src[..], dst[..], c, x, y, if destroy then Raw else Empty)
    requires xs == c.i && xe == c.xe && ys == c.j && ye == c.ye && zs == c.Out()
    requires Sorted(lt, x) && Sorted(lt, y) && (xe - xs) + (ye - ys) > MERGE_CUT_OFF && Remaining(lt, c, x, y, leaves)
    modifies count, src, dst
    ensures xs <= xm <= xe && ys <= ym <= ye && (xm - xs) + (ym - ys) > 0
    ensures Merging(lt, src[..], dst[..], c.(i := xm, j := ym), x, y, if destroy then Raw else Empty)
    ensures OnlyMerged(c, old(src[..]), src[..], old(dst[..]), dst[..])
    ensures count.extant == old(count.extant) - if destroy then (xm - xs) + (ym - ys) else 0
    ensures Remaining(lt, c.(i := xm, j := ym), x, y, leaves + spawned)
    decreases (xe - xs) + (ye - ys), 0
  {
    hide Merge, Rest, Merged, OnlyMerged, Sorted, KeysIn, SplitAt, IsCut, Leaves, Remaining;
    ghost var src0, dst0, gone := src[..], dst[..], if destroy then Raw else Empty;
    RestOfInputs(lt, src0, dst0, c, xe, ye, x, y, gone);
    xm, ym := ChooseSplit(lt, src, xs, xe, ys, ye);
    PieceReady(lt, src0, dst0, c, xm, ym, x, y, gone);
    spawned := ParallelMoveMerge(count, lt, src, xs, xm, ys, ym, dst, zs, destroy);
    RemainingSplits(lt, c, x, y, leaves, spawned, xm, ym);
    SkipPiece(lt, src0, src[..], dst0, dst[..], c, xm, ym, x, y, gone);
    OnlyMergedPart(c, xm, ym, src0, src[..], dst0, dst[..]);
  }

  /** The end of parallel_move_merge: the last piece, merged serially. */
  method FinishMerge<T(!new)>(count: KeyCounter, lt: (T, T) -> bool, src: array<Slot<T>>, xs: nat, xe: nat,
                              ys: nat, ye: nat, dst: array<Slot<T>>, zs: nat, destroy: bool,
                              ghost c: Cursor, ghost x: seq<T>, ghost y: seq<T>)
    requires src != dst && Merging(lt, src[..], dst[..], c, x, y, if destroy then Raw else Empty)
    requires xs == c.i && xe == c.xe && ys == c.j && ye == c.ye && zs == c.Out()
    requires Sorted(lt, x) && Sorted(lt, y)
    modifies count, src, dst
    ensures Merging(lt, src[..], dst[..], c.(i := xe, j := ye), x, y, if destroy then Raw else Empty)
    ensures OnlyMerged(c, old(src[..]), src[..], old(dst[..]), dst[..])
    ensures count.extant == old(count.extant) - if destroy then (xe - xs) + (ye - ys) else 0
  {
    hide Merge, Merging, Merged, OnlyMerged, Sorted, KeysIn;
    ghost var src0, dst0, part := src[..], dst[..], Start(xs, xe, ys, ye, zs);
    assert c.Valid() && |x| == c.xe - c.xs && |y| == c.ye - c.ys by {
      MergingShape(lt, src0, dst0, c, x, y, if destroy then Raw else Empty);
    }
    RestOfInputs(lt, src0, dst0, c, xe, ye, x, y, if destroy then Raw else Empty);
    ghost var u, v := KeysIn(src0, xs, xe), KeysIn(src0, ys, ye);
    SerialMoveMerge(lt, src, xs, xe, ys, ye, dst, zs);
    if destroy {
      ghost var src1 := src[..];
      MergedInputs(lt, src1, dst[..], part, u, v);
      SerialDestroy(count, src, xs, xe);
      ghost var src2 := src[..];
      SerialDestroy(count, src, ys, ye);
      InputsDestroyed(lt, part, src0, src1, src2, src[..], dst0, dst[..], u, v);
    }
    WholeIsCut(lt, x[c.i - c.xs..], y[c.j - c.ys..]);
    SkipPiece(lt, src0, src[..], dst0, dst[..], c, xe, ye, x, y, if destroy then Raw else Empty);
    OnlyMergedPart(c, xe, ye, src0, src[..], dst0, dst[..]);
  }

  lemma WholeIsCut<T>(lt: (T, T) -> bool, a: seq<T>, b: seq<T>)
    ensures IsCut(lt, a, b, |a|, |b|)
  {
  }

  lemma MergedInputs<T>(lt: (T, T) -> bool, src: seq<Slot<T>>, dst: seq<Slot<T>>, c: Cursor, x: seq<T>, y: seq<T>)
    requires c.Valid() && Merged(lt, src, dst, c, x, y, Empty)
    ensures AllAre(src, c.xs, c.xe, Empty) && AllAre(src, c.ys, c.ye, Empty)
  {
    hide Merge;
  }

  /** Destroying the emptied inputs after a serial merge. */
  lemma InputsDestroyed<T>(lt: (T, T) -> bool, c: Cursor, src: seq<Slot<T>>, src1: seq<Slot<T>>, src2: seq<Slot<T>>,
                           src3: seq<Slot<T>>, dst: seq<Slot<T>>, dst': seq<Slot<T>>, x: seq<T>, y: seq<T>)
    requires c.Valid() && Merged(lt, src1, dst', c, x, y, Empty) && OnlyMerged(c, src, src1, dst, dst')
    requires AllAre(src2, c.xs, c.xe, Raw) && SameOutside(src1, src2, c.xs, c.xe)
    requires AllAre(src3, c.ys, c.ye, Raw) && SameOutside(src2, src3, c.ys, c.ye)
    ensures Merged(lt, src3, dst', c, x, y, Raw) && OnlyMerged(c, src, src3, dst, dst')
  {
    hide Merge;
  }

  /** What the first argument !inplace of the recursive calls evaluates to. */
  function Not(inplace: int): int {
    if inplace == 0 then 1 else 0
  }

  lemma HalvesPlan<T(!new)>(lt: (T, T) -> bool, a: seq<T>, b: seq<T>, xs: nat, zs: nat, inplace: int)
    requires StrictWeak(lt) && |a| == |a + b| / 2 && |a + b| > SORT_CUT_OFF
    ensures var h, m, u, v := |a|, Not(inplace), Sort(lt, a), Sort(lt, b);
            && Sorted(lt, u) && Sorted(lt, v)
            && Plan(lt, a + b, xs, zs, inplace) ==
                 Plan(lt, a, xs, zs, m) + Plan(lt, b, xs + h, zs + h, m)
                 + Merges(inplace != 0,
                          if inplace != 0 then Leaves(lt, u, v, zs, zs + h, xs) else Leaves(lt, u, v, xs, xs + h, zs))
  {
    hide Plan, Sort, Sorted, Leaves;
    PlanHalves(lt, a + b, xs, zs, inplace);
    assert (a + b)[..|a|] == a && (a + b)[|a|..] == b;
  }

  lemma KeysOfHalves<T>(m: seq<Slot<T>>, lo: nat, mid: nat, hi: nat)
    requires AllLive(m, lo, hi) && lo <= mid <= hi
    ensures AllLive(m, lo, mid) && AllLive(m, mid, hi)
    ensures KeysIn(m, lo, hi) == KeysIn(m, lo, mid) + KeysIn(m, mid, hi)
  {
  }

  lemma LiveKeys<T>(m: seq<Slot<T>>, lo: nat, keys: seq<T>)
    requires Holds(m, lo, keys)
    ensures AllLive(m, lo, lo + |keys|) && KeysIn(m, lo, lo + |keys|) == keys
  {
    HoldsUnique(m, lo, keys, KeysIn(m, lo, lo + |keys|));
  }

  lemma SameKeys<T>(m: seq<Slot<T>>, m': seq<Slot<T>>, lo: nat, hi: nat)
    requires AllLive(m, lo, hi) && hi <= |m'| && forall k :: lo <= k < hi ==> m'[k] == m[k]
    ensures AllLive(m', lo, hi) && KeysIn(m', lo, hi) == KeysIn(m, lo, hi)
  {
  }

  lemma LandedElsewhere<T>(mode: int, x: seq<Slot<T>>, x': seq<Slot<T>>, xs: nat, z: seq<Slot<T>>, z': seq<Slot<T>>,
                           zs: nat, keys: seq<T>)
    requires Landed(mode, x, xs, z, zs, keys) && |x'| == |x| && |z'| == |z|
    requires forall k :: xs <= k < xs + |keys| ==> x'[k] == x[k]
    requires forall k :: zs <= k < zs + |keys| ==> z'[k] == z[k]
    ensures Landed(mode, x', xs, z', zs, keys)
  {
  }

  /** The merge at the end of parallel_stable_sort_aux: from the buffer back into
      place, or from place into the buffer. */
  method MergeHalves<T(!new)>(count: KeyCounter, lt: (T, T) -> bool, x: array<Slot<T>>, xs: nat, xm: nat, xe: nat,
                              z: array<Slot<T>>, zs: nat, inplace: int, ghost a: seq<T>, ghost b: seq<T>)
    returns (ghost leaves: seq<Leaf>)
    requires StrictWeak(lt) && x != z && 0 <= inplace <= 2 && xs <= xm <= xe
    requires Sorted(lt, a) && Sorted(lt, b) && |a| == xm - xs && |b| == xe - xm
    requires Landed(Not(inplace), x[..], xs, z[..], zs, a) && Landed(Not(inplace), x[..], xm, z[..], zs + (xm - xs), b)
    modifies count, x, z
    ensures Landed(inplace, x[..], xs, z[..], zs, Merge(lt, a, b))
    ensures SameOutside(old(x[..]), x[..], xs, xe) && SameOutside(old(z[..]), z[..], zs, zs + (xe - xs))
    ensures count.extant == old(count.extant) + Constructions(inplace, xe - xs) - Constructions(Not(inplace), xe - xs)
    ensures leaves == if inplace != 0 then Leaves(lt, a, b, zs, zs + (xm - xs), xs) else Leaves(lt, a, b, xs, xm, zs)
  {
    hide Merge, KeysIn, Sorted, Leaves;
    var zm, ze := zs + (xm - xs), zs + (xe - xs);
    if inplace != 0 {
      LiveKeys(z[..], zs, a);
      LiveKeys(z[..], zm, b);
      leaves := ParallelMoveMerge(count, lt, z, zs, zm, zm, ze, x, xs, inplace == 2);
    } else {
      LiveKeys(x[..], xs, a);
      LiveKeys(x[..], xm, b);
      leaves := ParallelMoveMerge(count, lt, x, xs, xm, xm, xe, z, zs, false);
    }
  }

  /** parallel_stable_sort_aux: sorts x[xs..xe) with the raw slots from z[zs] as buffer. */
  method ParallelStableSortAux<T(!new)>(count: KeyCounter, lt: (T, T) -> bool, x: array<Slot<T>>, xs: nat, xe: nat,
                                        z: array<Slot<T>>, zs: nat, inplace: int)
    returns (ghost plan: seq<Job>)
    requires StrictWeak(lt) && x != z && 0 <= inplace <= 2
    requires AllLive(x[..], xs, xe) && AllAre(z[..], zs, zs + (xe - xs), Raw)
    modifies count, x, z
    ensures Landed(inplace, x[..], xs, z[..], zs, Sort(lt, old(KeysIn(x[..], xs, xe))))
    ensures SameOutside(old(x[..]), x[..], xs, xe) && SameOutside(old(z[..]), z[..], zs, zs + (xe - xs))
    ensures count.extant == old(count.extant) + Constructions(inplace, xe - xs)
    ensures plan == Plan(lt, old(KeysIn(x[..], xs, xe)), xs, zs, inplace)
    decreases xe - xs
  {
    hide Sort, Merge, KeysIn, Landed, Plan, Leaves;
    if xe - xs <= SORT_CUT_OFF {
      PlanSmall(lt, KeysIn(x[..], xs, xe), xs, zs, inplace);
      plan := [BaseSort(xs, zs, xe - xs, inplace)];
      StableSortBaseCase(count, lt, x, xs, xe, z, zs, inplace);
    } else {
      var xm := xs + (xe - xs) / 2;
      var zm := zs + (xm - xs);
      ghost var x0, z0, a, b := x[..], z[..], KeysIn(x[..], xs, xm), KeysIn(x[..], xm, xe);
      KeysOfHalves(x0, xs, xm, xe);
      ghost var left := ParallelStableSortAux(count, lt, x, xs, xm, z, zs, Not(inplace));
      ghost var x1, z1 := x[..], z[..];
      SameKeys(x0, x1, xm, xe);
      ghost var right := ParallelStableSortAux(count, lt, x, xm, xe, z, zm, Not(inplace));
      LandedElsewhere(Not(inplace), x1, x[..], xs, z1, z[..], zs, Sort(lt, a));
      SortStable(lt, a);
      SortStable(lt, b);
      ghost var leaves := MergeHalves(count, lt, x, xs, xm, xe, z, zs, inplace, Sort(lt, a), Sort(lt, b));
      SortByHalves(lt, a, b);
      HalvesPlan(lt, a, b, xs, zs, inplace);
      plan := left + right + Merges(inplace != 0, leaves);
    }
  }

  /** parallel_stable_sort: every array is stably sorted in place, whether a buffer was
      obtained or not; a buffer ends as raw as it began, and as many keys exist as before.
      With a buffer the sort goes by the plan, without one it is serial. */
  method ParallelStableSort<T(!new)>(count: KeyCounter, lt: (T, T) -> bool, x: array<Slot<T>>, xs: nat, xe: nat,
                                     obtained: bool)
    returns (ghost plan: seq<Job>)
    requires StrictWeak(lt) && AllLive(x[..], xs, xe)
    modifies count, x
    ensures AllLive(x[..], xs, xe)
    ensures IsStableSort(lt, old(KeysIn(x[..], xs, xe)), KeysIn(x[..], xs, xe))
    ensures multiset(KeysIn(x[..], xs, xe)) == multiset(old(KeysIn(x[..], xs, xe)))
    ensures SameOutside(old(x[..]), x[..], xs, xe)
    ensures count.extant == old(count.extant)
    ensures plan == if obtained then Plan(lt, old(KeysIn(x[..], xs, xe)), xs, 0, 2) else []
  {
    hide Sort, IsStableSort, KeysIn, Plan;
    plan := [];
    ghost var keys := KeysIn(x[..], xs, xe);
    if obtained {
      var z := new Slot<T>[xe - xs](_ => Raw);
      plan := ParallelStableSortAux(count, lt, x, xs, xe, z, 0, 2);
      assert AllAre(z[..], 0, xe - xs, Raw);
    } else {
      StdStableSort(lt, x, xs, xe);
    }
    LiveKeys(x[..], xs, Sort(lt, keys));
    SortStable(lt, keys);
    StableSortPermutes(lt, keys, Sort(lt, keys));
  }
}
