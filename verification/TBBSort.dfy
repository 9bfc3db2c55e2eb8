/** The TBB parallel_invoke merge: two-way recursion instead of a loop, with the same
    result, the same serial merges and the same object lifetimes. */
module TBBSort {
  import opened StableOrder
  import opened Keys
  import opened MergeStep
  import opened MergePlan
  import opened OpenMPSort

  /** parallel_merge. Its contract is that of ParallelMoveMerge, word for word. */
  method ParallelMerge<T(!new)>(count: KeyCounter, lt: (T, T) -> bool, src: array<Slot<T>>, xs: nat, xe: nat,
                                ys: nat, ye: nat, dst: array<Slot<T>>, zs: nat, destroy: bool)
    returns (ghost leaves: seq<Leaf>)
    requires StrictWeak(lt) && src != dst && Start(xs, xe, ys, ye, zs).Valid()
    requires AllLive(src[..], xs, xe) && AllLive(src[..], ys, ye)
    requires Sorted(lt, KeysIn(src[..], xs, xe)) && Sorted(lt, KeysIn(src[..], ys, ye))
    requires AllConstructed(dst[..], zs, zs + (xe - xs) + (ye - ys))
    modifies count, src, dst
    ensures Merged(lt, src[..], dst[..], Start(xs, xe, ys, ye, zs),
                   old(KeysIn(src[..], xs, xe)), old(KeysIn(src[..], ys, ye)), if destroy then Raw else Empty)
    ensures OnlyMerged(Start(xs, xe, ys, ye, zs), old(src[..]), src[..], old(dst[..]), dst[..])
    ensures count.extant == old(count.extant) - if destroy then (xe - xs) + (ye - ys) else 0
    ensures leaves == Leaves(lt, old(KeysIn(src[..], xs, xe)), old(KeysIn(src[..], ys, ye)), xs, ys, zs)
    decreases (xe - xs) + (ye - ys), 2
  {
    hide Merge, Merging, Merged, Sorted, KeysIn, SplitAt, IsCut, Leaves, Remaining, Rest;
    ghost var x, y := KeysIn(src[..], xs, xe), KeysIn(src[..], ys, ye);
    ghost var gone, c := if destroy then Raw else Empty, Start(xs, xe, ys, ye, zs);
    MergingStarts(lt, src[..], dst[..], c, gone);
    RemainingStarts(lt, c, x, y);
    if (xe - xs) + (ye - ys) <= MERGE_CUT_OFF {
      RemainingEnds(lt, c, x, y, []);
      leaves := [Leaf(xs, xe, ys, ye, zs)];
      FinishMerge(count, lt, src, xs, xe, ys, ye, dst, zs, destroy, c, x, y);
    } else {
      leaves := MergeBothParts(count, lt, src, xs, xe, ys, ye, dst, zs, destroy, x, y);
    }
    MergingEnds(lt, src[..], dst[..], c.(i := xe, j := ye), x, y, gone);
  }

  /** Above the cut-off: split, and merge both parts. */
  method MergeBothParts<T(!new)>(count: KeyCounter, lt: (T, T) -> bool, src: array<Slot<T>>, xs: nat, xe: nat,
                                 ys: nat, ye: nat, dst: array<Slot<T>>, zs: nat, destroy: bool,
                                 ghost x: seq<T>, ghost y: seq<T>)
    returns (ghost leaves: seq<Leaf>)
    requires StrictWeak(lt) && src != dst && Start(xs, xe, ys, ye, zs).Valid() && Sorted(lt, x) && Sorted(lt, y)
    requires Merging(lt, src[..], dst[..], Start(xs, xe, ys, ye, zs), x, y, if destroy then Raw else Empty)
    requires (xe - xs) + (ye - ys) > MERGE_CUT_OFF && |x| == xe - xs && |y| == ye - ys
    modifies count, src, dst
    ensures Merging(lt, src[..], dst[..], Start(xs, xe, ys, ye, zs).(i := xe, j := ye), x, y,
            if destroy then Raw else Empty)
    ensures OnlyMerged(Start(xs, xe, ys, ye, zs), old(src[..]), src[..], old(dst[..]), dst[..])
    ensures count.extant == old(count.extant) - if destroy then (xe - xs) + (ye - ys) else 0
    ensures leaves == Leaves(lt, x, y, xs, ys, zs)
    decreases (xe - xs) + (ye - ys), 1
  {
    hide Merge, Merging, Merged, Sorted, KeysIn, Leaves, Remaining;
    ghost var c := Start(xs, xe, ys, ye, zs);
    RemainingStarts(lt, c, x, y);
    ghost var l, r;
    var xm, ym;
    xm, ym, l := MergeLeftPart(count, lt, src, xs, xe, ys, ye, dst, zs, destroy, c, x, y);
    r := MergeRightPart(count, lt, src, xm, xe, ym, ye, dst, zs + (xm - xs) + (ym - ys), destroy,
        c.(i := xm, j := ym), x, y, l);
    leaves := l + r;
  }

  method MergeLeftPart<T(!new)>(count: KeyCounter, lt: (T, T) -> bool, src: array<Slot<T>>, xs: nat, xe: nat,
                                ys: nat, ye: nat, dst: array<Slot<T>>, zs: nat, destroy: bool,
                                ghost c: Cursor, ghost x: seq<T>, ghost y: seq<T>)
    returns (xm: nat, ym: nat, ghost leaves: seq<Leaf>)
    requires StrictWeak(lt) && src != dst && Merging(lt, src[..], dst[..], c, x, y, if destroy then Raw else Empty)
    requires c == Start(xs, xe, ys, ye, zs) && Remaining(lt, c, x, y, [])
    requires Sorted(lt, x) && Sorted(lt, y) && (xe - xs) + (ye - ys) > MERGE_CUT_OFF
    modifies count, src, dst
    ensures xs <= xm <= xe && ys <= ym <= ye && (xm - xs) + (ym - ys) > 0
    ensures Merging(lt, src[..], dst[..], c.(i := xm, j := ym), x, y, if destroy then Raw else Empty)
    ensures OnlyMerged(c, old(src[..]), src[..], old(dst[..]), dst[..])
    ensures count.extant == old(count.extant) - if destroy then (xm - xs) + (ym - ys) else 0
    ensures Remaining(lt, c.(i := xm, j := ym), x, y, leaves)
    decreases (xe - xs) + (ye - ys), 0
  {
    hide Merge, Rest, Merged, OnlyMerged, Sorted, KeysIn, SplitAt, IsCut, Leaves, Remaining;
    ghost var src0, dst0, gone := src[..], dst[..], if destroy then Raw else Empty;
    RestOfInputs(lt, src0, dst0, c, xe, ye, x, y, gone);
    xm, ym := ChooseSplit(lt, src, xs, xe, ys, ye);
    PieceReady(lt, src0, dst0, c, xm, ym, x, y, gone);
    leaves := ParallelMerge(count, lt, src, xs, xm, ys, ym, dst, zs, destroy);
    RemainingSplits(lt, c, x, y, [], leaves, xm, ym);
    assert [] + leaves == leaves;
    SkipPiece(lt, src0, src[..], dst0, dst[..], c, xm, ym, x, y, gone);
    OnlyMergedPart(c, xm, ym, src0, src[..], dst0, dst[..]);
  }

  method MergeRightPart<T(!new)>(count: KeyCounter, lt: (T, T) -> bool, src: array<Slot<T>>, xm: nat, xe: nat,
                                 ym: nat, ye: nat, dst: array<Slot<T>>, zm: nat, destroy: bool,
                                 ghost c: Cursor, ghost x: seq<T>, ghost y: seq<T>, ghost done: seq<Leaf>)
    returns (ghost leaves: seq<Leaf>)
    requires StrictWeak(lt) && src != dst && Merging(lt, src[..], dst[..], c, x, y, if destroy then Raw else Empty)
    requires xm == c.i && xe == c.xe && ym == c.j && ye == c.ye && zm == c.Out()
    requires Sorted(lt, x) && Sorted(lt, y) && Remaining(lt, c, x, y, done)
    modifies count, src, dst
    ensures Merging(lt, src[..], dst[..], c.(i := xe, j := ye), x, y, if destroy then Raw else Empty)
    ensures OnlyMerged(c, old(src[..]), src[..], old(dst[..]), dst[..])
    ensures count.extant == old(count.extant) - if destroy then (xe - xm) + (ye - ym) else 0
    ensures done + leaves == Leaves(lt, x, y, c.xs, c.ys, c.zs)
    decreases (xe - xm) + (ye - ym), 3
  {
    hide Merge, Rest, Merged, Sorted, KeysIn, Leaves;
    ghost var src0, dst0, gone := src[..], dst[..], if destroy then Raw else Empty;
    RestOfInputs(lt, src0, dst0, c, xe, ye, x, y, gone);
    leaves := ParallelMerge(count, lt, src, xm, xe, ym, ye, dst, zm, destroy);
    SkipPiece(lt, src0, src[..], dst0, dst[..], c, xe, ye, x, y, gone);
  }
}
