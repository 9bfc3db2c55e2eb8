/** Merging on memory as a value: what one element move and one split-off piece
    keep, for whoever runs them, in whatever order. */
module MergeStep {
  import opened StableOrder
  import opened Keys

  /** Input ranges [xs, xe) and [ys, ye) of which [xs, i) and [ys, j) are already
      in the output that starts at zs. */
  datatype Cursor = Cursor(xs: nat, i: nat, xe: nat, ys: nat, j: nat, ye: nat, zs: nat) {
    predicate Valid() {
      xs <= i <= xe && ys <= j <= ye && (xe <= ys || ye <= xs)
    }
    /** The next output slot. */
    function Out(): nat
      requires Valid()
    {
      zs + (i - xs) + (j - ys)
    }
    function End(): nat
      requires Valid()
    {
      zs + (xe - xs) + (ye - ys)
    }
    predicate Finished() {
      i == xe && j == ye
    }
  }

  /** A merge that has not begun. */
  function Start(xs: nat, xe: nat, ys: nat, ye: nat, zs: nat): Cursor {
    Cursor(xs, xs, xe, ys, ys, ye, zs)
  }

  /** [xs, i) has been used up and left in state gone; [i, xe) still holds its part of x. */
  ghost predicate Input<T>(src: seq<Slot<T>>, xs: nat, i: nat, xe: nat, x: seq<T>, gone: Slot<T>) {
    && xs <= i <= xe <= |src| && |x| == xe - xs
    && (forall k :: xs <= k < i ==> src[k] == gone)
    && (forall k :: i <= k < xe ==> src[k] == Live(x[k - xs]))
  }

  /** [zs, o) holds the first keys of m; [o, ze) is constructed and waiting. */
  ghost predicate Output<T>(dst: seq<Slot<T>>, zs: nat, o: nat, ze: nat, m: seq<T>) {
    && zs <= o <= ze <= |dst| && |m| == ze - zs
    && (forall k :: zs <= k < o ==> dst[k] == Live(m[k - zs]))
    && (forall k :: o <= k < ze ==> dst[k].Constructed())
  }

  /** The keys still to be moved merge to exactly what is still to be output. */
  ghost predicate Rest<T>(lt: (T, T) -> bool, c: Cursor, x: seq<T>, y: seq<T>) {
    && c.Valid() && |x| == c.xe - c.xs && |y| == c.ye - c.ys
    && Merge(lt, x[c.i - c.xs..], y[c.j - c.ys..]) == Merge(lt, x, y)[c.Out() - c.zs..]
  }

  /** The memory of a half-done merge of x and y. */
  ghost predicate Merging<T>(lt: (T, T) -> bool, src: seq<Slot<T>>, dst: seq<Slot<T>>, c: Cursor,
                             x: seq<T>, y: seq<T>, gone: Slot<T>)
  {
    && c.Valid() && Rest(lt, c, x, y)
    && Input(src, c.xs, c.i, c.xe, x, gone) && Input(src, c.ys, c.j, c.ye, y, gone)
    && Output(dst, c.zs, c.Out(), c.End(), Merge(lt, x, y))
  }

  /** The memory of a completed merge: the output holds it, the inputs are used up. */
  ghost predicate Merged<T>(lt: (T, T) -> bool, src: seq<Slot<T>>, dst: seq<Slot<T>>, c: Cursor,
                            x: seq<T>, y: seq<T>, gone: Slot<T>)
  {
    && Holds(dst, c.zs, Merge(lt, x, y))
    && AllAre(src, c.xs, c.xe, gone) && AllAre(src, c.ys, c.ye, gone)
  }

  /** Nothing but the merge's own input and output slots differs from before. */
  ghost predicate OnlyMerged<T>(c: Cursor, src: seq<Slot<T>>, src': seq<Slot<T>>, dst: seq<Slot<T>>, dst': seq<Slot<T>>)
    requires c.Valid()
  {
    && |src'| == |src|
    && (forall k :: 0 <= k < |src| && !(c.xs <= k < c.xe) && !(c.ys <= k < c.ye) ==> src'[k] == src[k])
    && SameOutside(dst, dst', c.zs, c.End())
  }

  /** Merges within one range leave everything else alone together. */
  lemma OnlyMergedChain<T>(c: Cursor, d: Cursor, src: seq<Slot<T>>, src1: seq<Slot<T>>, src2: seq<Slot<T>>,
                           dst: seq<Slot<T>>, dst1: seq<Slot<T>>, dst2: seq<Slot<T>>)
    requires c.Valid() && d.Valid() && d == c.(i := d.i, j := d.j)
    requires OnlyMerged(c, src, src1, dst, dst1) && OnlyMerged(c, src1, src2, dst1, dst2)
    ensures OnlyMerged(d, src, src2, dst, dst2)
  {
  }

  /** How far a merge has come makes no difference to what it may change. */
  lemma OnlyMergedSame<T>(c: Cursor, d: Cursor, src: seq<Slot<T>>, src': seq<Slot<T>>,
                          dst: seq<Slot<T>>, dst': seq<Slot<T>>)
    requires c.Valid() && d.Valid() && d == c.(i := d.i, j := d.j) && OnlyMerged(c, src, src', dst, dst')
    ensures OnlyMerged(d, src, src', dst, dst')
  {
  }

  /** A merge of a part changes nothing but slots of the whole. */
  lemma OnlyMergedPart<T>(c: Cursor, i: nat, j: nat, src: seq<Slot<T>>, src': seq<Slot<T>>,
                          dst: seq<Slot<T>>, dst': seq<Slot<T>>)
    requires c.Valid() && c.i <= i <= c.xe && c.j <= j <= c.ye
    requires OnlyMerged(Start(c.i, i, c.j, j, c.Out()), src, src', dst, dst')
    ensures OnlyMerged(c, src, src', dst, dst')
  {
  }

  lemma OnlyMergedNothing<T>(c: Cursor, src: seq<Slot<T>>, dst: seq<Slot<T>>)
    requires c.Valid()
    ensures OnlyMerged(c, src, src, dst, dst)
  {
  }

  /** Before the first move: both inputs live, the output constructed. */
  lemma MergingStarts<T>(lt: (T, T) -> bool, src: seq<Slot<T>>, dst: seq<Slot<T>>, c: Cursor, gone: Slot<T>)
    requires c.Valid() && c.i == c.xs && c.j == c.ys
    requires AllLive(src, c.xs, c.xe) && AllLive(src, c.ys, c.ye) && AllConstructed(dst, c.zs, c.End())
    ensures Merging(lt, src, dst, c, KeysIn(src, c.xs, c.xe), KeysIn(src, c.ys, c.ye), gone)
  {
    hide Merge;
    var x, y := KeysIn(src, c.xs, c.xe), KeysIn(src, c.ys, c.ye);
    assert x[0..] == x && y[0..] == y;
    assert Merge(lt, x, y)[0..] == Merge(lt, x, y);
  }

  /** After the last move: the output is the merge, the inputs are used up. */
  lemma MergingEnds<T>(lt: (T, T) -> bool, src: seq<Slot<T>>, dst: seq<Slot<T>>, c: Cursor,
                       x: seq<T>, y: seq<T>, gone: Slot<T>)
    requires Merging(lt, src, dst, c, x, y, gone) && c.Finished()
    ensures Merged(lt, src, dst, Start(c.xs, c.xe, c.ys, c.ye, c.zs), x, y, gone)
  {
  }

  lemma RestTakesX<T>(lt: (T, T) -> bool, c: Cursor, x: seq<T>, y: seq<T>)
    requires Rest(lt, c, x, y) && c.i < c.xe
    requires c.j < c.ye ==> !lt(y[c.j - c.ys], x[c.i - c.xs])
    ensures Rest(lt, c.(i := c.i + 1), x, y)
    ensures Merge(lt, x, y)[c.Out() - c.zs] == x[c.i - c.xs]
  {
    hide Merge;
    var x', y', m, k := x[c.i - c.xs..], y[c.j - c.ys..], Merge(lt, x, y), c.Out() - c.zs;
    MergeTakesFirst(lt, x', y');
    assert m[k] == m[k..][0];
    assert m[k + 1..] == m[k..][1..];
    assert x'[1..] == x[c.i + 1 - c.xs..];
  }

  lemma RestTakesY<T>(lt: (T, T) -> bool, c: Cursor, x: seq<T>, y: seq<T>)
    requires Rest(lt, c, x, y) && c.j < c.ye
    requires c.i < c.xe ==> lt(y[c.j - c.ys], x[c.i - c.xs])
    ensures Rest(lt, c.(j := c.j + 1), x, y)
    ensures Merge(lt, x, y)[c.Out() - c.zs] == y[c.j - c.ys]
  {
    hide Merge;
    var x', y', m, k := x[c.i - c.xs..], y[c.j - c.ys..], Merge(lt, x, y), c.Out() - c.zs;
    MergeTakesSecond(lt, x', y');
    assert m[k] == m[k..][0];
    assert m[k + 1..] == m[k..][1..];
    assert y'[1..] == y[c.j + 1 - c.ys..];
  }

  /** Moving the head of x is right when y is exhausted or its head is not less. */
  lemma TakeX<T>(lt: (T, T) -> bool, src: seq<Slot<T>>, dst: seq<Slot<T>>, c: Cursor, x: seq<T>, y: seq<T>)
    requires Merging(lt, src, dst, c, x, y, Empty) && c.i < c.xe
    requires c.j < c.ye ==> !lt(src[c.j].key, src[c.i].key)
    ensures Merging(lt, src[c.i := Empty], dst[c.Out() := src[c.i]], c.(i := c.i + 1), x, y, Empty)
  {
    hide Merge;
    RestTakesX(lt, c, x, y);
  }

  /** Moving the head of y is right when x is exhausted or the head of y is less. */
  lemma TakeY<T>(lt: (T, T) -> bool, src: seq<Slot<T>>, dst: seq<Slot<T>>, c: Cursor, x: seq<T>, y: seq<T>)
    requires Merging(lt, src, dst, c, x, y, Empty) && c.j < c.ye
    requires c.i < c.xe ==> lt(src[c.j].key, src[c.i].key)
    ensures Merging(lt, src[c.j := Empty], dst[c.Out() := src[c.j]], c.(j := c.j + 1), x, y, Empty)
  {
    hide Merge;
    RestTakesY(lt, c, x, y);
  }

  lemma SlicesOfSlices<T>(s: seq<T>, from: nat, k: nat)
    requires from + k <= |s|
    ensures s[from..][..k] == s[from..from + k] && s[from..][k..] == s[from + k..]
  {
  }

  lemma RestSkips<T>(lt: (T, T) -> bool, c: Cursor, i: nat, j: nat, x: seq<T>, y: seq<T>)
    requires Rest(lt, c, x, y) && c.i <= i <= c.xe && c.j <= j <= c.ye
    requires IsCut(lt, x[c.i - c.xs..], y[c.j - c.ys..], i - c.i, j - c.j)
    ensures Rest(lt, c.(i := i, j := j), x, y)
    ensures Merge(lt, x[c.i - c.xs..i - c.xs], y[c.j - c.ys..j - c.ys])
         == Merge(lt, x, y)[c.Out() - c.zs..c.(i := i, j := j).Out() - c.zs]
  {
    hide Merge, IsCut;
    var k, n := c.Out() - c.zs, (i - c.i) + (j - c.j);
    MergeSplits(lt, x[c.i - c.xs..], y[c.j - c.ys..], i - c.i, j - c.j);
    SlicesOfSlices(x, c.i - c.xs, i - c.i);
    SlicesOfSlices(y, c.j - c.ys, j - c.j);
    SlicesOfSlices(Merge(lt, x, y), k, n);
    var l := Merge(lt, x[c.i - c.xs..i - c.xs], y[c.j - c.ys..j - c.ys]);
    var r := Merge(lt, x[i - c.xs..], y[j - c.ys..]);
    assert (l + r)[..n] == l && (l + r)[n..] == r;
  }

  lemma MergingShape<T>(lt: (T, T) -> bool, src: seq<Slot<T>>, dst: seq<Slot<T>>, c: Cursor,
                        x: seq<T>, y: seq<T>, gone: Slot<T>)
    requires Merging(lt, src, dst, c, x, y, gone)
    ensures c.Valid() && |x| == c.xe - c.xs && |y| == c.ye - c.ys && c.xe <= |src| && c.ye <= |src| && c.End() <= |dst|
  {
    hide Merge, Rest;
  }

  lemma InputShrinks<T>(src: seq<Slot<T>>, src': seq<Slot<T>>, xs: nat, i: nat, i': nat, xe: nat, x: seq<T>,
                        gone: Slot<T>)
    requires Input(src, xs, i, xe, x, gone) && i <= i' <= xe && |src'| == |src| && AllAre(src', i, i', gone)
    requires forall k :: xs <= k < xe && !(i <= k < i') ==> src'[k] == src[k]
    ensures Input(src', xs, i', xe, x, gone)
  {
  }

  lemma OutputGrows<T>(dst: seq<Slot<T>>, dst': seq<Slot<T>>, zs: nat, o: nat, o': nat, ze: nat, m: seq<T>)
    requires Output(dst, zs, o, ze, m) && o <= o' <= ze
    requires SameOutside(dst, dst', o, o') && Holds(dst', o, m[o - zs..o' - zs])
    ensures Output(dst', zs, o', ze, m)
  {
  }

  /** What is live of an input is the corresponding part of x. */
  lemma InputKeys<T>(src: seq<Slot<T>>, xs: nat, i: nat, xe: nat, x: seq<T>, gone: Slot<T>, i': nat)
    requires Input(src, xs, i, xe, x, gone) && i <= i' <= xe
    ensures AllLive(src, i, i') && KeysIn(src, i, i') == x[i - xs..i' - xs]
  {
  }

  lemma SortedSlice<T>(lt: (T, T) -> bool, s: seq<T>, i: nat, j: nat)
    requires Sorted(lt, s) && i <= j <= |s|
    ensures Sorted(lt, s[i..j])
  {
  }

  /** Handing the part before a cut to somebody else, who merges it, is one big step. */
  lemma SkipPiece<T>(lt: (T, T) -> bool, src: seq<Slot<T>>, src': seq<Slot<T>>, dst: seq<Slot<T>>, dst': seq<Slot<T>>,
                     c: Cursor, i: nat, j: nat, x: seq<T>, y: seq<T>, gone: Slot<T>)
    requires c.Valid() && |x| == c.xe - c.xs && |y| == c.ye - c.ys && c.i <= i <= c.xe && c.j <= j <= c.ye
    requires IsCut(lt, x[c.i - c.xs..], y[c.j - c.ys..], i - c.i, j - c.j)
    requires OnlyMerged(Start(c.i, i, c.j, j, c.Out()), src, src', dst, dst')
    requires Merging(lt, src, dst, c, x, y, gone)
    requires Merged(lt, src', dst', Start(c.i, i, c.j, j, c.Out()), x[c.i - c.xs..i - c.xs], y[c.j - c.ys..j - c.ys],
             gone)
    ensures Merging(lt, src', dst', c.(i := i, j := j), x, y, gone)
  {
    hide Merge, IsCut, Rest, Output, Input, Holds;
    RestSkips(lt, c, i, j, x, y);
    MergingShape(lt, src, dst, c, x, y, gone);
    InputShrinks(src, src', c.xs, c.i, i, c.xe, x, gone);
    InputShrinks(src, src', c.ys, c.j, j, c.ye, y, gone);
    OutputGrows(dst, dst', c.zs, c.Out(), c.(i := i, j := j).Out(), c.End(), Merge(lt, x, y));
  }
}
