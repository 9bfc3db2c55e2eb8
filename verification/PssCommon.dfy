/** The serial building blocks shared by all four schedulers. */
module PssCommon {
  import opened StableOrder
  import opened Keys
  import opened MergeStep

  /** serial_destroy, from the back. Every slot of the range goes from
      constructed to raw exactly once. */
  method SerialDestroy<T>(count: KeyCounter, a: array<Slot<T>>, zs: nat, ze: nat)
    requires zs <= ze <= a.Length && AllConstructed(a[..], zs, ze)
    modifies count, a
    ensures AllAre(a[..], zs, ze, Raw) && SameOutside(old(a[..]), a[..], zs, ze)
    ensures count.extant == old(count.extant) - (ze - zs)
  {
    var e := ze;
    while zs != e
      invariant zs <= e <= ze
      invariant AllAre(a[..], e, ze, Raw) && SameOutside(old(a[..]), a[..], e, ze)
      invariant count.extant == old(count.extant) - (ze - e)
    {
      e := e - 1;
      assert a[e] == old(a[..])[e];
      Destroy(count, a, e);
    }
  }

  /** Assigns the head of one input to the next output slot and advances both. */
  method MoveHead<T>(lt: (T, T) -> bool, src: array<Slot<T>>, dst: array<Slot<T>>, c: Cursor, fromY: bool,
                     ghost x: seq<T>, ghost y: seq<T>) returns (c': Cursor)
    requires src != dst && Merging(lt, src[..], dst[..], c, x, y, Empty)
    requires if fromY then c.j < c.ye else c.i < c.xe
    requires c.i < c.xe && c.j < c.ye ==> (fromY <==> lt(src[c.j].key, src[c.i].key))
    modifies src, dst
    ensures c' == if fromY then c.(j := c.j + 1) else c.(i := c.i + 1)
    ensures Merging(lt, src[..], dst[..], c', x, y, Empty)
    ensures OnlyMerged(c, old(src[..]), src[..], old(dst[..]), dst[..])
  {
    hide Merge, Rest;
    if fromY {
      TakeY(lt, src[..], dst[..], c, x, y);
      MoveAssign(dst, c.Out(), src, c.j);
      c' := c.(j := c.j + 1);
    } else {
      TakeX(lt, src[..], dst[..], c, x, y);
      MoveAssign(dst, c.Out(), src, c.i);
      c' := c.(i := c.i + 1);
    }
  }

  /** std::move of what is left when one input is exhausted. */
  method MoveRest<T>(lt: (T, T) -> bool, src: array<Slot<T>>, dst: array<Slot<T>>, c: Cursor,
                     ghost x: seq<T>, ghost y: seq<T>)
    requires src != dst && Merging(lt, src[..], dst[..], c, x, y, Empty)
    requires c.i == c.xe || c.j == c.ye
    modifies src, dst
    ensures Merging(lt, src[..], dst[..], c.(i := c.xe, j := c.ye), x, y, Empty)
    ensures OnlyMerged(c, old(src[..]), src[..], old(dst[..]), dst[..])
  {
    hide Merge, Rest, Output, Input, OnlyMerged;
    ghost var src0, dst0 := src[..], dst[..];
    OnlyMergedNothing(c, src0, dst0);
    var d := c;
    while !d.Finished()
      invariant d == c.(i := d.i, j := d.j) && (d.i == c.xe || d.j == c.ye)
      invariant Merging(lt, src[..], dst[..], d, x, y, Empty)
      invariant OnlyMerged(d, src0, src[..], dst0, dst[..])
      decreases (c.xe - d.i) + (c.ye - d.j)
    {
      ghost var d1, src1, dst1 := d, src[..], dst[..];
      d := MoveHead(lt, src, dst, d, d.i == c.xe, x, y);
      OnlyMergedChain(d1, d, src0, src1, src[..], dst0, dst1, dst[..]);
    }
    OnlyMergedSame(d, c, src0, src[..], dst0, dst[..]);
  }

  /** The comparing loop of serial_move_merge, up to the exhaustion of one input. */
  method MoveWhileBoth<T>(lt: (T, T) -> bool, src: array<Slot<T>>, dst: array<Slot<T>>, c: Cursor,
                          ghost x: seq<T>, ghost y: seq<T>) returns (d: Cursor)
    requires src != dst && Merging(lt, src[..], dst[..], c, x, y, Empty)
    modifies src, dst
    ensures d == c.(i := d.i, j := d.j) && (d.i == c.xe || d.j == c.ye)
    ensures Merging(lt, src[..], dst[..], d, x, y, Empty)
    ensures OnlyMerged(c, old(src[..]), src[..], old(dst[..]), dst[..])
  {
    hide Merge, Rest, Output, OnlyMerged;
    ghost var src0, dst0 := src[..], dst[..];
    OnlyMergedNothing(c, src0, dst0);
    d := c;
    while d.i < c.xe && d.j < c.ye
      invariant d == c.(i := d.i, j := d.j)
      invariant Merging(lt, src[..], dst[..], d, x, y, Empty)
      invariant OnlyMerged(d, src0, src[..], dst0, dst[..])
      decreases (c.xe - d.i) + (c.ye - d.j)
    {
      ghost var d1, src1, dst1 := d, src[..], dst[..];
      var fromY := Less(lt, src, d.j, d.i);
      d := MoveHead(lt, src, dst, d, fromY, x, y);
      OnlyMergedChain(d1, d, src0, src1, src[..], dst0, dst1, dst[..]);
    }
    OnlyMergedSame(d, c, src0, src[..], dst0, dst[..]);
  }

  /** serial_move_merge: merges two live ranges of src into constructed slots of
      dst. The ranges of src may lie anywhere as long as they do not overlap. */
  method SerialMoveMerge<T>(lt: (T, T) -> bool, src: array<Slot<T>>, xs: nat, xe: nat, ys: nat, ye: nat,
                            dst: array<Slot<T>>, zs: nat)
    requires src != dst && xs <= xe <= src.Length && ys <= ye <= src.Length && (xe <= ys || ye <= xs)
    requires zs + (xe - xs) + (ye - ys) <= dst.Length
    requires AllLive(src[..], xs, xe) && AllLive(src[..], ys, ye)
    requires AllConstructed(dst[..], zs, zs + (xe - xs) + (ye - ys))
    modifies src, dst
    ensures Merged(lt, src[..], dst[..], Start(xs, xe, ys, ye, zs),
                   old(KeysIn(src[..], xs, xe)), old(KeysIn(src[..], ys, ye)), Empty)
    ensures OnlyMerged(Start(xs, xe, ys, ye, zs), old(src[..]), src[..], old(dst[..]), dst[..])
  {
    hide Merge, Merging, KeysIn;
    ghost var x, y := KeysIn(src[..], xs, xe), KeysIn(src[..], ys, ye);
    var c := Start(xs, xe, ys, ye, zs);
    MergingStarts(lt, src[..], dst[..], c, Empty);
    c := MoveWhileBoth(lt, src, dst, c, x, y);
    MoveRest(lt, src, dst, c, x, y);
    MergingEnds(lt, src[..], dst[..], c.(i := xe, j := ye), x, y, Empty);
  }

  /** Where a sorted range ends up, by mode. 0: in the buffer, the input slots
      empty. 1: in place, the buffer constructed but empty. 2: in place, the
      buffer raw again. */
  ghost predicate Landed<T>(mode: int, x: seq<Slot<T>>, xs: nat, z: seq<Slot<T>>, zs: nat, keys: seq<T>) {
    && (if mode == 0 then AllAre(x, xs, xs + |keys|, Empty) else Holds(x, xs, keys))
    && (if mode == 0 then Holds(z, zs, keys)
        else AllAre(z, zs, zs + |keys|, if mode == 1 then Empty else Raw))
  }

  /** Keys that a sort leaves behind in the buffer, beyond those it started with. */
  function Constructions(mode: int, n: int): int {
    if mode == 2 then 0 else n
  }

  /** std::stable_sort by its contract: in place, no key constructed or destroyed. */
  method StdStableSort<T>(lt: (T, T) -> bool, a: array<Slot<T>>, lo: nat, hi: nat)
    requires AllLive(a[..], lo, hi)
    modifies a
    ensures Holds(a[..], lo, Sort(lt, old(KeysIn(a[..], lo, hi))))
    ensures SameOutside(old(a[..]), a[..], lo, hi)
  {
    var keys := seq(hi - lo, i requires 0 <= i < hi - lo && a[lo + i].Live? reads a => a[lo + i].key);
    assert keys == KeysIn(a[..], lo, hi);
    var sorted := Sort(lt, keys);
    for k := 0 to hi - lo
      invariant Holds(a[..], lo, sorted[..k]) && SameOutside(old(a[..]), a[..], lo, hi)
    {
      a[lo + k] := Live(sorted[k]);
    }
    assert sorted[..hi - lo] == sorted;
  }

  /** stable_sort_base_case: sorts, then prepares the buffer as the mode asks. */
  method StableSortBaseCase<T>(count: KeyCounter, lt: (T, T) -> bool, x: array<Slot<T>>, xs: nat, xe: nat,
                               z: array<Slot<T>>, zs: nat, inplace: int)
    requires x != z && AllLive(x[..], xs, xe) && AllAre(z[..], zs, zs + (xe - xs), Raw) && 0 <= inplace <= 2
    modifies count, x, z
    ensures Landed(inplace, x[..], xs, z[..], zs, Sort(lt, old(KeysIn(x[..], xs, xe))))
    ensures SameOutside(old(x[..]), x[..], xs, xe) && SameOutside(old(z[..]), z[..], zs, zs + (xe - xs))
    ensures count.extant == old(count.extant) + Constructions(inplace, xe - xs)
  {
    hide Sort;
    ghost var keys := Sort(lt, KeysIn(x[..], xs, xe));
    StdStableSort(lt, x, xs, xe);
    if inplace != 2 {
      var ze := zs + (xe - xs);
      if inplace != 0 {
        ConstructBuffer(count, z, zs, ze);
      } else {
        MoveToBuffer(count, x, xs, xe, z, zs, keys);
      }
    }
  }

  /** The base case's loop that default-constructs the buffer. */
  method ConstructBuffer<T>(count: KeyCounter, z: array<Slot<T>>, zs: nat, ze: nat)
    requires zs <= ze && AllAre(z[..], zs, ze, Raw)
    modifies count, z
    ensures AllAre(z[..], zs, ze, Empty) && SameOutside(old(z[..]), z[..], zs, ze)
    ensures count.extant == old(count.extant) + (ze - zs)
  {
    var p := zs;
    while p < ze
      invariant zs <= p <= ze && AllAre(z[..], zs, p, Empty) && SameOutside(old(z[..]), z[..], zs, p)
      invariant count.extant == old(count.extant) + (p - zs)
    {
      assert z[p] == old(z[..])[p];
      DefaultConstruct(count, z, p);
      p := p + 1;
    }
  }

  /** The base case's loop that move-constructs the sorted keys in the buffer. */
  method MoveToBuffer<T>(count: KeyCounter, x: array<Slot<T>>, xs: nat, xe: nat, z: array<Slot<T>>, zs: nat,
                         ghost keys: seq<T>)
    requires x != z && xs <= xe && |keys| == xe - xs && Holds(x[..], xs, keys) && AllAre(z[..], zs, zs + (xe - xs), Raw)
    modifies count, x, z
    ensures AllAre(x[..], xs, xe, Empty) && Holds(z[..], zs, keys)
    ensures SameOutside(old(x[..]), x[..], xs, xe) && SameOutside(old(z[..]), z[..], zs, zs + (xe - xs))
    ensures count.extant == old(count.extant) + (xe - xs)
  {
    var p, q := zs, xs;
    while p < zs + (xe - xs)
      invariant zs <= p <= zs + (xe - xs) && q == xs + (p - zs)
      invariant AllAre(x[..], xs, q, Empty) && SameOutside(old(x[..]), x[..], xs, q)
      invariant Holds(z[..], zs, keys[..p - zs]) && SameOutside(old(z[..]), z[..], zs, p)
      invariant count.extant == old(count.extant) + (p - zs)
    {
      assert x[q] == old(x[..])[q] && z[p] == old(z[..])[p];
      MoveConstruct(count, z, p, x, q);
      p, q := p + 1, q + 1;
    }
    assert keys[..p - zs] == keys;
  }
}
