/** Which pieces a parallel merge is cut into, how small and how deep. */
module MergePlan {
  import opened Arithmetic
  import opened StableOrder

  const MERGE_CUT_OFF: nat := 2000

  /** The split the merge chooses: the longer side in the middle (x on a tie), the
      other where the middle element belongs. */
  ghost predicate SplitAt<T>(lt: (T, T) -> bool, x: seq<T>, y: seq<T>, i: nat, j: nat) {
    if |x| < |y| then j == |y| / 2 && Narrowed(lt, true, x, y[j], i, 0)
    else x != [] && i == |x| / 2 && Narrowed(lt, false, y, x[i], j, 0)
  }

  lemma SplitCuts<T(!new)>(lt: (T, T) -> bool, x: seq<T>, y: seq<T>, i: nat, j: nat)
    requires StrictWeak(lt) && Sorted(lt, x) && Sorted(lt, y) && SplitAt(lt, x, y, i, j)
    ensures IsCut(lt, x, y, i, j)
  {
    BoundCuts(lt, x, y, i, j, |x| < |y|);
  }

  /** A split merge is never handed on whole: each piece has at most three quarters
      of the elements, rounded up, and hence neither is empty. */
  lemma SplitBalance<T>(lt: (T, T) -> bool, x: seq<T>, y: seq<T>, i: nat, j: nat)
    requires SplitAt(lt, x, y, i, j) && |x| + |y| >= 3
    ensures i <= |x| && j <= |y| && 0 < i + j < |x| + |y|
    ensures 4 * (i + j) <= 3 * (|x| + |y|) + 3 && 4 * (|x| - i + |y| - j) <= 3 * (|x| + |y|) + 3
  {
  }

  lemma SplitUnique<T>(lt: (T, T) -> bool, x: seq<T>, y: seq<T>, i: nat, j: nat, i': nat, j': nat)
    requires SplitAt(lt, x, y, i, j) && SplitAt(lt, x, y, i', j')
    ensures i == i' && j == j'
  {
    var upper, s, v := |x| < |y|, if |x| < |y| then x else y, if |x| < |y| then y[j] else x[i];
    var b, b' := if upper then i else j, if upper then i' else j';
    var p := if b < b' then b else b';
    assert p < |s| ==> (Before(lt, upper, s[p], v) <==> p < b);
    assert p < |s| ==> (Before(lt, upper, s[p], v) <==> p < b');
  }

  /** How many elements at the front of s lie before v. */
  function Bound<T>(lt: (T, T) -> bool, upper: bool, s: seq<T>, v: T): (b: nat)
    ensures b <= |s|
  {
    if s == [] || !Before(lt, upper, s[0], v) then 0 else 1 + Bound(lt, upper, s[1..], v)
  }

  lemma {:induction false} BoundNarrowed<T(!new)>(lt: (T, T) -> bool, upper: bool, s: seq<T>, v: T)
    requires StrictWeak(lt) && Sorted(lt, s)
    ensures Narrowed(lt, upper, s, v, Bound(lt, upper, s, v), 0)
  {
    if s != [] {
      if Before(lt, upper, s[0], v) {
        BoundNarrowed(lt, upper, s[1..], v);
      } else {
        forall p | 0 <= p < |s| ensures !Before(lt, upper, s[p], v) {
          assert p > 0 ==> !lt(s[p], s[0]);
        }
      }
    }
  }

  function SplitOf<T>(lt: (T, T) -> bool, x: seq<T>, y: seq<T>): (nat, nat)
    requires x != [] || y != []
  {
    if |x| < |y| then (Bound(lt, true, x, y[|y| / 2]), |y| / 2) else (|x| / 2, Bound(lt, false, y, x[|x| / 2]))
  }

  lemma SplitOfSplits<T(!new)>(lt: (T, T) -> bool, x: seq<T>, y: seq<T>)
    requires StrictWeak(lt) && Sorted(lt, x) && Sorted(lt, y) && (x != [] || y != [])
    ensures SplitAt(lt, x, y, SplitOf(lt, x, y).0, SplitOf(lt, x, y).1)
  {
    if |x| < |y| {
      BoundNarrowed(lt, true, x, y[|y| / 2]);
    } else {
      BoundNarrowed(lt, false, y, x[|x| / 2]);
    }
  }

  /** A serial merge at the end of the cutting. */
  datatype Leaf = Leaf(xs: nat, xe: nat, ys: nat, ye: nat, zs: nat)

  /** The serial merges that the two-way recursion ends in, from left to right, for
      inputs x and y at positions xs and ys and the output at zs. */
  ghost function Leaves<T(!new)>(lt: (T, T) -> bool, x: seq<T>, y: seq<T>, xs: nat, ys: nat, zs: nat): seq<Leaf>
    requires StrictWeak(lt) && Sorted(lt, x) && Sorted(lt, y)
    decreases |x| + |y|
  {
    if |x| + |y| <= 2000 then [Leaf(xs, xs + |x|, ys, ys + |y|, zs)]
    else
      var (i, j) := SplitOf(lt, x, y);
      SplitOfSplits(lt, x, y);
      SplitBalance(lt, x, y, i, j);
      Leaves(lt, x[..i], y[..j], xs, ys, zs) + Leaves(lt, x[i..], y[j..], xs + i, ys + j, zs + i + j)
  }

  lemma LeavesSmall<T(!new)>(lt: (T, T) -> bool, x: seq<T>, y: seq<T>, xs: nat, ys: nat, zs: nat)
    requires StrictWeak(lt) && Sorted(lt, x) && Sorted(lt, y) && |x| + |y| <= MERGE_CUT_OFF
    ensures Leaves(lt, x, y, xs, ys, zs) == [Leaf(xs, xs + |x|, ys, ys + |y|, zs)]
  {
  }

  lemma LeavesSplit<T(!new)>(lt: (T, T) -> bool, x: seq<T>, y: seq<T>, xs: nat, ys: nat, zs: nat, i: nat, j: nat)
    requires StrictWeak(lt) && Sorted(lt, x) && Sorted(lt, y) && |x| + |y| > MERGE_CUT_OFF
    requires SplitAt(lt, x, y, i, j)
    ensures i <= |x| && j <= |y| && Sorted(lt, x[..i]) && Sorted(lt, x[i..]) && Sorted(lt, y[..j]) && Sorted(lt, y[j..])
    ensures Leaves(lt, x, y, xs, ys, zs)
         == Leaves(lt, x[..i], y[..j], xs, ys, zs) + Leaves(lt, x[i..], y[j..], xs + i, ys + j, zs + i + j)
  {
    hide Sorted, SplitOf, SplitAt, Leaves;
    SplitOfSplits(lt, x, y);
    SplitBalance(lt, x, y, i, j);
    SplitUnique(lt, x, y, i, j, SplitOf(lt, x, y).0, SplitOf(lt, x, y).1);
    SortedHalves(lt, x, i);
    SortedHalves(lt, y, j);
    LeavesUnfold(lt, x, y, xs, ys, zs, i, j);
  }

  lemma LeavesUnfold<T(!new)>(lt: (T, T) -> bool, x: seq<T>, y: seq<T>, xs: nat, ys: nat, zs: nat, i: nat, j: nat)
    requires StrictWeak(lt) && Sorted(lt, x) && Sorted(lt, y) && |x| + |y| > MERGE_CUT_OFF
    requires SplitOf(lt, x, y) == (i, j) && i <= |x| && j <= |y|
    requires Sorted(lt, x[..i]) && Sorted(lt, x[i..]) && Sorted(lt, y[..j]) && Sorted(lt, y[j..])
    ensures Leaves(lt, x, y, xs, ys, zs)
         == Leaves(lt, x[..i], y[..j], xs, ys, zs) + Leaves(lt, x[i..], y[j..], xs + i, ys + j, zs + i + j)
  {
    hide Sorted, SplitOf, SplitAt, StrictWeak;
  }

  lemma SortedHalves<T>(lt: (T, T) -> bool, s: seq<T>, i: nat)
    requires Sorted(lt, s) && i <= |s|
    ensures Sorted(lt, s[..i]) && Sorted(lt, s[i..])
  {
  }

  /** How many splits deep the cutting goes. */
  ghost function Depth<T(!new)>(lt: (T, T) -> bool, x: seq<T>, y: seq<T>): nat
    requires StrictWeak(lt) && Sorted(lt, x) && Sorted(lt, y)
    decreases |x| + |y|
  {
    if |x| + |y| <= MERGE_CUT_OFF then 0
    else
      var (i, j) := SplitOf(lt, x, y);
      SplitOfSplits(lt, x, y);
      SplitBalance(lt, x, y, i, j);
      var l, r := Depth(lt, x[..i], y[..j]), Depth(lt, x[i..], y[j..]);
      1 + if l > r then l else r
  }

  /** n elements suffice for d + 1 splits on top of each other. */
  predicate Suffices(n: int, d: nat) {
    1998 * Power(4, d) <= (n - 3) * Power(3, d)
  }

  /** The depth is logarithmic: d splits need more than 1998 (4/3)^(d-1) elements. */
  lemma {:induction false} DepthIsLogarithmic<T(!new)>(lt: (T, T) -> bool, x: seq<T>, y: seq<T>)
    requires StrictWeak(lt) && Sorted(lt, x) && Sorted(lt, y) && Depth(lt, x, y) > 0
    ensures Suffices(|x| + |y|, Depth(lt, x, y) - 1)
    decreases |x| + |y|
  {
    hide Sorted, SplitOf, SplitAt, Suffices, Depth;
    DepthPositive(lt, x, y);
    var (i, j) := SplitOf(lt, x, y);
    DepthUnfold(lt, x, y, i, j);
    var l, r := Depth(lt, x[..i], y[..j]), Depth(lt, x[i..], y[j..]);
    if l > r {
      DepthIsLogarithmic(lt, x[..i], y[..j]);
      SufficesOneMore(l, |x| + |y|, i + j);
    } else if r > 0 {
      DepthIsLogarithmic(lt, x[i..], y[j..]);
      SufficesOneMore(r, |x| + |y|, |x| - i + |y| - j);
    } else {
      SufficesOnce(|x| + |y|);
    }
  }

  lemma SufficesOnce(n: int)
    requires n > MERGE_CUT_OFF
    ensures Suffices(n, 0)
  {
  }

  lemma DepthPositive<T(!new)>(lt: (T, T) -> bool, x: seq<T>, y: seq<T>)
    requires StrictWeak(lt) && Sorted(lt, x) && Sorted(lt, y)
    ensures Depth(lt, x, y) > 0 <==> |x| + |y| > MERGE_CUT_OFF
  {
  }

  lemma DepthUnfold<T(!new)>(lt: (T, T) -> bool, x: seq<T>, y: seq<T>, i: nat, j: nat)
    requires StrictWeak(lt) && Sorted(lt, x) && Sorted(lt, y) && |x| + |y| > MERGE_CUT_OFF
    requires SplitOf(lt, x, y) == (i, j)
    ensures i <= |x| && j <= |y| && 0 < i + j < |x| + |y|
    ensures 4 * (i + j) <= 3 * (|x| + |y|) + 3 && 4 * (|x| - i + |y| - j) <= 3 * (|x| + |y|) + 3
    ensures Sorted(lt, x[..i]) && Sorted(lt, x[i..]) && Sorted(lt, y[..j]) && Sorted(lt, y[j..])
    ensures var l, r := Depth(lt, x[..i], y[..j]), Depth(lt, x[i..], y[j..]);
            Depth(lt, x, y) == 1 + if l > r then l else r
  {
    hide Sorted, SplitOf, SplitAt;
    SplitOfSplits(lt, x, y);
    SplitBalance(lt, x, y, i, j);
    SortedHalves(lt, x, i);
    SortedHalves(lt, y, j);
  }

  lemma SufficesOneMore(d: nat, n: int, m: int)
    requires d > 0 && 4 * m <= 3 * n + 3 && Suffices(m, d - 1)
    ensures Suffices(n, d)
  {
    var p, q := Power(4, d - 1), Power(3, d - 1);
    assert 4 * (m - 3) <= 3 * (n - 3);
    assert (4 * (m - 3)) * q <= (3 * (n - 3)) * q;
    assert (4 * (m - 3)) * q == 4 * ((m - 3) * q) && (3 * (n - 3)) * q == (n - 3) * (3 * q);
  }

  /** A serial merge of inputs within [xs, xs + n) and [ys, ys + m), written where the
      merge of the whole to zs puts it: at most the cut-off, and not tiny. */
  predicate LeafOf(f: Leaf, xs: nat, n: nat, ys: nat, m: nat, zs: nat) {
    && xs <= f.xs <= f.xe <= xs + n && ys <= f.ys <= f.ye <= ys + m
    && (f.xe - f.xs) + (f.ye - f.ys) <= 2000
    && (n + m >= 500 ==> 500 <= (f.xe - f.xs) + (f.ye - f.ys))
    && f.zs == zs + (f.xs - xs) + (f.ys - ys)
  }

  /** Every serial merge is at most the cut-off, and none is tiny: a merge that was
      cut at all ends in pieces of at least 500 elements. */
  lemma {:induction false} LeafSizes<T(!new)>(lt: (T, T) -> bool, x: seq<T>, y: seq<T>, xs: nat, ys: nat, zs: nat,
                                       k: nat)
    requires StrictWeak(lt) && Sorted(lt, x) && Sorted(lt, y) && k < |Leaves(lt, x, y, xs, ys, zs)|
    ensures LeafOf(Leaves(lt, x, y, xs, ys, zs)[k], xs, |x|, ys, |y|, zs)
    decreases |x| + |y|
  {
    hide Sorted, SplitOf, Leaves, SplitAt;
    if |x| + |y| <= MERGE_CUT_OFF {
      LeavesSmall(lt, x, y, xs, ys, zs);
    } else {
      var (i, j) := SplitOf(lt, x, y);
      SplitOfSplits(lt, x, y);
      SplitBalance(lt, x, y, i, j);
      LeavesSplit(lt, x, y, xs, ys, zs, i, j);
      var l, r := Leaves(lt, x[..i], y[..j], xs, ys, zs), Leaves(lt, x[i..], y[j..], xs + i, ys + j, zs + i + j);
      if k < |l| {
        LeafSizes(lt, x[..i], y[..j], xs, ys, zs, k);
        assert (l + r)[k] == l[k];
      } else {
        LeafSizes(lt, x[i..], y[j..], xs + i, ys + j, zs + i + j, k - |l|);
        assert (l + r)[k] == r[k - |l|];
      }
    }
  }
}
