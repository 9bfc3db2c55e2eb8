/** What a stable sort and a stable merge are, for any strict weak order: the
    mathematics that every scheduler of the merge sort relies on. */
module StableOrder {

  /** Asymmetric and negatively transitive: a strict weak order. */
  ghost predicate StrictWeak<T(!new)>(lt: (T, T) -> bool) {
    && (forall a, b :: lt(a, b) ==> !lt(b, a))
    && (forall a, b, c :: !lt(a, b) && !lt(b, c) ==> !lt(a, c))
  }

  /** No later element is less than an earlier one. */
  ghost predicate Sorted<T>(lt: (T, T) -> bool, s: seq<T>) {
    forall i, j :: 0 <= i < j < |s| ==> !lt(s[j], s[i])
  }

  predicate Tied<T>(lt: (T, T) -> bool, a: T, b: T) {
    !lt(a, b) && !lt(b, a)
  }

  /** The elements of s tied with k, in the order in which s holds them. */
  function Ties<T>(lt: (T, T) -> bool, k: T, s: seq<T>): seq<T> {
    if s == [] then []
    else (if Tied(lt, k, s[0]) then [s[0]] else []) + Ties(lt, k, s[1..])
  }

  /** out is sorted and keeps every group of ties in its order in s. */
  ghost predicate IsStableSort<T(!new)>(lt: (T, T) -> bool, s: seq<T>, out: seq<T>) {
    && Sorted(lt, out)
    && forall k :: Ties(lt, k, out) == Ties(lt, k, s)
  }

  /** The merge that serial_move_merge performs: on a tie the element of a goes first. */
  function Merge<T>(lt: (T, T) -> bool, a: seq<T>, b: seq<T>): (m: seq<T>)
    ensures |m| == |a| + |b|
    decreases |a| + |b|
  {
    if a == [] then b
    else if b == [] then a
    else if lt(b[0], a[0]) then [b[0]] + Merge(lt, a, b[1..])
    else [a[0]] + Merge(lt, a[1..], b)
  }

  /** std::stable_sort as a function. */
  function Sort<T>(lt: (T, T) -> bool, s: seq<T>): (m: seq<T>)
    ensures |m| == |s|
  {
    if s == [] then [] else Merge(lt, [s[0]], Sort(lt, s[1..]))
  }

  // ---------- Groups of ties ----------

  lemma TiesHead<T>(lt: (T, T) -> bool, k: T, s: seq<T>)
    requires s != []
    ensures Ties(lt, k, s) == (if Tied(lt, k, s[0]) then [s[0]] else []) + Ties(lt, k, s[1..])
  {
  }

  lemma Regroup<T>(a: seq<T>, b: seq<T>, c: seq<T>)
    ensures a + (b + c) == (a + b) + c
  {
  }

  lemma {:induction false} TiesAppend<T>(lt: (T, T) -> bool, k: T, a: seq<T>, b: seq<T>)
    ensures Ties(lt, k, a + b) == Ties(lt, k, a) + Ties(lt, k, b)
  {
    if a == [] {
      assert a + b == b;
    } else {
      TiesHead(lt, k, a);
      TiesHead(lt, k, a + b);
      hide Ties;
      TiesAppend(lt, k, a[1..], b);
      assert (a + b)[1..] == a[1..] + b;
      Regroup(if Tied(lt, k, a[0]) then [a[0]] else [], Ties(lt, k, a[1..]), Ties(lt, k, b));
    }
  }

  lemma TiesTail<T>(lt: (T, T) -> bool, k: T, s: seq<T>)
    requires s != []
    ensures Ties(lt, k, s[1..]) == if Tied(lt, k, s[0]) then Ties(lt, k, s)[1..] else Ties(lt, k, s)
  {
  }

  lemma {:induction false} NoTies<T>(lt: (T, T) -> bool, k: T, s: seq<T>)
    requires forall i :: 0 <= i < |s| ==> !Tied(lt, k, s[i])
    ensures Ties(lt, k, s) == []
  {
    if s != [] {
      NoTies(lt, k, s[1..]);
    }
  }

  lemma {:induction false} TiesCountCopies<T>(lt: (T, T) -> bool, k: T, s: seq<T>)
    requires Tied(lt, k, k)
    ensures multiset(Ties(lt, k, s))[k] == multiset(s)[k]
  {
    if s != [] {
      TiesCountCopies(lt, k, s[1..]);
      assert s == [s[0]] + s[1..];
    }
  }

  lemma {:induction false} SomeTie<T>(lt: (T, T) -> bool, k: T, s: seq<T>) returns (i: nat)
    requires Ties(lt, k, s) != []
    ensures i < |s| && Tied(lt, k, s[i])
  {
    if Tied(lt, k, s[0]) {
      i := 0;
    } else {
      var j := SomeTie(lt, k, s[1..]);
      i := j + 1;
    }
  }

  /** A stable sort only rearranges: no element is lost or doubled. */
  lemma StableSortPermutes<T(!new)>(lt: (T, T) -> bool, s: seq<T>, out: seq<T>)
    requires StrictWeak(lt) && IsStableSort(lt, s, out)
    ensures multiset(out) == multiset(s)
  {
    forall k: T ensures multiset(out)[k] == multiset(s)[k] {
      assert Tied(lt, k, k);
      TiesCountCopies(lt, k, s);
      TiesCountCopies(lt, k, out);
    }
  }

  /** In a sorted sequence whose ties with its head are known, the head itself is known. */
  lemma SortedHeads<T(!new)>(lt: (T, T) -> bool, p: seq<T>, q: seq<T>)
    requires StrictWeak(lt) && Sorted(lt, p) && Sorted(lt, q)
    requires forall k :: Ties(lt, k, p) == Ties(lt, k, q)
    requires p != []
    ensures q != [] && p[0] == q[0]
  {
    assert Tied(lt, p[0], p[0]);
    assert Ties(lt, p[0], p)[0] == p[0];
    var i := SomeTie(lt, p[0], q);
    assert Tied(lt, q[0], q[0]);
    assert Ties(lt, q[0], q)[0] == q[0];
    var j := SomeTie(lt, q[0], p);
    assert !lt(p[j], p[0]) by { if j == 0 { } }
    assert !lt(q[i], q[0]) by { if i == 0 { } }
    assert Tied(lt, p[0], q[0]);
    assert Ties(lt, p[0], q)[0] == q[0];
  }

  /** Sortedness and stability pin the result down completely: there is one stable sort. */
  lemma {:induction false} StableSortUnique<T(!new)>(lt: (T, T) -> bool, p: seq<T>, q: seq<T>)
    requires StrictWeak(lt) && Sorted(lt, p) && Sorted(lt, q)
    requires forall k :: Ties(lt, k, p) == Ties(lt, k, q)
    ensures p == q
    decreases |p|
  {
    if p == [] {
      if q != [] {
        SortedHeads(lt, q, p);
      }
    } else {
      SortedHeads(lt, p, q);
      forall k ensures Ties(lt, k, p[1..]) == Ties(lt, k, q[1..]) {
        TiesTail(lt, k, p);
        TiesTail(lt, k, q);
      }
      StableSortUnique(lt, p[1..], q[1..]);
      assert p == [p[0]] + p[1..] && q == [q[0]] + q[1..];
    }
  }

  // ---------- Merging ----------

  lemma MergeTakesFirst<T>(lt: (T, T) -> bool, a: seq<T>, b: seq<T>)
    requires a != [] && (b == [] || !lt(b[0], a[0]))
    ensures Merge(lt, a, b) == [a[0]] + Merge(lt, a[1..], b)
  {
    if b == [] {
      assert a == [a[0]] + a[1..];
      assert Merge(lt, a[1..], b) == a[1..];
    }
  }

  lemma MergeTakesSecond<T>(lt: (T, T) -> bool, a: seq<T>, b: seq<T>)
    requires b != [] && (a == [] || lt(b[0], a[0]))
    ensures Merge(lt, a, b) == [b[0]] + Merge(lt, a, b[1..])
  {
    if a == [] {
      assert b == [b[0]] + b[1..];
      assert Merge(lt, a, b[1..]) == b[1..];
    }
  }

  ghost predicate NoneBelow<T>(lt: (T, T) -> bool, h: T, s: seq<T>) {
    forall i :: 0 <= i < |s| ==> !lt(s[i], h)
  }

  lemma {:induction false} MergeNoneBelow<T(!new)>(lt: (T, T) -> bool, h: T, a: seq<T>, b: seq<T>)
    requires NoneBelow(lt, h, a) && NoneBelow(lt, h, b)
    ensures NoneBelow(lt, h, Merge(lt, a, b))
    decreases |a| + |b|
  {
    if a == [] || b == [] {
    } else if lt(b[0], a[0]) {
      MergeNoneBelow(lt, h, a, b[1..]);
    } else {
      MergeNoneBelow(lt, h, a[1..], b);
    }
  }

  lemma HeadIsLeast<T(!new)>(lt: (T, T) -> bool, s: seq<T>)
    requires StrictWeak(lt) && Sorted(lt, s) && s != []
    ensures forall x, i :: !lt(s[0], x) && 0 <= i < |s| ==> !lt(s[i], x)
  {
    assert !lt(s[0], s[0]);
  }

  lemma SortedCons<T>(lt: (T, T) -> bool, h: T, s: seq<T>)
    requires Sorted(lt, s) && NoneBelow(lt, h, s)
    ensures Sorted(lt, [h] + s)
  {
  }

  /** Taking the head of a first keeps the ties of a + b in order. */
  lemma TiesTakeFirst<T>(lt: (T, T) -> bool, k: T, a: seq<T>, b: seq<T>, m: seq<T>)
    requires a != [] && Ties(lt, k, m) == Ties(lt, k, a[1..] + b)
    ensures Ties(lt, k, [a[0]] + m) == Ties(lt, k, a + b)
  {
    TiesHead(lt, k, [a[0]] + m);
    TiesHead(lt, k, a + b);
    hide Ties;
    assert ([a[0]] + m)[1..] == m && (a + b)[1..] == a[1..] + b;
  }

  /** What is tied with something less than the head of a is not tied with any of a. */
  lemma NoneTiedAbove<T(!new)>(lt: (T, T) -> bool, k: T, a: seq<T>, e: T)
    requires StrictWeak(lt) && Sorted(lt, a) && a != [] && lt(e, a[0]) && Tied(lt, k, e)
    ensures Ties(lt, k, a) == []
  {
    hide Ties;
    forall i | 0 <= i < |a| ensures !Tied(lt, k, a[i]) {
      assert i > 0 ==> !lt(a[i], a[0]);
    }
    NoTies(lt, k, a);
  }

  /** So does taking the head of b when it is less than all of a. */
  lemma TiesTakeSecond<T(!new)>(lt: (T, T) -> bool, k: T, a: seq<T>, b: seq<T>, m: seq<T>)
    requires StrictWeak(lt) && Sorted(lt, a) && a != [] && b != [] && lt(b[0], a[0])
    requires Ties(lt, k, m) == Ties(lt, k, a + b[1..])
    ensures Ties(lt, k, [b[0]] + m) == Ties(lt, k, a + b)
  {
    hide StrictWeak, Sorted, Ties;
    TiesAppend(lt, k, a, b);
    TiesAppend(lt, k, a, b[1..]);
    TiesHead(lt, k, b);
    TiesHead(lt, k, [b[0]] + m);
    assert ([b[0]] + m)[1..] == m;
    if Tied(lt, k, b[0]) {
      NoneTiedAbove(lt, k, a, b[0]);
    }
    PastNone(if Tied(lt, k, b[0]) then [b[0]] else [], Ties(lt, k, a), Ties(lt, k, b[1..]));
  }

  lemma PastNone<T>(e: seq<T>, a: seq<T>, b: seq<T>)
    requires e == [] || a == []
    ensures e + (a + b) == a + (e + b)
  {
  }

  /** Merging sorted inputs gives the stable sort of their concatenation. */
  lemma {:induction false} MergeStable<T(!new)>(lt: (T, T) -> bool, a: seq<T>, b: seq<T>)
    requires StrictWeak(lt) && Sorted(lt, a) && Sorted(lt, b)
    ensures IsStableSort(lt, a + b, Merge(lt, a, b))
    decreases |a| + |b|
  {
    if a == [] {
      assert a + b == b;
    } else if b == [] {
      assert a + b == a;
    } else {
      hide Ties, Merge;
      var fromB := lt(b[0], a[0]);
      var a', b' := if fromB then a else a[1..], if fromB then b[1..] else b;
      var h, m := if fromB then b[0] else a[0], Merge(lt, a', b');
      MergeStable(lt, a', b');
      assert NoneBelow(lt, h, a) && NoneBelow(lt, h, b) by {
        HeadIsLeast(lt, a);
        HeadIsLeast(lt, b);
      }
      MergeNoneBelow(lt, h, a', b');
      hide StrictWeak, Sorted, NoneBelow;
      SortedCons(lt, h, m);
      forall k ensures Ties(lt, k, [h] + m) == Ties(lt, k, a + b) {
        if fromB {
          TiesTakeSecond(lt, k, a, b, m);
        } else {
          TiesTakeFirst(lt, k, a, b, m);
        }
      }
      if fromB { MergeTakesSecond(lt, a, b); } else { MergeTakesFirst(lt, a, b); }
    }
  }

  /** Sort meets the specification of a stable sort. */
  lemma {:induction false} SortStable<T(!new)>(lt: (T, T) -> bool, s: seq<T>)
    requires StrictWeak(lt)
    ensures IsStableSort(lt, s, Sort(lt, s))
  {
    if s != [] {
      var rest := Sort(lt, s[1..]);
      SortStable(lt, s[1..]);
      MergeStable(lt, [s[0]], rest);
      forall k ensures Ties(lt, k, Sort(lt, s)) == Ties(lt, k, s) {
        TiesAppend(lt, k, [s[0]], rest);
        TiesAppend(lt, k, [s[0]], s[1..]);
        assert s == [s[0]] + s[1..];
      }
    }
  }

  /** Divide and conquer: sorting the halves and merging sorts the whole. */
  lemma SortByHalves<T(!new)>(lt: (T, T) -> bool, a: seq<T>, b: seq<T>)
    requires StrictWeak(lt)
    ensures Merge(lt, Sort(lt, a), Sort(lt, b)) == Sort(lt, a + b)
  {
    var p, q := Sort(lt, a), Sort(lt, b);
    SortStable(lt, a);
    SortStable(lt, b);
    SortStable(lt, a + b);
    MergeStable(lt, p, q);
    forall k ensures Ties(lt, k, Merge(lt, p, q)) == Ties(lt, k, Sort(lt, a + b)) {
      TiesAppend(lt, k, p, q);
      TiesAppend(lt, k, a, b);
    }
    StableSortUnique(lt, Merge(lt, p, q), Sort(lt, a + b));
  }

  // ---------- Splitting a merge ----------

  /** Everything before the cut (i, j) may be output before everything after it:
      a goes first on ties, so a left a-element needs only not to be greater. */
  ghost predicate IsCut<T>(lt: (T, T) -> bool, a: seq<T>, b: seq<T>, i: nat, j: nat) {
    && i <= |a| && j <= |b|
    && (forall p, q :: 0 <= p < i && j <= q < |b| ==> !lt(b[q], a[p]))
    && (forall p, q :: i <= p < |a| && 0 <= q < j ==> lt(b[q], a[p]))
  }

  lemma CutWithoutFirst<T>(lt: (T, T) -> bool, a: seq<T>, b: seq<T>, i: nat, j: nat)
    requires IsCut(lt, a, b, i, j) && i > 0
    ensures IsCut(lt, a[1..], b, i - 1, j)
  {
  }

  lemma CutWithoutSecond<T>(lt: (T, T) -> bool, a: seq<T>, b: seq<T>, i: nat, j: nat)
    requires IsCut(lt, a, b, i, j) && j > 0
    ensures IsCut(lt, a, b[1..], i, j - 1)
  {
  }

  /** Which side goes first before a cut goes first in the whole, too. */
  lemma CutHeads<T>(lt: (T, T) -> bool, a: seq<T>, b: seq<T>, i: nat, j: nat)
    requires IsCut(lt, a, b, i, j) && i + j > 0
    ensures !(j > 0 && (a == [] || lt(b[0], a[0]))) ==> i > 0 && (b == [] || !lt(b[0], a[0]))
  {
  }

  lemma SlicesOfTail<T>(s: seq<T>, i: nat)
    requires 0 < i <= |s|
    ensures s[1..][..i - 1] == s[..i][1..] && s[1..][i - 1..] == s[i..] && s[..i][0] == s[0]
  {
  }

  lemma EmptyCut<T>(lt: (T, T) -> bool, a: seq<T>, b: seq<T>)
    ensures Merge(lt, a, b) == Merge(lt, a[..0], b[..0]) + Merge(lt, a[0..], b[0..])
  {
    assert a[..0] == [] && b[..0] == [] && a[0..] == a && b[0..] == b;
  }

  /** If both the whole and its first part take the same head, the rest decides. */
  lemma SecondOfBoth<T>(lt: (T, T) -> bool, a: seq<T>, b: seq<T>, al: seq<T>, bl: seq<T>, r: seq<T>)
    requires b != [] && (a == [] || lt(b[0], a[0])) && bl != [] && bl[0] == b[0]
    requires al == [] || (a != [] && al[0] == a[0])
    requires Merge(lt, a, b[1..]) == Merge(lt, al, bl[1..]) + r
    ensures Merge(lt, a, b) == Merge(lt, al, bl) + r
  {
    hide Merge;
    MergeTakesSecond(lt, a, b);
    MergeTakesSecond(lt, al, bl);
    Regroup([b[0]], Merge(lt, al, bl[1..]), r);
  }

  lemma FirstOfBoth<T>(lt: (T, T) -> bool, a: seq<T>, b: seq<T>, al: seq<T>, bl: seq<T>, r: seq<T>)
    requires a != [] && (b == [] || !lt(b[0], a[0])) && al != [] && al[0] == a[0]
    requires bl == [] || (b != [] && bl[0] == b[0])
    requires Merge(lt, a[1..], b) == Merge(lt, al[1..], bl) + r
    ensures Merge(lt, a, b) == Merge(lt, al, bl) + r
  {
    hide Merge;
    MergeTakesFirst(lt, a, b);
    MergeTakesFirst(lt, al, bl);
    Regroup([a[0]], Merge(lt, al[1..], bl), r);
  }

  lemma CutInside<T>(lt: (T, T) -> bool, a: seq<T>, b: seq<T>, i: nat, j: nat)
    requires IsCut(lt, a, b, i, j)
    ensures i <= |a| && j <= |b|
  {
  }

  /** Cutting a merge in two and concatenating the results changes nothing. */
  lemma {:induction false} MergeSplits<T>(lt: (T, T) -> bool, a: seq<T>, b: seq<T>, i: nat, j: nat)
    requires IsCut(lt, a, b, i, j)
    ensures i <= |a| && j <= |b|
    ensures Merge(lt, a, b) == Merge(lt, a[..i], b[..j]) + Merge(lt, a[i..], b[j..])
    decreases i + j
  {
    hide IsCut, Merge;
    CutInside(lt, a, b, i, j);
    if i + j > 0 {
      CutHeads(lt, a, b, i, j);
    }
    if i == 0 && j == 0 {
      EmptyCut(lt, a, b);
    } else if 0 < j && (a == [] || lt(b[0], a[0])) {
      CutWithoutSecond(lt, a, b, i, j);
      MergeSplits(lt, a, b[1..], i, j - 1);
      SlicesOfTail(b, j);
      SecondOfBoth(lt, a, b, a[..i], b[..j], Merge(lt, a[i..], b[j..]));
    } else {
      CutWithoutFirst(lt, a, b, i, j);
      MergeSplits(lt, a[1..], b, i - 1, j);
      SlicesOfTail(a, i);
      FirstOfBoth(lt, a, b, a[..i], b[..j], Merge(lt, a[i..], b[j..]));
    }
  }

  /** Does e lie left of where v would be inserted: last among its ties for
      std::upper_bound, first among them for std::lower_bound? */
  predicate Before<T>(lt: (T, T) -> bool, upper: bool, e: T, v: T) {
    if upper then !lt(v, e) else lt(e, v)
  }

  /** The bound of v in s is known to lie in [first, first + len]. */
  ghost predicate Narrowed<T>(lt: (T, T) -> bool, upper: bool, s: seq<T>, v: T, first: nat, len: nat) {
    && first + len <= |s|
    && (forall p :: 0 <= p < first ==> Before(lt, upper, s[p], v))
    && (forall p :: first + len <= p < |s| ==> !Before(lt, upper, s[p], v))
  }

  /** One comparison of a binary search halves the range. */
  lemma Narrow<T(!new)>(lt: (T, T) -> bool, upper: bool, s: seq<T>, v: T, first: nat, len: nat, mid: nat)
    requires StrictWeak(lt) && Sorted(lt, s) && Narrowed(lt, upper, s, v, first, len)
    requires first <= mid < first + len
    ensures Before(lt, upper, s[mid], v) ==> Narrowed(lt, upper, s, v, mid + 1, first + len - (mid + 1))
    ensures !Before(lt, upper, s[mid], v) ==> Narrowed(lt, upper, s, v, first, mid - first)
  {
    forall p, q | 0 <= p <= q < |s| && Before(lt, upper, s[q], v) ensures Before(lt, upper, s[p], v) {
      assert p < q ==> !lt(s[q], s[p]);
    }
  }

  /** The merge's choice of split point gives a cut, whichever side is longer:
      upper_bound in a when b is split in the middle, lower_bound in b when a is.
      With the bounds exchanged a tie would be broken the wrong way. */
  lemma BoundCuts<T(!new)>(lt: (T, T) -> bool, a: seq<T>, b: seq<T>, i: nat, j: nat, upper: bool)
    requires StrictWeak(lt) && Sorted(lt, a) && Sorted(lt, b)
    requires if upper then j < |b| && Narrowed(lt, true, a, b[j], i, 0)
             else i < |a| && Narrowed(lt, false, b, a[i], j, 0)
    ensures IsCut(lt, a, b, i, j)
  {
    forall p, q | 0 <= p < i && j <= q < |b| ensures !lt(b[q], a[p]) {
      assert upper ==> Before(lt, true, a[p], b[j]) && !lt(b[q], b[j]);
      assert !upper ==> !Before(lt, false, b[q], a[i]) && !lt(a[i], a[p]);
    }
    forall p, q | i <= p < |a| && 0 <= q < j ensures lt(b[q], a[p]) {
      assert upper ==> !Before(lt, true, a[p], b[j]) && !lt(b[j], b[q]);
      assert !upper ==> Before(lt, false, b[q], a[i]) && !lt(a[p], a[i]);
    }
  }
}
