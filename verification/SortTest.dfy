/** The sort's own test program: what it checks, what it misses, and that the sort
    always passes. */
module SortTest {
  import opened StableOrder
  import opened Keys
  import opened OpenMPSort

  const N_MAX: nat := 1_000_000

  datatype IndexedValue = IndexedValue(value: int, index: int)

  /** KeyCompare: only the values are compared. */
  const ByValue: (IndexedValue, IndexedValue) -> bool := (j: IndexedValue, k: IndexedValue) => j.value < k.value

  /** CreateDataSet: key i gets an arbitrary value and remembers its position. */
  function DataSet(values: seq<int>): (keys: seq<IndexedValue>)
    ensures |keys| == |values|
  {
    seq(|values|, i requires 0 <= i < |values| => IndexedValue(values[i], i))
  }

  predicate InOrder(j: IndexedValue, k: IndexedValue) {
    j.value < k.value || (j.value == k.value && j.index <= k.index)
  }

  ghost predicate DistinctIndices(keys: seq<IndexedValue>) {
    forall i, j :: 0 <= i < j < |keys| ==> keys[i].index != keys[j].index
  }

  ghost predicate HasIndex(keys: seq<IndexedValue>, k: int) {
    exists i :: 0 <= i < |keys| && keys[i].index == k
  }

  /** The next key adds its index; if it was there before, the indices are not distinct. */
  lemma OneIndexMore(a: seq<IndexedValue>, i: nat)
    requires i < |a|
    ensures forall k :: HasIndex(a[..i + 1], k) <==> HasIndex(a[..i], k) || a[i].index == k
    ensures DistinctIndices(a[..i]) && !HasIndex(a[..i], a[i].index) ==> DistinctIndices(a[..i + 1])
    ensures HasIndex(a[..i], a[i].index) ==> !DistinctIndices(a)
  {
    var s, t := a[..i], a[..i + 1];
    assert t[i] == a[i] && forall p :: 0 <= p < i ==> t[p] == s[p] == a[p];
    forall k | HasIndex(s, k) ensures HasIndex(t, k) {
      var p :| 0 <= p < |s| && s[p].index == k;
      assert t[p].index == k;
    }
    if HasIndex(s, a[i].index) {
      var p :| 0 <= p < |s| && s[p].index == a[i].index;
      assert a[p].index == a[i].index;
    }
  }

  ghost predicate AllIndices(keys: seq<IndexedValue>) {
    forall k :: 0 <= k < |keys| ==> HasIndex(keys, k)
  }

  ghost predicate PairsInOrder(keys: seq<IndexedValue>, n: int) {
    forall i, j :: 0 <= i < n - 1 && n <= |keys| && j == i + 1 ==>
      keys[i].value < keys[j].value || (keys[i].value == keys[j].value && keys[i].index <= keys[j].index)
  }

  /** CheckIsSorted. Its last loop stops before the last pair, so it accepts
      exactly the arrangements of all indices whose first n-1 keys are in order. */
  method CheckIsSorted(keys: array<Slot<IndexedValue>>, n: nat) returns (ok: bool)
    requires n <= N_MAX && AllLive(keys[..], 0, n)
    requires forall i :: 0 <= i < n ==> 0 <= keys[i].key.index < N_MAX
    ensures ok <==> var a := KeysIn(keys[..], 0, n); DistinctIndices(a) && AllIndices(a) && PairsInOrder(a, n - 1)
  {
    ghost var a := KeysIn(keys[..], 0, n);
    var flag := new bool[N_MAX](_ => false);
    var i := 0;
    while i < n
      invariant i <= n
      invariant forall k :: 0 <= k < N_MAX ==> (flag[k] <==> HasIndex(a[..i], k))
      invariant DistinctIndices(a[..i])
    {
      assert keys[i] == Live(a[i]);
      var k := keys[i].key.index;
      OneIndexMore(a, i);
      if flag[k] {
        return false;
      }
      flag[k] := true;
      i := i + 1;
    }
    assert a[..i] == a;
    var full := forall k | 0 <= k < n :: flag[k];
    assert full <==> AllIndices(a);
    if !full {
      return false;
    }
    if n < 2 {
      return true;
    }
    i := 0;
    while i < n - 2
      invariant i <= n - 2 && PairsInOrder(a, i + 1)
    {
      assert keys[i] == Live(a[i]) && keys[i + 1] == Live(a[i + 1]);
      if !InOrder(keys[i].key, keys[i + 1].key) {
        return false;
      }
      i := i + 1;
    }
    return true;
  }

  /** The check's blind spot, with two keys already. */
  lemma CheckMissesLastPair()
    ensures var a := [IndexedValue(1, 0), IndexedValue(0, 1)];
            DistinctIndices(a) && AllIndices(a) && PairsInOrder(a, 1) && !PairsInOrder(a, 2)
  {
    var a := [IndexedValue(1, 0), IndexedValue(0, 1)];
    assert a[0].index == 0 && a[1].index == 1;
    assert !InOrder(a[0], a[1]);
  }

  /** What CheckIsSorted accepts, and what it is meant to accept. */
  ghost predicate Accepted(a: seq<IndexedValue>) {
    DistinctIndices(a) && AllIndices(a) && PairsInOrder(a, |a| - 1)
  }

  ghost predicate Right(a: seq<IndexedValue>) {
    DistinctIndices(a) && AllIndices(a) && PairsInOrder(a, |a|)
  }

  /** The check decides correctly exactly if there are fewer than two keys, or the last
      pair is in order, or something before the last pair is wrong already. */
  lemma WhenCheckIsRight(a: seq<IndexedValue>)
    ensures (Accepted(a) <==> Right(a)) <==>
            |a| < 2 || InOrder(a[|a| - 2], a[|a| - 1])
            || !DistinctIndices(a) || !AllIndices(a) || !PairsInOrder(a, |a| - 1)
  {
    if |a| >= 2 && PairsInOrder(a, |a| - 1) && InOrder(a[|a| - 2], a[|a| - 1]) {
      forall i | 0 <= i < |a| - 1 ensures InOrder(a[i], a[i + 1]) {
        assert i < |a| - 2 ==> InOrder(a[i], a[i + 1]);
      }
    }
  }

  lemma {:induction false} TiesInOrder(s: seq<IndexedValue>, k: IndexedValue, j: nat) returns (q: nat)
    requires j < |s| && Tied(ByValue, k, s[j])
    ensures q < |Ties(ByValue, k, s)| && Ties(ByValue, k, s)[q] == s[j]
    ensures forall i :: 0 <= i < j && Tied(ByValue, k, s[i]) ==>
            exists p :: 0 <= p < q && Ties(ByValue, k, s)[p] == s[i]
  {
    var t := Ties(ByValue, k, s);
    if j == 0 {
      q := 0;
    } else {
      var r := TiesInOrder(s[1..], k, j - 1);
      var t', d := Ties(ByValue, k, s[1..]), if Tied(ByValue, k, s[0]) then 1 else 0;
      q := r + d;
      forall i | 0 <= i < j && Tied(ByValue, k, s[i]) ensures exists p :: 0 <= p < q && t[p] == s[i] {
        if i == 0 {
          assert t[0] == s[0];
        } else {
          assert s[i] == s[1..][i - 1];
          var p :| 0 <= p < r && t'[p] == s[i];
          assert t[p + d] == s[i];
        }
      }
    }
  }

  lemma {:induction false} TiesAscend(values: seq<int>, k: IndexedValue, from: nat, p: nat, q: nat)
    requires from <= |values| && p < q < |Ties(ByValue, k, DataSet(values)[from..])|
    ensures var ties := Ties(ByValue, k, DataSet(values)[from..]); from <= ties[p].index < ties[q].index
    decreases |values| - from
  {
    var s := DataSet(values)[from..];
    assert s[1..] == DataSet(values)[from + 1..];
    var t := Ties(ByValue, k, s[1..]);
    if !Tied(ByValue, k, s[0]) {
      TiesAscend(values, k, from + 1, p, q);
    } else if p > 0 {
      TiesAscend(values, k, from + 1, p - 1, q - 1);
    } else {
      TiesFrom(values, k, from + 1, q - 1);
    }
  }

  lemma {:induction false} TiesFrom(values: seq<int>, k: IndexedValue, from: nat, q: nat)
    requires from <= |values| && q < |Ties(ByValue, k, DataSet(values)[from..])|
    ensures from <= Ties(ByValue, k, DataSet(values)[from..])[q].index
    decreases |values| - from
  {
    var s := DataSet(values)[from..];
    assert s[1..] == DataSet(values)[from + 1..];
    if !Tied(ByValue, k, s[0]) {
      TiesFrom(values, k, from + 1, q);
    } else if q > 0 {
      TiesFrom(values, k, from + 1, q - 1);
    }
  }

  /** In a stable sort of a data set all pairs are in order, the last one included. */
  lemma StableSortInOrder(values: seq<int>, out: seq<IndexedValue>)
    requires IsStableSort(ByValue, DataSet(values), out)
    ensures PairsInOrder(out, |out|)
  {
    forall i | 0 <= i < |out| - 1 ensures InOrder(out[i], out[i + 1]) {
      assert !ByValue(out[i + 1], out[i]);
      if out[i].value == out[i + 1].value {
        var k := out[i];
        var q := TiesInOrder(out, k, i + 1);
        var p :| 0 <= p < q && Ties(ByValue, k, out)[p] == out[i];
        assert DataSet(values)[0..] == DataSet(values);
        TiesAscend(values, k, 0, p, q);
      }
    }
  }

  lemma PermutedIndices(values: seq<int>, out: seq<IndexedValue>)
    requires multiset(out) == multiset(DataSet(values))
    ensures |out| == |values| && DistinctIndices(out) && AllIndices(out)
    ensures forall i :: 0 <= i < |out| ==> 0 <= out[i].index < |values|
  {
    var s := DataSet(values);
    assert |multiset(out)| == |multiset(s)|;
    forall i | 0 <= i < |out| ensures 0 <= out[i].index < |values| && s[out[i].index] == out[i] {
      assert out[i] in multiset(s);
    }
    forall k | 0 <= k < |out| ensures HasIndex(out, k) {
      assert s[k] in multiset(out);
    }
    forall i, j | 0 <= i < j < |out| ensures out[i].index != out[j].index {
      if out[i] == out[j] {
        TwiceIn(out, i, j);
        OnceOnly(s, out[i]);
      }
    }
  }

  lemma TwiceIn(s: seq<IndexedValue>, i: nat, j: nat)
    requires i < j < |s| && s[i] == s[j]
    ensures multiset(s)[s[i]] >= 2
  {
    assert s == s[..j] + s[j..];
    assert s[i] in s[..j] && s[j] in s[j..];
  }

  lemma OnceOnly(s: seq<IndexedValue>, e: IndexedValue)
    requires forall i, j :: 0 <= i < j < |s| ==> s[i] != s[j]
    ensures multiset(s)[e] <= 1
  {
    if e in s {
      var i :| 0 <= i < |s| && s[i] == e;
      assert s == s[..i] + [e] + s[i + 1..];
      assert e !in s[..i] && e !in s[i + 1..];
    }
  }

  /** What Test checks of a sort: that as many keys exist as before, and CheckIsSorted. */
  method Passes(count0: int, count1: int, keys: array<Slot<IndexedValue>>, n: nat) returns (ok: bool)
    requires n <= 1_000_000 && AllLive(keys[..], 0, n)
    requires forall i :: 0 <= i < n ==> 0 <= keys[i].key.index < 1_000_000
    ensures ok <==> count0 == count1 && Accepted(KeysIn(keys[..], 0, n))
  {
    if count0 != count1 {
      return false;
    }
    ok := CheckIsSorted(keys, n);
  }

  /** Test: whatever the random values, no check of the test program fails. */
  method Test(count: KeyCounter, values: seq<int>, obtained: bool) returns (ok: bool)
    requires |values| <= 1_000_000
    modifies count
    ensures ok
  {
    var n := |values|;
    var data := DataSet(values);
    var keys := new Slot<IndexedValue>[n](i requires 0 <= i < |data| => Live(data[i]));
    assert KeysIn(keys[..], 0, n) == data;
    var count0 := count.extant;
    ghost var plan := ParallelStableSort(count, ByValue, keys, 0, n, obtained);
    var count1 := count.extant;
    ghost var out := KeysIn(keys[..], 0, n);
    PermutedIndices(values, out);
    StableSortInOrder(values, out);
    assert forall i :: 0 <= i < n ==> keys[i] == Live(out[i]);
    ok := Passes(count0, count1, keys, n);
  }
}
