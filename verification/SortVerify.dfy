/** parallel_verify: units check the order of a distributed array, each its own block and
    the boundary to the left of it. */
module SortVerify {
  import opened StableOrder

  /** Unit u of a team holds a[cuts[u]..cuts[u + 1]): non-empty blocks, side by side. */
  predicate IsDistribution(cuts: seq<nat>, n: nat) {
    && |cuts| >= 2 && cuts[0] == 0 && cuts[|cuts| - 1] == n
    && forall u :: 0 <= u < |cuts| - 1 ==> cuts[u] < cuts[u + 1]
  }

  /** Nothing is less than what stands right before it: at k, and within [lo, hi). */
  predicate InOrderAt<T>(lt: (T, T) -> bool, a: seq<T>, k: nat) {
    0 < k < |a| ==> !lt(a[k], a[k - 1])
  }

  ghost predicate Ascends<T>(lt: (T, T) -> bool, a: seq<T>, lo: nat, hi: nat) {
    forall k :: lo < k < hi ==> InOrderAt(lt, a, k)
  }

  /** What unit myid sees: its own block, and the last element of its left neighbour. */
  ghost predicate UnitPasses<T>(lt: (T, T) -> bool, a: seq<T>, cuts: seq<nat>, myid: nat)
    requires IsDistribution(cuts, |a|) && myid < |cuts| - 1
  {
    Ascends(lt, a, cuts[myid], cuts[myid + 1]) && (myid > 0 ==> InOrderAt(lt, a, cuts[myid]))
  }

  /** The block of a unit is in order: only then does the unit go on to the boundary
      test and the team's barrier. */
  ghost predicate Enters<T>(lt: (T, T) -> bool, a: seq<T>, cuts: seq<nat>, myid: nat)
    requires IsDistribution(cuts, |a|) && myid < |cuts| - 1
  {
    Ascends(lt, a, cuts[myid], cuts[myid + 1])
  }

  /** The test as unit myid runs it: what it decides, and whether it comes by the barrier. */
  method ParallelVerify<T>(lt: (T, T) -> bool, a: array<T>, cuts: seq<nat>, myid: nat) returns (ok: bool, barrier: bool)
    requires IsDistribution(cuts, a.Length) && myid < |cuts| - 1
    ensures ok <==> UnitPasses(lt, a[..], cuts, myid)
    ensures barrier <==> Enters(lt, a[..], cuts, myid)
  {
    CutsGrow(cuts, a.Length, 0, myid);
    CutsGrow(cuts, a.Length, myid + 1, |cuts| - 1);
    var lbegin, nl := cuts[myid], cuts[myid + 1] - cuts[myid];
    var nerror := 0;
    for idx := 1 to nl
      invariant nerror == 0 <==> Ascends(lt, a[..], lbegin, lbegin + idx)
    {
      var it := lbegin + idx;
      assert lt(a[it], a[it - 1]) <==> !InOrderAt(lt, a[..], it);
      if lt(a[it], a[it - 1]) {
        nerror := nerror + 1;
      }
    }
    if nerror > 0 { return false, false; }
    if myid > 0 {
      var prev_idx := lbegin - 1;
      if lt(a[lbegin], a[prev_idx]) {
        nerror := nerror + 1;
      }
    }
    return nerror == 0, true;
  }

  lemma {:induction false} CutsGrow(cuts: seq<nat>, n: nat, u: nat, v: nat)
    requires IsDistribution(cuts, n) && u <= v < |cuts|
    ensures cuts[u] + (v - u) <= cuts[v]
  {
    if u < v { CutsGrow(cuts, n, u, v - 1); }
  }

  /** Every position belongs to some unit. */
  lemma {:induction false} UnitOf(cuts: seq<nat>, n: nat, k: nat, from: nat) returns (u: nat)
    requires IsDistribution(cuts, n) && from < |cuts| && k < cuts[from]
    ensures u < from && cuts[u] <= k < cuts[u + 1]
  {
    u := from - 1;
    if k < cuts[u] { u := UnitOf(cuts, n, k, u); }
  }

  /** Neighbours in order make everything in order. */
  lemma {:induction false} AscendingIsSorted<T(!new)>(lt: (T, T) -> bool, a: seq<T>, i: nat, j: nat)
    requires StrictWeak(lt) && Ascends(lt, a, 0, |a|) && i < j < |a|
    ensures !lt(a[j], a[i])
  {
    if i < j - 1 {
      AscendingIsSorted(lt, a, i, j - 1);
      assert InOrderAt(lt, a, j) && !lt(a[j - 1], a[i]);
    } else {
      assert InOrderAt(lt, a, j);
    }
  }

  /** The distributed test is the global one: all units pass exactly when the whole array
      is sorted, however it is distributed. */
  lemma AllPassIffSorted<T(!new)>(lt: (T, T) -> bool, a: seq<T>, cuts: seq<nat>)
    requires StrictWeak(lt) && IsDistribution(cuts, |a|)
    ensures (forall u :: 0 <= u < |cuts| - 1 ==> UnitPasses(lt, a, cuts, u)) <==> Sorted(lt, a)
  {
    if forall u :: 0 <= u < |cuts| - 1 ==> UnitPasses(lt, a, cuts, u) {
      forall k | 0 < k < |a| ensures InOrderAt(lt, a, k) {
        var u := UnitOf(cuts, |a|, k, |cuts| - 1);
        assert UnitPasses(lt, a, cuts, u);
      }
      forall i, j | 0 <= i < j < |a| ensures !lt(a[j], a[i]) {
        AscendingIsSorted(lt, a, i, j);
      }
    }
  }

  /** A barrier lets a unit go when all units of the team have entered it. */
  ghost predicate Returns<T>(lt: (T, T) -> bool, a: seq<T>, cuts: seq<nat>, myid: nat)
    requires IsDistribution(cuts, |a|) && myid < |cuts| - 1
  {
    Enters(lt, a, cuts, myid) ==> forall u :: 0 <= u < |cuts| - 1 ==> Enters(lt, a, cuts, u)
  }

  /** All units return exactly if all blocks are in order or none is; with one block in
      order and another not, the former's unit waits for ever. */
  lemma AllReturnIff<T>(lt: (T, T) -> bool, a: seq<T>, cuts: seq<nat>)
    requires IsDistribution(cuts, |a|)
    ensures (forall u :: 0 <= u < |cuts| - 1 ==> Returns(lt, a, cuts, u)) <==>
            || (forall u :: 0 <= u < |cuts| - 1 ==> Enters(lt, a, cuts, u))
            || (forall u :: 0 <= u < |cuts| - 1 ==> !Enters(lt, a, cuts, u))
  {
    hide Enters;
    if exists u :: 0 <= u < |cuts| - 1 && Enters(lt, a, cuts, u) {
      var u :| 0 <= u < |cuts| - 1 && Enters(lt, a, cuts, u);
      if forall v :: 0 <= v < |cuts| - 1 ==> Returns(lt, a, cuts, v) {
        assert Returns(lt, a, cuts, u);
      }
    }
  }

  /** Of two units with the blocks [0] and [2, 1], the first one waits for ever. */
  lemma SomebodyWaits()
    ensures var lt, a, cuts := (x: int, y: int) => x < y, [0, 2, 1], [0, 1, 3];
            && IsDistribution(cuts, |a|) && Enters(lt, a, cuts, 0) && !Enters(lt, a, cuts, 1)
            && !Returns(lt, a, cuts, 0) && Returns(lt, a, cuts, 1)
  {
    var lt, a, cuts := (x: int, y: int) => x < y, [0, 2, 1], [0, 1, 3];
    assert !InOrderAt(lt, a, 2);
    assert !Enters(lt, a, cuts, 1);
  }

  /** On a sorted array all units pass and return. */
  lemma SortedReturns<T(!new)>(lt: (T, T) -> bool, a: seq<T>, cuts: seq<nat>)
    requires StrictWeak(lt) && IsDistribution(cuts, |a|) && Sorted(lt, a)
    ensures forall u :: 0 <= u < |cuts| - 1 ==> UnitPasses(lt, a, cuts, u) && Returns(lt, a, cuts, u)
  {
    AllPassIffSorted(lt, a, cuts);
    forall u | 0 <= u < |cuts| - 1 ensures Enters(lt, a, cuts, u) {
      assert UnitPasses(lt, a, cuts, u);
    }
  }
}
