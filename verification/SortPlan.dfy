/** What a parallel sort consists of: the base cases and serial merges of the sequential
    recursion, as a reference for all its versions. */
module SortPlan {
  import opened StableOrder
  import opened MergePlan

  /** A base case of n keys at xs, with the buffer at zs, in a mode; or a serial merge,
      from the buffer back into place or from place into the buffer. */
  datatype Job = BaseSort(xs: nat, zs: nat, n: nat, inplace: int) | SerialMerge(back: bool, leaf: Leaf)

  function Merges(back: bool, leaves: seq<Leaf>): (jobs: seq<Job>)
    ensures |jobs| == |leaves|
  {
    seq(|leaves|, i requires 0 <= i < |leaves| => SerialMerge(back, leaves[i]))
  }

  /** Up to 500 keys are a base case. More are halved, the halves sorted in the other
      mode, and their merge is cut up; modes 1 and 2 merge back into place. */
  ghost function Plan<T(!new)>(lt: (T, T) -> bool, keys: seq<T>, xs: nat, zs: nat, inplace: int): seq<Job>
    requires StrictWeak(lt)
    decreases |keys|
  {
    if |keys| <= 500 then [BaseSort(xs, zs, |keys|, inplace)]
    else
      var h := |keys| / 2;
      var a, b, mode := Sort(lt, keys[..h]), Sort(lt, keys[h..]), if inplace == 0 then 1 else 0;
      SortStable(lt, keys[..h]);
      SortStable(lt, keys[h..]);
      Plan(lt, keys[..h], xs, zs, mode) + Plan(lt, keys[h..], xs + h, zs + h, mode)
      + Merges(inplace != 0,
               if inplace != 0 then Leaves(lt, a, b, zs, zs + h, xs) else Leaves(lt, a, b, xs, xs + h, zs))
  }

  lemma PlanSmall<T(!new)>(lt: (T, T) -> bool, keys: seq<T>, xs: nat, zs: nat, inplace: int)
    requires StrictWeak(lt) && |keys| <= 500
    ensures Plan(lt, keys, xs, zs, inplace) == [BaseSort(xs, zs, |keys|, inplace)]
  {
  }

  lemma PlanHalves<T(!new)>(lt: (T, T) -> bool, keys: seq<T>, xs: nat, zs: nat, inplace: int)
    requires StrictWeak(lt) && |keys| > 500
    ensures var h := |keys| / 2;
            var a, b, mode := Sort(lt, keys[..h]), Sort(lt, keys[h..]), if inplace == 0 then 1 else 0;
            && Sorted(lt, a) && Sorted(lt, b)
            && Plan(lt, keys, xs, zs, inplace) ==
                 Plan(lt, keys[..h], xs, zs, mode) + Plan(lt, keys[h..], xs + h, zs + h, mode)
                 + Merges(inplace != 0,
                          if inplace != 0 then Leaves(lt, a, b, zs, zs + h, xs) else Leaves(lt, a, b, xs, xs + h, zs))
  {
    hide Sort, Sorted, Leaves, IsStableSort;
    SortIsSorted(lt, keys[..|keys| / 2]);
    SortIsSorted(lt, keys[|keys| / 2..]);
  }

  lemma SortIsSorted<T(!new)>(lt: (T, T) -> bool, keys: seq<T>)
    requires StrictWeak(lt)
    ensures Sorted(lt, Sort(lt, keys)) && |Sort(lt, keys)| == |keys|
  {
    SortStable(lt, keys);
  }

  // ---------- Base cases ----------

  /** Where the base cases are and how many keys they have, in order. */
  function Bases(jobs: seq<Job>): seq<(nat, nat)> {
    if jobs == [] then []
    else (if jobs[0].BaseSort? then [(jobs[0].xs, jobs[0].n)] else []) + Bases(jobs[1..])
  }

  lemma {:induction false} BasesConcat(a: seq<Job>, b: seq<Job>)
    ensures Bases(a + b) == Bases(a) + Bases(b)
  {
    if a == [] {
      assert a + b == b;
    } else {
      var first := if a[0].BaseSort? then [(a[0].xs, a[0].n)] else [];
      assert (a + b)[0] == a[0] && (a + b)[1..] == a[1..] + b;
      BasesConcat(a[1..], b);
      assert Bases(a + b) == first + (Bases(a[1..]) + Bases(b));
    }
  }

  lemma {:induction false} NoBases(back: bool, leaves: seq<Leaf>)
    ensures Bases(Merges(back, leaves)) == []
  {
    if leaves != [] {
      assert Merges(back, leaves)[1..] == Merges(back, leaves[1..]);
      NoBases(back, leaves[1..]);
    }
  }

  /** Ranges side by side from a to b, each of at most 500 elements and at least least. */
  predicate Tile(ranges: seq<(nat, nat)>, a: nat, b: nat, least: nat) {
    if ranges == [] then a == b
    else ranges[0].0 == a && least <= ranges[0].1 <= 500 && Tile(ranges[1..], a + ranges[0].1, b, least)
  }

  lemma {:induction false} TileConcat(r: seq<(nat, nat)>, s: seq<(nat, nat)>, a: nat, b: nat, c: nat, least: nat)
    requires Tile(r, a, b, least) && Tile(s, b, c, least)
    ensures Tile(r + s, a, c, least)
  {
    if r == [] {
      assert r + s == s;
    } else {
      assert (r + s)[1..] == r[1..] + s;
      TileConcat(r[1..], s, a + r[0].1, b, c, least);
    }
  }

  /** The base cases sort the range piece by piece, each key in exactly one of them; if the
      range is divided at all, each has between 250 and 500 keys. */
  lemma {:induction false} BasesTile<T(!new)>(lt: (T, T) -> bool, keys: seq<T>, xs: nat, zs: nat, inplace: int)
    requires StrictWeak(lt)
    ensures Tile(Bases(Plan(lt, keys, xs, zs, inplace)), xs, xs + |keys|, if |keys| > 500 then 250 else |keys|)
    decreases |keys|, 0
  {
    hide Plan, Sort, Sorted, Leaves;
    if |keys| <= 500 {
      PlanSmall(lt, keys, xs, zs, inplace);
    } else {
      PlanHalves(lt, keys, xs, zs, inplace);
      var h, mode := |keys| / 2, if inplace == 0 then 1 else 0;
      var a, b := Sort(lt, keys[..h]), Sort(lt, keys[h..]);
      var leaves := if inplace != 0 then Leaves(lt, a, b, zs, zs + h, xs) else Leaves(lt, a, b, xs, xs + h, zs);
      var l, r := Plan(lt, keys[..h], xs, zs, mode), Plan(lt, keys[h..], xs + h, zs + h, mode);
      AtLeast250(lt, keys[..h], xs, zs, mode);
      AtLeast250(lt, keys[h..], xs + h, zs + h, mode);
      TileConcat(Bases(l), Bases(r), xs, xs + h, xs + |keys|, 250);
      BasesConcat(l, r);
      BasesConcat(l + r, Merges(inplace != 0, leaves));
      NoBases(inplace != 0, leaves);
      assert Bases(l + r) + [] == Bases(l + r);
    }
  }

  lemma AtLeast250<T(!new)>(lt: (T, T) -> bool, keys: seq<T>, xs: nat, zs: nat, inplace: int)
    requires StrictWeak(lt) && |keys| >= 250
    ensures Tile(Bases(Plan(lt, keys, xs, zs, inplace)), xs, xs + |keys|, 250)
    decreases |keys|, 1
  {
    hide Plan;
    BasesTile(lt, keys, xs, zs, inplace);
    if |keys| <= 500 {
      PlanSmall(lt, keys, xs, zs, inplace);
    }
  }
}
