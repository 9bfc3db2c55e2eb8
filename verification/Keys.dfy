/** Slots of memory that may hold a key, and the only operations on them. Each
    operation demands what the assertions of the checked Key class demand; in
    addition a slot is never constructed twice without a destruction between. */
module Keys {

  /** Raw: never constructed, or destroyed. Empty: constructed, but moved from
      or default-initialised. Live: holds a key that may be compared. */
  datatype Slot<+T> = Raw | Empty | Live(key: T) {
    predicate Constructed() {
      !Raw?
    }
  }

  /** The global count of extant keys. */
  class KeyCounter {
    var extant: int
    constructor ()
      ensures extant == 0
    {
      extant := 0;
    }
  }

  method DefaultConstruct<T>(count: KeyCounter, a: array<Slot<T>>, i: nat)
    requires i < a.Length && a[i].Raw?
    modifies count, a
    ensures a[..] == old(a[..])[i := Empty]
    ensures count.extant == old(count.extant) + 1
  {
    a[i] := Empty;
    count.extant := count.extant + 1;
  }

  method MoveConstruct<T>(count: KeyCounter, a: array<Slot<T>>, i: nat, from: array<Slot<T>>, j: nat)
    requires i < a.Length && j < from.Length
    requires a[i].Raw? && from[j].Constructed()
    modifies count, a, from
    ensures a != from ==> a[..] == old(a[..])[i := old(from[j])] && from[..] == old(from[..])[j := Empty]
    ensures a == from ==> a[..] == old(a[..])[i := old(from[j])][j := Empty]
    ensures count.extant == old(count.extant) + 1
  {
    a[i] := from[j];
    from[j] := Empty;
    count.extant := count.extant + 1;
  }

  method MoveAssign<T>(a: array<Slot<T>>, i: nat, from: array<Slot<T>>, j: nat)
    requires i < a.Length && j < from.Length
    requires a[i].Constructed() && from[j].Constructed()
    modifies a, from
    ensures a != from ==> a[..] == old(a[..])[i := old(from[j])] && from[..] == old(from[..])[j := Empty]
    ensures a == from ==> a[..] == old(a[..])[i := old(from[j])][j := Empty]
  {
    a[i] := from[j];
    from[j] := Empty;
  }

  method Destroy<T>(count: KeyCounter, a: array<Slot<T>>, i: nat)
    requires i < a.Length && a[i].Constructed()
    modifies count, a
    ensures a[..] == old(a[..])[i := Raw]
    ensures count.extant == old(count.extant) - 1
  {
    a[i] := Raw;
    count.extant := count.extant - 1;
  }

  method Less<T>(lt: (T, T) -> bool, a: array<Slot<T>>, i: nat, j: nat) returns (b: bool)
    requires i < a.Length && j < a.Length
    requires a[i].Live? && a[j].Live?
    ensures b == lt(a[i].key, a[j].key)
  {
    b := lt(a[i].key, a[j].key);
  }

  // ---------- Describing ranges of slots ----------

  /** m[lo..] starts with exactly these keys, all live. */
  ghost predicate Holds<T>(m: seq<Slot<T>>, lo: nat, keys: seq<T>) {
    && lo + |keys| <= |m|
    && forall k :: lo <= k < lo + |keys| ==> m[k] == Live(keys[k - lo])
  }

  ghost predicate AllAre<T>(m: seq<Slot<T>>, lo: nat, hi: nat, s: Slot<T>) {
    hi <= |m| && forall k :: lo <= k < hi ==> m[k] == s
  }

  ghost predicate AllLive<T>(m: seq<Slot<T>>, lo: nat, hi: nat) {
    lo <= hi <= |m| && forall k :: lo <= k < hi ==> m[k].Live?
  }

  ghost predicate AllConstructed<T>(m: seq<Slot<T>>, lo: nat, hi: nat) {
    lo <= hi <= |m| && forall k :: lo <= k < hi ==> m[k].Constructed()
  }

  /** The keys in a range of live slots. */
  ghost function KeysIn<T>(m: seq<Slot<T>>, lo: nat, hi: nat): (keys: seq<T>)
    requires AllLive(m, lo, hi)
    ensures |keys| == hi - lo && Holds(m, lo, keys)
  {
    seq(hi - lo, i requires 0 <= i < hi - lo => m[lo + i].key)
  }

  /** m' differs from m only in [lo, hi). */
  ghost predicate SameOutside<T>(m: seq<Slot<T>>, m': seq<Slot<T>>, lo: nat, hi: nat) {
    |m| == |m'| && forall k :: 0 <= k < |m| && !(lo <= k < hi) ==> m'[k] == m[k]
  }

  lemma HoldsUnique<T>(m: seq<Slot<T>>, lo: nat, p: seq<T>, q: seq<T>)
    requires Holds(m, lo, p) && Holds(m, lo, q) && |p| == |q|
    ensures p == q
  {
    forall k | 0 <= k < |p| ensures p[k] == q[k] {
      assert m[lo + k] == Live(p[k]) && m[lo + k] == Live(q[k]);
    }
  }
}
