/** getneighs: the neighbour list of an image on a ring, or on a ring permuted by one
    permutation that all images share. */
module Neighbours {
  import opened Arithmetic
  import opened Permutations

  /** getpartner */
  function GetPartner(image: nat, partner: nat, numimages: nat): nat
    requires image >= 1 && numimages >= 1
  {
    (image + partner - 1) % numimages + 1
  }

  /** The position o places from position p around the ring. */
  function Around(p: nat, o: int, size: nat): nat
    requires size >= 1
  {
    (p - 1 + o) % size + 1
  }

  /** Offsets of the n neighbours: up to n/2 places either way. */
  predicate IsOffset(o: int, n: nat) {
    1 <= o <= n / 2 || 1 <= -o <= n / 2
  }

  /** Image v is a neighbour of image me. */
  ghost predicate IsNeighbour(perm: seq<nat>, n: nat, me: nat, v: nat)
    requires |perm| >= 1
  {
    exists p: nat, o: int :: 1 <= p <= |perm| && Linked(perm, n, me, v, p, o)
  }

  predicate Linked(perm: seq<nat>, n: nat, me: nat, v: nat, p: nat, o: int)
    requires 1 <= p <= |perm|
  {
    IsOffset(o, n) && perm[p - 1] == me && perm[Around(p, o, |perm|) - 1] == v
  }

  // ---------- Arithmetic around the ring ----------

  lemma AroundBack(p: nat, o: int, size: nat)
    requires 1 <= p <= size
    ensures 1 <= Around(p, o, size) <= size && Around(Around(p, o, size), -o, size) == p
  {
    var a := p - 1 + o;
    assert a == (a / size) * size + a % size;
    assert a % size - o == (-(a / size)) * size + (p - 1) by {
      assert (-(a / size)) * size == -((a / size) * size);
    }
    Remainder(p - 1, size, -(a / size), a % size - o);
  }

  /** Two offsets lead to the same place exactly when they differ by whole rounds. */
  lemma AroundSame(p: nat, o: int, o': int, size: nat)
    requires 1 <= p <= size
    ensures Around(p, o, size) == Around(p, o', size) <==> (o - o') % size == 0
  {
    var a, b := p - 1 + o, p - 1 + o';
    var qa, qb := a / size, b / size;
    assert a == qa * size + a % size && b == qb * size + b % size;
    assert (qa - qb) * size == qa * size - qb * size;
    if a % size == b % size {
      Remainder(0, size, qa - qb, o - o');
    }
    if (o - o') % size == 0 {
      var q := (o - o') / size;
      assert o - o' == q * size;
      assert (q + qb) * size == q * size + qb * size;
      Remainder(b % size, size, q + qb, a);
    }
  }

  /** The offsets that make n neighbours are all different places, and none our own,
      exactly when n is less than the number of images: the caller's guard. */
  lemma OffsetsApart(p: nat, n: nat, size: nat)
    requires 1 <= p <= size && n % 2 == 0
    ensures n < size ==> forall o, o' :: IsOffset(o, n) && IsOffset(o', n) && o != o' ==>
            Around(p, o, size) != Around(p, o', size)
    ensures n < size ==> forall o :: IsOffset(o, n) ==> Around(p, o, size) != p
    ensures n >= size > 0 && n > 0 ==>
              exists o, o' :: IsOffset(o, n) && (o' == 0 || IsOffset(o', n)) && o != o' &&
                  Around(p, o, size) == Around(p, o', size)
  {
    forall o, o' | n < size && IsOffset(o, n) && IsOffset(o', n) && o != o'
      ensures Around(p, o, size) != Around(p, o', size)
    {
      AroundSame(p, o, o', size);
      NotARound(o - o', size);
    }
    forall o | n < size && IsOffset(o, n) ensures Around(p, o, size) != p {
      AroundSame(p, o, 0, size);
      NotARound(o, size);
      Remainder(p - 1, size, 0, p - 1);
    }
    if n >= size > 0 && n > 0 {
      var o := n / 2;
      var o' := o - size;
      Remainder(0, size, 1, size);
      AroundSame(p, o, o', size);
      if o' > 0 {
        AroundSame(p, size, 0, size);
        assert IsOffset(size, n) && Around(p, size, size) == Around(p, 0, size);
      } else {
        assert IsOffset(o, n) && Around(p, o, size) == Around(p, o', size);
      }
    }
  }

  lemma NotARound(d: int, size: nat)
    requires d != 0 && d < size && d + size > 0
    ensures d % size != 0
  {
    if d > 0 {
      Remainder(d, size, 0, d);
    } else {
      Remainder(d + size, size, -1, d);
    }
  }

  /** Being neighbours is symmetric: offsets turn round. */
  lemma NeighboursSymmetric(perm: seq<nat>, n: nat, me: nat, v: nat)
    requires IsPermutation(perm, |perm|) && |perm| >= 1 && IsNeighbour(perm, n, me, v)
    ensures IsNeighbour(perm, n, v, me)
  {
    var p: nat, o: int :| 1 <= p <= |perm| && Linked(perm, n, me, v, p, o);
    AroundBack(p, o, |perm|);
    assert Linked(perm, n, v, me, Around(p, o, |perm|), -o);
  }

  /** getneighspair: the image half the machine away. */
  function PairOf(me: nat, numimages: nat): nat
    requires 1 <= me <= numimages
  {
    if me <= numimages / 2 then me + numimages / 2 else me - numimages / 2
  }

  predicate IsPaired(me: nat, numimages: nat) {
    && 1 <= me <= numimages && PairOf(me, numimages) != me
    && 1 <= PairOf(me, numimages) <= numimages && PairOf(PairOf(me, numimages), numimages) == me
  }

  /** Everybody's pair is half the machine away, and has it as a pair; only the last image
      of an odd number is left without. */
  lemma PairsMatch(numimages: nat, me: nat)
    requires 1 <= me <= numimages
    ensures 1 <= PairOf(me, numimages) <= numimages
    ensures PairOf(me, numimages) == me + numimages / 2 || PairOf(me, numimages) == me - numimages / 2
    ensures IsPaired(me, numimages) <==> numimages % 2 == 0 || me < numimages
  {
  }

  /** The places p and q of a ring are k steps apart, one way or the other. */
  predicate Apart(p: int, q: int, k: int, size: nat)
    requires size >= 1
  {
    (q - p - k) % size == 0 || (p - q - k) % size == 0
  }

  /** me and v are at the places p and q of the ring perm, k of at most n/2 steps apart. */
  predicate Near(perm: seq<nat>, n: nat, me: nat, v: nat, p: nat, q: nat, k: nat) {
    && 1 <= p <= |perm| && perm[p - 1] == me && 1 <= q <= |perm| && perm[q - 1] == v
    && 1 <= k <= n / 2 && Apart(p, q, k, |perm|)
  }

  /** Neighbours are the images at most n/2 steps away on the (permuted) ring. */
  lemma NeighboursAreNear(perm: seq<nat>, n: nat, me: nat, v: nat)
    requires |perm| >= 1
    ensures IsNeighbour(perm, n, me, v) <==> exists p: nat, q: nat, k: nat :: Near(perm, n, me, v, p, q, k)
  {
    hide Apart, Around;
    if IsNeighbour(perm, n, me, v) {
      var p: nat, o: int :| 1 <= p <= |perm| && Linked(perm, n, me, v, p, o);
      AroundBack(p, o, |perm|);
      AroundApart(p, Around(p, o, |perm|), o, |perm|);
      assert Near(perm, n, me, v, p, Around(p, o, |perm|), if o < 0 then -o else o);
    }
    if p: nat, q: nat, k: nat :| Near(perm, n, me, v, p, q, k) {
      var o: int := if (q - p - k) % |perm| == 0 then k else -(k as int);
      ApartAround(p, q, k, |perm|);
      assert Linked(perm, n, me, v, p, o);
    }
  }

  lemma AroundApart(p: nat, q: nat, o: int, size: nat)
    requires 1 <= p <= size && q == Around(p, o, size)
    ensures Apart(p, q, if o < 0 then -o else o, size)
  {
    var a := p - 1 + o;
    Remainder(0, size, -(a / size), q - p - o);
    Remainder(0, size, a / size, p - q + o);
  }

  lemma ApartAround(p: nat, q: nat, k: nat, size: nat)
    requires 1 <= p <= size && 1 <= q <= size && Apart(p, q, k, size)
    ensures q == Around(p, if (q - p - k) % size == 0 then k else -(k as int), size)
  {
    if (q - p - k) % size == 0 {
      Remainder(q - 1, size, -((q - p - k) / size), p - 1 + k);
    } else {
      Remainder(q - 1, size, (p - q - k) / size, p - 1 - k);
    }
  }

  // ---------- The double loop ----------

  predicate UpTo(o: int, h: int) {
    1 <= o <= h || 1 <= -o <= h
  }

  function AllOffsets(h: int): set<int> {
    set o | -h <= o <= h && UpTo(o, h)
  }

  lemma {:induction false} AllOffsetsCount(h: int)
    requires h >= 0
    ensures |AllOffsets(h)| == 2 * h
  {
    if h > 0 {
      AllOffsetsCount(h - 1);
      OffsetsGrow(h);
      hide AllOffsets;
    } else {
      assert AllOffsets(h) == {};
    }
  }

  lemma OffsetsGrow(h: int)
    requires h > 0
    ensures AllOffsets(h) == AllOffsets(h - 1) + {h, -h}
    ensures h !in AllOffsets(h - 1) && -h !in AllOffsets(h - 1)
  {
  }

  /** A list of different offsets has at most n entries, and all of them if it has n. */
  lemma OffsetsFit(offsets: seq<int>, n: nat)
    requires n % 2 == 0 && Distinct(offsets) && forall t :: 0 <= t < |offsets| ==> IsOffset(offsets[t], n)
    ensures |offsets| <= n
    ensures (forall o :: IsOffset(o, n) ==> o in offsets) ==> |offsets| == n
  {
    DistinctCount(offsets);
    AllOffsetsCount(n / 2);
    OffsetsInSet(offsets, n);
    hide SetOf, AllOffsets;
    if SetOf(offsets) != AllOffsets(n / 2) {
      Smaller(SetOf(offsets), AllOffsets(n / 2));
    }
  }

  lemma OffsetsInSet(offsets: seq<int>, n: nat)
    requires forall t :: 0 <= t < |offsets| ==> IsOffset(offsets[t], n)
    ensures SetOf(offsets) <= AllOffsets(n / 2)
    ensures (forall o :: IsOffset(o, n) ==> o in offsets) ==> SetOf(offsets) == AllOffsets(n / 2)
  {
    forall o | o in SetOf(offsets) ensures o in AllOffsets(n / 2) {
      assert IsOffset(o, n);
    }
    if forall o :: IsOffset(o, n) ==> o in offsets {
      forall o | o in AllOffsets(n / 2) ensures o in SetOf(offsets) {
        assert IsOffset(o, n);
      }
    }
  }

  /** The loops have dealt with partner q of position i' when they are at (i, partner). */
  predicate Past(i': nat, q: int, i: nat, partner: int) {
    i' < i || (i' == i && q < partner)
  }

  /** Where the loops meet an offset of position p: its own partners on its own turn, those
      that have it as a partner on theirs. */
  predicate Seen(p: nat, o: int, size: nat, i: nat, partner: int)
    requires size >= 1
  {
    if o > 0 then Past(p, o, i, partner) else Past(Around(p, o, size), -o, i, partner)
  }

  /** The first entries of the list are the neighbours at these different offsets. */
  ghost predicate Entries(perm: seq<nat>, n: nat, p: nat, neighs: seq<nat>, offsets: seq<int>)
    requires 1 <= p <= |perm|
  {
    && |offsets| <= |neighs| == n && Distinct(offsets)
    && (forall t :: 0 <= t < |offsets| ==> IsOffset(offsets[t], n))
    && (forall t :: 0 <= t < |offsets| ==> neighs[t] == perm[Around(p, offsets[t], |perm|) - 1])
  }

  /** What has been recorded: the neighbours at exactly the offsets seen. */
  ghost predicate Recorded(perm: seq<nat>, n: nat, p: nat, neighs: seq<nat>, offsets: seq<int>, i: nat, partner: int)
    requires 1 <= p <= |perm|
  {
    && Entries(perm, n, p, neighs, offsets)
    && forall o :: IsOffset(o, n) ==> (o in offsets <==> Seen(p, o, |perm|, i, partner))
  }

  lemma AddEntry(perm: seq<nat>, n: nat, p: nat, neighs: seq<nat>, neighs': seq<nat>, offsets: seq<int>, o: int)
    requires 1 <= p <= |perm| && Entries(perm, n, p, neighs, offsets) && |offsets| < n && IsOffset(o, n)
    requires o !in offsets
    requires neighs' == neighs[|offsets| := perm[Around(p, o, |perm|) - 1]]
    ensures Entries(perm, n, p, neighs', offsets + [o])
  {
    hide Around;
  }

  lemma SeenNext(p: nat, o: int, size: nat, i: nat, partner: int)
    requires size >= 1 && partner >= 1
    ensures Seen(p, o, size, i, partner + 1) <==>
            Seen(p, o, size, i, partner) || (o == partner && p == i) || (o == -partner && Around(p, o, size) == i)
  {
    hide Around;
  }

  /** There is room for an offset that is not recorded yet. */
  lemma Room(perm: seq<nat>, n: nat, p: nat, neighs: seq<nat>, offsets: seq<int>, o: int)
    requires n % 2 == 0 && 1 <= p <= |perm| && Entries(perm, n, p, neighs, offsets) && IsOffset(o, n) && o !in offsets
    ensures |offsets| < |neighs| == n
  {
    OffsetsFit(offsets + [o], n);
  }

  /** Position i has p as its partner-th partner exactly when it lies that far behind p. */
  lemma PartnerBehind(i: nat, partner: int, p: nat, size: nat)
    requires partner >= 0 && 1 <= i <= size && 1 <= p <= size
    ensures GetPartner(i, partner, size) == p <==> Around(p, -partner, size) == i
    ensures GetPartner(i, partner, size) == Around(i, partner, size)
  {
    AroundBack(i, partner, size);
    AroundBack(p, -partner, size);
  }

  /** getneighs for the ring (perm the identity) and for a shared permutation: it succeeds
      for every even number of neighbours, tmpneigh never exceeds it, and the list holds
      exactly the neighbours; all different and none the image itself exactly if there are
      fewer neighbours than images, which the caller checks. */
  method GetNeighs(me: nat, setsize: nat, neighs: array<nat>, perm: seq<nat>) returns (ok: bool)
    requires IsPermutation(perm, setsize) && 1 <= me <= setsize
    modifies neighs
    ensures ok <==> neighs.Length % 2 == 0
    ensures ok ==> forall v: nat :: v in neighs[..] <==> IsNeighbour(perm, neighs.Length, me, v)
    ensures ok && neighs.Length > 0 ==> (Distinct(neighs[..]) && me !in neighs[..] <==> neighs.Length < setsize)
  {
    hide IsNeighbour, Around, GetPartner;
    var n := neighs.Length;
    if n % 2 != 0 { return false; }
    PermutationIsFull(perm, setsize);
    assert me in perm by { assert Within(me, setsize); }
    ghost var at: nat :| at < setsize && perm[at] == me;
    ghost var p := at + 1;
    for k := 0 to n {
      neighs[k] := 0;
    }
    var tmpneigh := 0;
    ghost var offsets: seq<int> := [];
    NothingSeen(p, n, setsize);
    for i := 1 to setsize + 1
      invariant tmpneigh == |offsets| && Recorded(perm, n, p, neighs[..], offsets, i, 1)
    {
      for partner := 1 to n / 2 + 1
        invariant tmpneigh == |offsets| && Recorded(perm, n, p, neighs[..], offsets, i, partner)
      {
        tmpneigh, offsets := OneTurn(me, setsize, neighs, perm, i, partner, tmpneigh, p, offsets);
      }
      NextTurn(p, n, setsize, i);
    }
    AllSeen(p, n, setsize);
    OffsetsFit(offsets, n);
    ListIsRight(perm, n, me, p, neighs[..], offsets);
    ok := tmpneigh == n;
  }

  lemma NothingSeen(p: nat, n: nat, size: nat)
    requires 1 <= p <= size
    ensures forall o :: IsOffset(o, n) ==> !Seen(p, o, size, 1, 1)
  {
    forall o | IsOffset(o, n) ensures !Seen(p, o, size, 1, 1) {
      AroundBack(p, o, size);
    }
  }

  lemma NextTurn(p: nat, n: nat, size: nat, i: nat)
    requires 1 <= p <= size
    ensures forall o :: IsOffset(o, n) ==> (Seen(p, o, size, i, n / 2 + 1) <==> Seen(p, o, size, i + 1, 1))
  {
  }

  lemma AllSeen(p: nat, n: nat, size: nat)
    requires 1 <= p <= size
    ensures forall o :: IsOffset(o, n) ==> Seen(p, o, size, size + 1, 1)
  {
    forall o | IsOffset(o, n) ensures Seen(p, o, size, size + 1, 1) {
      AroundBack(p, o, size);
    }
  }

  lemma ListIsRight(perm: seq<nat>, n: nat, me: nat, p: nat, neighs: seq<nat>, offsets: seq<int>)
    requires IsPermutation(perm, |perm|) && n % 2 == 0 && 1 <= p <= |perm| && perm[p - 1] == me
    requires |offsets| == n && Entries(perm, n, p, neighs, offsets) && forall o :: IsOffset(o, n) ==> o in offsets
    ensures forall v: nat :: v in neighs <==> IsNeighbour(perm, n, me, v)
    ensures n > 0 ==> (Distinct(neighs) && me !in neighs <==> n < |perm|)
  {
    hide Around;
    forall v: nat | v in neighs ensures IsNeighbour(perm, n, me, v) {
      var t :| 0 <= t < |neighs| && neighs[t] == v;
      assert Linked(perm, n, me, v, p, offsets[t]) by { AroundBack(p, offsets[t], |perm|); }
    }
    forall v: nat | IsNeighbour(perm, n, me, v) ensures v in neighs {
      var p': nat, o: int :| 1 <= p' <= |perm| && Linked(perm, n, me, v, p', o);
      assert p' == p;
      var t :| 0 <= t < |offsets| && offsets[t] == o;
      assert neighs[t] == v;
    }
    OffsetsApart(p, n, |perm|);
    if n < |perm| {
      ListIsDistinct(perm, n, me, p, neighs, offsets);
    } else if n > 0 {
      ListRepeats(perm, n, me, p, neighs, offsets);
    }
  }

  lemma ListIsDistinct(perm: seq<nat>, n: nat, me: nat, p: nat, neighs: seq<nat>, offsets: seq<int>)
    requires IsPermutation(perm, |perm|) && n % 2 == 0 && 1 <= p <= |perm| && perm[p - 1] == me && n < |perm|
    requires |offsets| == n && Entries(perm, n, p, neighs, offsets)
    ensures Distinct(neighs) && me !in neighs
  {
    OffsetsApart(p, n, |perm|);
    forall t, u | 0 <= t < u < n ensures neighs[t] != neighs[u] {
      AroundBack(p, offsets[t], |perm|);
      AroundBack(p, offsets[u], |perm|);
    }
    forall t | 0 <= t < n ensures neighs[t] != me {
      AroundBack(p, offsets[t], |perm|);
    }
  }

  lemma ListRepeats(perm: seq<nat>, n: nat, me: nat, p: nat, neighs: seq<nat>, offsets: seq<int>)
    requires n % 2 == 0 && 1 <= p <= |perm| && perm[p - 1] == me && n >= |perm| && n > 0
    requires |offsets| == n && Entries(perm, n, p, neighs, offsets) && forall o :: IsOffset(o, n) ==> o in offsets
    ensures !Distinct(neighs) || me in neighs
  {
    hide Around;
    OffsetsApart(p, n, |perm|);
    var o, o' :| IsOffset(o, n) && (o' == 0 || IsOffset(o', n)) && o != o' &&
        Around(p, o, |perm|) == Around(p, o', |perm|);
    AroundBack(p, o, |perm|);
    var t :| 0 <= t < |offsets| && offsets[t] == o;
    if o' == 0 {
      AroundHere(p, |perm|);
      assert neighs[t] == me;
    } else {
      var u :| 0 <= u < |offsets| && offsets[u] == o';
      assert neighs[t] == neighs[u];
    }
  }

  lemma AroundHere(p: nat, size: nat)
    requires 1 <= p <= size
    ensures Around(p, 0, size) == p
  {
    Remainder(p - 1, size, 0, p - 1);
  }

  /** The body of the inner loop. */
  method OneTurn(me: nat, setsize: nat, neighs: array<nat>, perm: seq<nat>, i: nat, partner: int, tmpneigh_: nat,
                 ghost p: nat, ghost offsets_: seq<int>) returns (tmpneigh: nat, ghost offsets: seq<int>)
    requires IsPermutation(perm, setsize) && 1 <= i <= setsize && 1 <= partner <= neighs.Length / 2
    requires neighs.Length % 2 == 0
    requires 1 <= p <= setsize && perm[p - 1] == me
    requires tmpneigh_ == |offsets_| && Recorded(perm, neighs.Length, p, neighs[..], offsets_, i, partner)
    modifies neighs
    ensures tmpneigh == |offsets| && Recorded(perm, neighs.Length, p, neighs[..], offsets, i, partner + 1)
  {
    hide Around, GetPartner, Entries, Seen, IsOffset;
    tmpneigh, offsets := tmpneigh_, offsets_;
    ghost var n := neighs.Length;
    var j := GetPartner(i, partner, setsize);
    TurnFacts(p, n, setsize, i, partner);
    assert perm[i - 1] == me <==> i == p;
    assert perm[j - 1] == me <==> j == p;
    if perm[i - 1] == me {
      Room(perm, n, p, neighs[..], offsets, partner);
      ghost var before := neighs[..];
      tmpneigh := tmpneigh + 1;
      neighs[tmpneigh - 1] := perm[j - 1];
      AddEntry(perm, n, p, before, neighs[..], offsets, partner);
      offsets := offsets + [partner];
    }
    if perm[j - 1] == me {
      Room(perm, n, p, neighs[..], offsets, -partner);
      ghost var before := neighs[..];
      tmpneigh := tmpneigh + 1;
      neighs[tmpneigh - 1] := perm[i - 1];
      AddEntry(perm, n, p, before, neighs[..], offsets, -partner);
      offsets := offsets + [-partner];
    }
  }

  /** What the turn of (i, partner) sees: partner if i is p, -partner if its partner is. */
  lemma TurnFacts(p: nat, n: nat, size: nat, i: nat, partner: int)
    requires 1 <= p <= size && 1 <= i <= size && 1 <= partner <= n / 2
    ensures 1 <= GetPartner(i, partner, size) <= size && GetPartner(i, partner, size) == Around(i, partner, size)
    ensures GetPartner(i, partner, size) == p <==> Around(p, -partner, size) == i
    ensures IsOffset(partner, n) && IsOffset(-partner, n)
    ensures !Seen(p, partner, size, i, partner) || i != p
    ensures !Seen(p, -partner, size, i, partner) || Around(p, -partner, size) != i
    ensures forall o :: IsOffset(o, n) ==> (Seen(p, o, size, i, partner + 1) <==>
              Seen(p, o, size, i, partner) || (o == partner && p == i) ||
                  (o == -partner && Around(p, -partner, size) == i))
  {
    hide Around, GetPartner;
    PartnerBehind(i, partner, p, size);
    AroundBack(i, partner, size);
    forall o | IsOffset(o, n)
      ensures Seen(p, o, size, i, partner + 1) <==>
              Seen(p, o, size, i, partner) || (o == partner && p == i) ||
                  (o == -partner && Around(p, -partner, size) == i)
    {
      SeenNext(p, o, size, i, partner);
    }
  }
}
