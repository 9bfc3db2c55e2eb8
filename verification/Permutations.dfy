/** getperm: a random permutation by swapping each position with one not before it. */
module Permutations {

  predicate Distinct<A(==)>(s: seq<A>) {
    forall i, j :: 0 <= i < j < |s| ==> s[i] != s[j]
  }

  /** A permutation of 1, ..., n. */
  predicate IsPermutation(s: seq<nat>, n: nat) {
    |s| == n && Distinct(s) && forall i :: 0 <= i < |s| ==> 1 <= s[i] <= n
  }

  function Swap<A>(s: seq<A>, i: nat, j: nat): seq<A>
    requires i < |s| && j < |s|
  {
    s[i := s[j]][j := s[i]]
  }

  /** Choices for a sequence of n elements: how far from each position but the last one
      its new element comes. */
  predicate Choices(n: nat, ks: seq<nat>) {
    |ks| == (if n == 0 then 0 else n - 1) && forall i :: 0 <= i < |ks| ==> ks[i] < n - i
  }

  /** What the swaps make of s. */
  function Shuffle<A>(s: seq<A>, ks: seq<nat>): (r: seq<A>)
    requires Choices(|s|, ks)
    ensures |r| == |s|
    decreases |s|
  {
    if |s| <= 1 then s
    else
      var t := Swap(s, 0, ks[0]);
      [t[0]] + Shuffle(t[1..], ks[1..])
  }

  /** The scaled random number, cut to an integer, picks from what is left. */
  function Pick(rng: real, left: nat): (k: nat)
    requires 0.0 <= rng < 1.0 && left > 0
    ensures k < left
  {
    PickBelow(rng, left);
    (rng * (left as real)).Floor
  }

  lemma PickBelow(rng: real, left: nat)
    requires 0.0 <= rng < 1.0 && left > 0
    ensures 0.0 <= rng * (left as real) < left as real
  {
  }

  /** Each choice is drawn on an interval of length 1/left: k for k/left up to (k+1)/left. */
  lemma PickIff(rng: real, left: nat, k: nat)
    requires 0.0 <= rng < 1.0 && left > 0
    ensures Pick(rng, left) == k <==> k as real <= rng * (left as real) < (k + 1) as real
    ensures Pick(rng, left) == k <==> k as real / left as real <= rng < (k + 1) as real / left as real
  {
    Scale(rng, left, k);
    Scale(rng, left, k + 1);
  }

  lemma Scale(rng: real, left: nat, k: nat)
    requires left > 0
    ensures k as real <= rng * (left as real) <==> k as real / left as real <= rng
  {
    var q, l := k as real / left as real, left as real;
    assert q * l == k as real;
    if q <= rng {
      assert (rng - q) * l >= 0.0;
    } else {
      assert (q - rng) * l > 0.0;
    }
  }

  /** Any choice can come up. */
  lemma EveryPickPossible(k: nat, left: nat) returns (rng: real)
    requires k < left
    ensures 0.0 <= rng < 1.0 && Pick(rng, left) == k
  {
    rng := (k as real) / (left as real);
    assert rng * (left as real) == k as real;
  }

  function Picks(rngs: seq<real>, n: nat): (ks: seq<nat>)
    requires |rngs| == (if n == 0 then 0 else n - 1) && forall i :: 0 <= i < |rngs| ==> 0.0 <= rngs[i] < 1.0
    ensures |ks| == |rngs| && Choices(n, ks)
  {
    seq(|rngs|, i requires 0 <= i < |rngs| => Pick(rngs[i], n - i))
  }

  /** getperm, given the random numbers it draws; DrawnExactly says which numbers give
      which permutation. */
  method GetPerm(perm: array<nat>, rngs: seq<real>)
    requires |rngs| == (if perm.Length == 0 then 0 else perm.Length - 1)
    requires forall i :: 0 <= i < |rngs| ==> 0.0 <= rngs[i] < 1.0
    modifies perm
    ensures perm[..] == Shuffle(Identity(perm.Length), Picks(rngs, perm.Length))
    ensures IsPermutation(perm[..], perm.Length)
  {
    hide Shuffle, Choices, Picks, IsPermutation, Shuffling;
    var n := perm.Length;
    for i := 1 to n + 1
      invariant perm[..i - 1] == Identity(n)[..i - 1]
    {
      perm[i - 1] := i;
    }
    assert perm[..] == Identity(n);
    hide Identity;
    ghost var ks := Picks(rngs, n);
    ShuffleStarts(perm[..], ks);
    var i := 1;
    while i <= n - 1
      invariant 1 <= i && (n > 0 ==> i <= n)
      invariant Shuffling(perm[..], ks, i - 1, Shuffle(Identity(n), ks))
    {
      PicksAt(rngs, n, i - 1);
      var j := i + Pick(rngs[i - 1], n - i + 1);
      ghost var before := perm[..];
      var tmp := perm[i - 1];
      perm[i - 1] := perm[j - 1];
      perm[j - 1] := tmp;
      assert perm[..] == Swap(before, i - 1, j - 1);
      ShuffleStep(before, perm[..], i - 1, ks, Shuffle(Identity(n), ks));
      i := i + 1;
    }
    ShuffleEnds(perm[..], ks, i - 1, Shuffle(Identity(n), ks));
    IdentityIsPermutation(n);
    ShuffleKeeps(Identity(n), ks);
    SamePermutation(Identity(n), perm[..], n);
  }

  /** After i swaps: what is in front stays, the rest is still to be shuffled. */
  ghost predicate Shuffling<A>(s: seq<A>, ks: seq<nat>, i: nat, goal: seq<A>) {
    && Choices(|s|, ks) && i <= |ks| && Choices(|s| - i, ks[i..])
    && s[..i] + Shuffle(s[i..], ks[i..]) == goal
  }

  lemma PicksAt(rngs: seq<real>, n: nat, i: nat)
    requires |rngs| == n - 1 && i < |rngs| && forall i :: 0 <= i < |rngs| ==> 0.0 <= rngs[i] < 1.0
    ensures Picks(rngs, n)[i] == Pick(rngs[i], n - i)
  {
  }

  lemma ShuffleStarts<A>(s: seq<A>, ks: seq<nat>)
    requires Choices(|s|, ks)
    ensures Shuffling(s, ks, 0, Shuffle(s, ks))
  {
    assert s[0..] == s && ks[0..] == ks;
  }

  lemma ShuffleEnds<A>(s: seq<A>, ks: seq<nat>, i: nat, goal: seq<A>)
    requires Shuffling(s, ks, i, goal) && i >= |s| - 1
    ensures s == goal
  {
    assert s[..i] + s[i..] == s;
  }

  function Identity(n: nat): seq<nat> {
    seq(n, i requires 0 <= i => i + 1)
  }

  lemma IdentityIsPermutation(n: nat)
    ensures IsPermutation(Identity(n), n)
  {
  }

  /** One turn of the loop does the first step of what is left of the shuffle. */
  lemma ShuffleStep<A>(s: seq<A>, t: seq<A>, i: nat, ks: seq<nat>, goal: seq<A>)
    requires Shuffling(s, ks, i, goal) && i + 1 < |s| && t == Swap(s, i, i + ks[i])
    ensures Shuffling(t, ks, i + 1, goal)
  {
    assert Swap(s[i..], 0, ks[i]) == t[i..];
    assert t[i..][1..] == t[i + 1..] && ks[i..][1..] == ks[i + 1..];
    assert t[..i + 1] == s[..i] + [t[i]];
  }

  lemma SwapKeeps<A>(s: seq<A>, j: nat)
    requires j < |s|
    ensures multiset(Swap(s, 0, j)) == multiset(s)
  {
  }

  /** A shuffle keeps exactly the elements, whatever the choices. */
  lemma {:induction false} ShuffleKeeps<A>(s: seq<A>, ks: seq<nat>)
    requires Choices(|s|, ks)
    ensures multiset(Shuffle(s, ks)) == multiset(s)
    decreases |s|
  {
    if |s| > 1 {
      var t := Swap(s, 0, ks[0]);
      SwapKeeps(s, ks[0]);
      ShuffleKeeps(t[1..], ks[1..]);
      hide Swap, Choices;
      HeadAndTail(t);
      Prepend(t[0], Shuffle(t[1..], ks[1..]));
    }
  }

  lemma HeadAndTail<A>(s: seq<A>)
    requires s != []
    ensures multiset(s) == multiset{s[0]} + multiset(s[1..])
  {
    assert s == [s[0]] + s[1..];
  }

  lemma Prepend<A>(a: A, s: seq<A>)
    ensures multiset([a] + s) == multiset{a} + multiset(s)
  {
  }

  lemma SamePermutation(s: seq<nat>, r: seq<nat>, n: nat)
    requires IsPermutation(s, n) && multiset(r) == multiset(s)
    ensures IsPermutation(r, n)
  {
    SameLength(s, r);
    DistinctMultiset(s);
    MultisetDistinct(r);
    forall i | 0 <= i < |r| ensures 1 <= r[i] <= n {
      assert r[i] in multiset(s);
    }
  }

  lemma SameLength<A>(s: seq<A>, r: seq<A>)
    requires multiset(r) == multiset(s)
    ensures |r| == |s|
  {
    assert |multiset(r)| == |r| && |multiset(s)| == |s|;
  }

  lemma {:induction false} DistinctMultiset<A>(s: seq<A>)
    requires Distinct(s)
    ensures forall a :: multiset(s)[a] <= 1
  {
    if s != [] {
      DistinctMultiset(s[1..]);
      assert s == [s[0]] + s[1..];
      assert s[0] !in s[1..];
    }
  }

  lemma MultisetDistinct<A>(s: seq<A>)
    requires forall a :: multiset(s)[a] <= 1
    ensures Distinct(s)
  {
    forall i, j | 0 <= i < j < |s| ensures s[i] != s[j] {
      assert s == s[..j] + s[j..];
      assert s[..j][i] == s[i] && s[j..][0] == s[j];
      assert s[i] in multiset(s[..j]) && s[j] in multiset(s[j..]);
      assert multiset(s)[s[j]] == multiset(s[..j])[s[j]] + multiset(s[j..])[s[j]];
    }
  }

  /** Different choices give different permutations. */
  lemma {:induction false} ShuffleInjective<A>(s: seq<A>, ks: seq<nat>, ks': seq<nat>)
    requires Distinct(s) && Choices(|s|, ks) && Choices(|s|, ks') && Shuffle(s, ks) == Shuffle(s, ks')
    ensures ks == ks'
    decreases |s|
  {
    if |s| > 1 {
      var t, t' := Swap(s, 0, ks[0]), Swap(s, 0, ks'[0]);
      var r, r' := Shuffle(t[1..], ks[1..]), Shuffle(t'[1..], ks'[1..]);
      assert Shuffle(s, ks)[0] == t[0] && Shuffle(s, ks')[0] == t'[0];
      assert t[0] == s[ks[0]] && t'[0] == s[ks'[0]];
      assert Shuffle(s, ks)[1..] == r && Shuffle(s, ks')[1..] == r';
      SwapTailDistinct(s, ks[0]);
      ShuffleInjective(t[1..], ks[1..], ks'[1..]);
      assert ks == [ks[0]] + ks[1..] && ks' == [ks'[0]] + ks'[1..];
    }
  }

  lemma SwapTailDistinct<A>(s: seq<A>, j: nat)
    requires Distinct(s) && j < |s|
    ensures Distinct(Swap(s, 0, j)[1..])
  {
  }

  /** Every permutation comes from some choices. */
  lemma {:induction false} ShuffleSurjective<A>(s: seq<A>, p: seq<A>) returns (ks: seq<nat>)
    requires multiset(p) == multiset(s)
    ensures Choices(|s|, ks) && Shuffle(s, ks) == p
    decreases |s|
  {
    SameLength(s, p);
    if |s| <= 1 {
      ks := [];
      if |s| == 1 {
        assert p[0] in multiset(s);
      }
    } else {
      assert p[0] in multiset(s);
      var j: nat :| j < |s| && s[j] == p[0];
      var t := Swap(s, 0, j);
      TailsAgree(s, p, j);
      hide Swap;
      var rest := ShuffleSurjective(t[1..], p[1..]);
      ks := [j] + rest;
      FirstChoice(s, j, rest);
      assert p == [p[0]] + p[1..];
    }
  }

  lemma TailsAgree<A>(s: seq<A>, p: seq<A>, j: nat)
    requires multiset(p) == multiset(s) && j < |s| && p != [] && s[j] == p[0]
    ensures multiset(p[1..]) == multiset(Swap(s, 0, j)[1..])
  {
    SwapKeeps(s, j);
    TailMultiset(Swap(s, 0, j));
    TailMultiset(p);
  }

  lemma TailMultiset<A>(s: seq<A>)
    requires s != []
    ensures multiset(s[1..]) == multiset(s) - multiset{s[0]}
  {
    assert s == [s[0]] + s[1..];
  }

  lemma FirstChoice<A>(s: seq<A>, j: nat, rest: seq<nat>)
    requires j < |s| && |s| >= 2 && Choices(|s| - 1, rest)
    ensures Choices(|s|, [j] + rest)
    ensures Shuffle(s, [j] + rest) == [s[j]] + Shuffle(Swap(s, 0, j)[1..], rest)
  {
    assert ([j] + rest)[1..] == rest;
  }

  /** Of all sequences of choices, exactly one gives a given permutation of 1, ..., n. */
  lemma ExactlyOneChoice(p: seq<nat>, n: nat) returns (ks: seq<nat>)
    requires IsPermutation(p, n)
    ensures Choices(n, ks) && Shuffle(Identity(n), ks) == p
    ensures forall ks' :: Choices(n, ks') && Shuffle(Identity(n), ks') == p ==> ks' == ks
  {
    IdentityIsPermutation(n);
    PermutationsAgree(p, Identity(n), n);
    ks := ShuffleSurjective(Identity(n), p);
    forall ks' | Choices(n, ks') && Shuffle(Identity(n), ks') == p ensures ks' == ks {
      ShuffleInjective(Identity(n), ks, ks');
    }
  }

  /** Which random numbers give a permutation: those that lie, each in its turn, in the
      interval of the permutation's choice. */
  predicate Draws(rngs: seq<real>, ks: seq<nat>, n: nat)
    requires |rngs| == |ks| < n || |rngs| == |ks| == 0
  {
    forall i :: 0 <= i < |rngs| ==> ks[i] as real / (n - i) as real <= rngs[i] < (ks[i] + 1) as real / (n - i) as real
  }

  /** perm, as getperm leaves it, is p exactly if every random number lies in its interval. */
  lemma DrawnExactly(p: seq<nat>, n: nat, rngs: seq<real>) returns (ks: seq<nat>)
    requires IsPermutation(p, n)
    requires |rngs| == (if n == 0 then 0 else n - 1) && forall i :: 0 <= i < |rngs| ==> 0.0 <= rngs[i] < 1.0
    ensures Choices(n, ks) && Shuffle(Identity(n), ks) == p
    ensures Shuffle(Identity(n), Picks(rngs, n)) == p <==> Draws(rngs, ks, n)
  {
    ks := ExactlyOneChoice(p, n);
    hide Shuffle, Identity, IsPermutation, Pick;
    forall i | 0 <= i < |rngs|
      ensures Picks(rngs, n)[i] == ks[i] <==>
              ks[i] as real / (n - i) as real <= rngs[i] < (ks[i] + 1) as real / (n - i) as real
    {
      PickIff(rngs[i], n - i, ks[i]);
    }
    if Draws(rngs, ks, n) {
      assert Picks(rngs, n) == ks;
    }
  }

  /** With all numbers below 1/n nothing is moved. */
  lemma {:induction false} ZerosKeep<A>(s: seq<A>, ks: seq<nat>)
    requires Choices(|s|, ks) && forall i :: 0 <= i < |ks| ==> ks[i] == 0
    ensures Shuffle(s, ks) == s
    decreases |s|
  {
    if |s| > 1 {
      assert Swap(s, 0, 0) == s;
      ZerosKeep(s[1..], ks[1..]);
    }
  }

  lemma SmallNumbersKeep(n: nat, rngs: seq<real>)
    requires |rngs| == (if n == 0 then 0 else n - 1)
    requires forall i :: 0 <= i < |rngs| ==> 0.0 <= rngs[i] < 1.0 / n as real
    ensures forall i :: 0 <= i < |rngs| ==> rngs[i] < 1.0
    ensures var r := Shuffle(Identity(n), Picks(rngs, n)); |r| == n && forall i :: 0 <= i < n ==> r[i] == i + 1
  {
    if n > 0 {
      Smallest(n, n);
    }
    forall i | 0 <= i < |rngs| ensures rngs[i] < 1.0 && Pick(rngs[i], n - i) == 0 {
      Smallest(n - i, n);
      PickIff(rngs[i], n - i, 0);
    }
    ZerosKeep(Identity(n), Picks(rngs, n));
  }

  lemma {:induction false} OneChoiceSwaps<A>(s: seq<A>, ks: seq<nat>, i: nat)
    requires Choices(|s|, ks) && i < |ks| && forall j :: 0 <= j < |ks| && j != i ==> ks[j] == 0
    ensures Shuffle(s, ks) == s[i := s[i + ks[i]]][i + ks[i] := s[i]]
    decreases |s|
  {
    var t := Swap(s, 0, ks[0]);
    assert [t[0]] + t[1..] == t;
    if i == 0 {
      ZerosKeep(t[1..], ks[1..]);
    } else {
      assert t == s;
      OneChoiceSwaps(s[1..], ks[1..], i - 1);
    }
  }

  /** With all numbers but the one for position i below 1/n, that position is exchanged with
      the one drawn and everything else stays. */
  lemma OneNumberSwaps(n: nat, rngs: seq<real>, i: nat, k: nat)
    requires i < |rngs| == n - 1 && k < n - i
    requires forall j :: 0 <= j < |rngs| && j != i ==> 0.0 <= rngs[j] < 1.0 / n as real
    requires k as real / (n - i) as real <= rngs[i] < (k + 1) as real / (n - i) as real
    ensures forall j :: 0 <= j < |rngs| ==> 0.0 <= rngs[j] < 1.0
    ensures var r := Shuffle(Identity(n), Picks(rngs, n));
            && |r| == n && r[i] == i + k + 1 && r[i + k] == i + 1
            && forall j :: 0 <= j < n && j != i && j != i + k ==> r[j] == j + 1
  {
    hide Shuffle, Pick;
    Smallest(n, n);
    forall j | 0 <= j < |rngs| && j != i ensures rngs[j] < 1.0 && Pick(rngs[j], n - j) == 0 {
      Smallest(n - j, n);
      PickIff(rngs[j], n - j, 0);
    }
    InUnit(k, n - i);
    PickIff(rngs[i], n - i, k);
    OneChoiceSwaps(Identity(n), Picks(rngs, n), i);
  }

  lemma InUnit(k: nat, left: nat)
    requires k < left
    ensures 0.0 <= k as real / left as real && (k + 1) as real / left as real <= 1.0
  {
    var q := (k + 1) as real / left as real;
    assert q * left as real == (k + 1) as real;
  }

  lemma Smallest(m: nat, n: nat)
    requires 0 < m <= n
    ensures 1.0 / n as real <= 1.0 / m as real <= 1.0
  {
    var a, b := 1.0 / n as real, 1.0 / m as real;
    assert a * n as real == 1.0 && b * m as real == 1.0;
  }

  lemma PermutationsAgree(p: seq<nat>, r: seq<nat>, n: nat)
    requires IsPermutation(p, n) && IsPermutation(r, n)
    ensures multiset(p) == multiset(r)
  {
    PermutationIsFull(p, n);
    PermutationIsFull(r, n);
    DistinctMultiset(p);
    DistinctMultiset(r);
    forall v ensures multiset(p)[v] == multiset(r)[v] {
      assert (v in multiset(p)) <==> v in p;
      assert (v in multiset(r)) <==> v in r;
    }
  }

  /** A permutation of 1, ..., n contains every one of them. */
  lemma PermutationIsFull(p: seq<nat>, n: nat)
    requires IsPermutation(p, n)
    ensures forall v: nat :: v in p <==> Within(v, n)
  {
    var range, image := OneTo(n), SetOf(p);
    DistinctCount(p);
    OneToCount(n);
    if image != range {
      assert image < range;
      Smaller(image, range);
    }
    assert forall v: nat :: v in p <==> v in image;
  }

  predicate Within(v: int, n: int) {
    1 <= v <= n
  }

  function OneTo(n: nat): set<nat> {
    set v: nat | 1 <= v <= n && Within(v, n)
  }

  function SetOf<A>(s: seq<A>): set<A> {
    set i | 0 <= i < |s| :: s[i]
  }

  lemma {:induction false} OneToCount(n: nat)
    ensures |OneTo(n)| == n
  {
    if n > 0 {
      OneToCount(n - 1);
      assert OneTo(n) == OneTo(n - 1) + {n};
    }
  }

  lemma {:induction false} DistinctCount<A>(s: seq<A>)
    requires Distinct(s)
    ensures |SetOf(s)| == |s|
  {
    if s != [] {
      DistinctCount(s[1..]);
      SetOfHead(s);
      assert s[0] !in SetOf(s[1..]);
      hide SetOf;
    }
  }

  lemma SetOfHead<A>(s: seq<A>)
    requires s != []
    ensures SetOf(s) == SetOf(s[1..]) + {s[0]}
  {
    forall i | 0 < i < |s| ensures s[i] in SetOf(s[1..]) {
      assert s[i] == s[1..][i - 1];
    }
  }

  lemma Smaller<A>(a: set<A>, b: set<A>)
    requires a < b
    ensures |a| < |b|
  {
    assert b == a + (b - a);
  }
}
