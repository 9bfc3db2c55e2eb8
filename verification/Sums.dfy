/** Sums over a sequence, for counting tasks, threads and remaining work. */
module Sums {

  function Sum<A>(f: A -> nat, s: seq<A>): (n: nat) {
    if s == [] then 0 else Sum(f, s[..|s| - 1]) + f(s[|s| - 1])
  }

  lemma {:induction false} SumUpdate<A>(f: A -> nat, s: seq<A>, i: nat, a: A)
    requires i < |s|
    ensures Sum(f, s[i := a]) + f(s[i]) == Sum(f, s) + f(a)
  {
    var n := |s| - 1;
    if i == n {
      assert s[i := a][..n] == s[..n];
    } else {
      SumUpdate(f, s[..n], i, a);
      assert s[i := a][..n] == s[..n][i := a];
    }
  }

  lemma SumAppend<A>(f: A -> nat, s: seq<A>, a: A)
    ensures Sum(f, s + [a]) == Sum(f, s) + f(a)
  {
    assert (s + [a])[..|s|] == s;
  }

  lemma {:induction false} SumAtLeast<A>(f: A -> nat, s: seq<A>, i: nat)
    requires i < |s|
    ensures Sum(f, s) >= f(s[i])
  {
    if i < |s| - 1 {
      SumAtLeast(f, s[..|s| - 1], i);
    }
  }

  lemma {:induction false} SumPositive<A>(f: A -> nat, s: seq<A>) returns (i: nat)
    requires Sum(f, s) > 0
    ensures i < |s| && f(s[i]) > 0
  {
    i := |s| - 1;
    if f(s[i]) == 0 {
      i := SumPositive(f, s[..i]);
    }
  }

  lemma {:induction false} SumZero<A>(f: A -> nat, s: seq<A>)
    requires forall i :: 0 <= i < |s| ==> f(s[i]) == 0
    ensures Sum(f, s) == 0
  {
    if s != [] {
      SumZero(f, s[..|s| - 1]);
    }
  }

  lemma {:induction false} SumDrops<A>(f: A -> nat, s: seq<A>, s': seq<A>, i: nat)
    requires |s'| == |s| && i < |s| && f(s'[i]) < f(s[i])
    requires forall j :: 0 <= j < |s| && j != i ==> f(s'[j]) == f(s[j])
    ensures Sum(f, s') < Sum(f, s)
  {
    var n := |s| - 1;
    if i == n {
      SameSum(f, s[..n], s'[..n]);
    } else {
      SumDrops(f, s[..n], s'[..n], i);
    }
  }

  lemma {:induction false} SameSum<A>(f: A -> nat, s: seq<A>, s': seq<A>)
    requires |s'| == |s| && forall j :: 0 <= j < |s| ==> f(s'[j]) == f(s[j])
    ensures Sum(f, s') == Sum(f, s)
  {
    if s != [] { SameSum(f, s[..|s| - 1], s'[..|s| - 1]); }
  }
}
