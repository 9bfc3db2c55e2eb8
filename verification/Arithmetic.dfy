/** Quotients, remainders and powers. */
module Arithmetic {

  /** Quotient and remainder are unique. */
  lemma Remainder(r: nat, n: nat, q: int, a: int)
    requires r < n && a == q * n + r
    ensures a % n == r && a / n == q
  {
    var d := a / n - q;
    assert d * n == (a / n) * n - q * n;
    assert d >= 1 ==> d * n >= n;
    assert d <= -1 ==> d * n + n <= 0;
  }

  function Power(b: nat, e: nat): nat {
    if e == 0 then 1 else b * Power(b, e - 1)
  }

  lemma {:induction false} PowerPositive(k: nat)
    ensures Power(2, k) > 0
  {
    if k > 0 { PowerPositive(k - 1); }
  }
}
