/** Sums of real sequences and the few laws of products and quotients used throughout.

    Every law is stated for numbers alone, away from any sequence or state, because the
    solver handles nonlinear real arithmetic well only in isolation.  The proofs elsewhere
    call these lemmas by name and otherwise stay linear.  `Sum` takes its sequence apart at the
    end, as the code that appends values does. */
module Reals {

  function Sum(s: seq<real>): real {
    if s == [] then 0.0 else Sum(s[..|s| - 1]) + s[|s| - 1]
  }

  lemma {:induction false} SumAtMost(t: seq<real>, c: real)
    requires forall i :: 0 <= i < |t| ==> t[i] <= c
    ensures Sum(t) <= c * |t| as real
  {
    if t != [] {
      SumAtMost(t[..|t| - 1], c);
      assert c * |t| as real == c * (|t| - 1) as real + c;
    }
  }

  lemma {:induction false} SumAtLeast(t: seq<real>, c: real)
    requires forall i :: 0 <= i < |t| ==> t[i] >= c
    ensures Sum(t) >= c * |t| as real
  {
    if t != [] {
      SumAtLeast(t[..|t| - 1], c);
      assert c * |t| as real == c * (|t| - 1) as real + c;
    }
  }

  lemma NonNegativeProduct(x: real, y: real)
    requires x >= 0.0 && y >= 0.0
    ensures x * y >= 0.0
  {
  }

  lemma QuotientSelf(d: real)
    requires d > 0.0
    ensures d / d == 1.0
  {
  }

  lemma QuotientIs(a: real, d: real, b: real)
    requires d > 0.0 && a == b * d
    ensures a / d == b
  {
  }

  /** Quotients respect bounds. */
  lemma QuotientBetween(s: real, d: real, low: real, high: real)
    requires d > 0.0 && low * d <= s <= high * d
    ensures low <= s / d <= high
  {
    var q := s / d;
    assert q * d == s;
    if q < low { ProductLess(q, low, d); }
    if q > high { ProductLess(high, q, d); }
  }

  lemma ProductLess(a: real, b: real, d: real)
    requires a < b && d > 0.0
    ensures a * d < b * d
  {
    assert (b - a) * d > 0.0;
  }
}
