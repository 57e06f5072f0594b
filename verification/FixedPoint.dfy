/** Fixed-point arithmetic with 8 decimals on 64-bit raw values, with 128-bit intermediates.

    The four checked operations are written with the source's operators and comparisons; a
    product or scaled dividend is an exact integer here.  The lemmas show that it would have
    fitted the 128-bit intermediate, that the result is the exact quotient rounded toward
    zero whenever an exact result exists, and how far multiplying and dividing by the same
    value can drift. */
module FixedPoint {
  import opened Wrappers
  import opened Int64

  const SCALE: int := 100_000_000

  datatype Error = Overflow | Underflow | DivisionByZero
  type Checked = Result<int, Error>

  function CheckedAdd(a: int, b: int): Checked {
    if InRange(a + b) then Ok(a + b) else Err(Overflow)
  }

  function CheckedSub(a: int, b: int): Checked {
    if InRange(a - b) then Ok(a - b) else Err(Underflow)
  }

  function CheckedMul(a: int, b: int): Checked {
    var product := a * b;
    var scaled := TruncDiv(product, SCALE);
    if scaled > MAX || scaled < MIN then Err(Overflow) else Ok(scaled)
  }

  function CheckedDiv(a: int, b: int): Checked {
    if b == 0 then Err(DivisionByZero)
    else
      var dividend := a * SCALE;
      var quotient := TruncDiv(dividend, b);
      if quotient > MAX || quotient < MIN then Err(Overflow) else Ok(quotient)
  }

  /** q is the exact value of num / den, rounded toward zero. */
  predicate IsTruncated(num: int, den: int, q: int) {
    var r := num - q * den;
    Abs(r) < Abs(den) && (num >= 0 ==> r >= 0) && (num <= 0 ==> r <= 0)
  }

  /** Addition and subtraction are exact, or fail precisely when the exact result is outside
      64 bits, each with its own error; adding what was subtracted restores the value. */
  lemma SumsAreExact(a: int, b: int)
    requires InRange(a) && InRange(b)
    ensures forall s :: CheckedAdd(a, b) == Ok(s) <==> InRange(s) && s - b == a
    ensures forall d :: CheckedSub(a, b) == Ok(d) <==> InRange(d) && CheckedAdd(d, b) == Ok(a)
    ensures CheckedAdd(a, b).Err? ==> CheckedAdd(a, b) == Err(Overflow)
    ensures CheckedSub(a, b).Err? ==> CheckedSub(a, b) == Err(Underflow)
  {
  }

  /** The product of two raw values fits 128 bits; the result is the exact product
      rounded toward zero, and Overflow is reported exactly when that leaves 64 bits. */
  lemma MulIsExact(a: int, b: int)
    requires InRange(a) && InRange(b)
    ensures InRange128(a * b)
    ensures forall q :: CheckedMul(a, b) == Ok(q) <==> InRange(q) && IsTruncated(a * b, SCALE, q)
    ensures CheckedMul(a, b).Err? ==> CheckedMul(a, b) == Err(Overflow)
  {
    ProductBound(a, b, 0x8000_0000_0000_0000);
    TruncatedIffEqual(a * b, SCALE);
  }

  lemma TruncatedIffEqual(num: int, den: int)
    requires den != 0
    ensures forall q :: IsTruncated(num, den, q) <==> q == TruncDiv(num, den)
  {
    TruncRemainder(num, den);
    forall q | IsTruncated(num, den, q) ensures q == TruncDiv(num, den) {
      TruncUnique(num, den, q);
    }
  }

  /** The same of division; a zero divisor is the only other failure. */
  lemma DivIsExact(a: int, b: int)
    requires InRange(a) && InRange(b)
    ensures InRange128(a * SCALE)
    ensures b != 0 ==> forall q :: CheckedDiv(a, b) == Ok(q) <==> InRange(q) && IsTruncated(a * SCALE, b, q)
    ensures CheckedDiv(a, b).Err? ==> CheckedDiv(a, b) == Err(if b == 0 then DivisionByZero else Overflow)
    ensures b == 0 ==> CheckedDiv(a, b) == Err(DivisionByZero)
  {
    if b != 0 {
      TruncatedIffEqual(a * SCALE, b);
    }
  }

  // The round trip on magnitudes: p = x y / S, then q = p S / y.
  lemma MagnitudeRoundTrip(x: int, y: int, p: int, q: int)
    requires x >= 0 && y > 0 && p == x * y / SCALE && q == p * SCALE / y
    ensures 0 <= q <= x && (x - q) * y < SCALE + y
  {
    assert x * y >= 0 by { MulMono(0, x, y); }
    DivMod(x * y, SCALE);
    DivMod(p * SCALE, y);
    assert (x - q) * y == x * y - q * y;
    CancelFactor(q, x, y);
  }

  lemma CancelFactor(a: int, b: int, c: int)
    requires c > 0 && a * c <= b * c
    ensures a <= b
  {
    if a > b { MulMono(b + 1, a, c); }
  }

  /** Multiplying by b and dividing by it again succeeds whenever the multiplication did,
      never grows in magnitude or changes sign, and loses less than SCALE / |b| + 1 raw units. */
  lemma MulThenDiv(a: int, b: int, p: int)
    requires InRange(a) && InRange(b) && b != 0 && CheckedMul(a, b) == Ok(p)
    ensures CheckedDiv(p, b).Ok?
    ensures var a' := CheckedDiv(p, b).value;
            && Abs(a') <= Abs(a)
            && (a >= 0 ==> a' >= 0) && (a <= 0 ==> a' <= 0)
            && Abs(a - a') * Abs(b) < SCALE + Abs(b)
  {
    var x, y := Abs(a), Abs(b);
    AbsProduct(a, b);
    TruncRemainder(a * b, SCALE);
    AbsProduct(p, SCALE);
    TruncRemainder(p * SCALE, b);
    var q := TruncDiv(p * SCALE, b);
    MagnitudeRoundTrip(x, y, Abs(p), Abs(q));
    QuotientSign(a, b, p, q);
    assert Abs(a - q) == x - Abs(q);
  }

  lemma QuotientSign(a: int, b: int, p: int, q: int)
    requires b != 0 && p == TruncDiv(a * b, SCALE) && q == TruncDiv(p * SCALE, b)
    ensures (a >= 0 ==> q >= 0) && (a <= 0 ==> q <= 0)
  {
    AbsProduct(a, b);
    TruncRemainder(a * b, SCALE);
    TruncRemainder(p * SCALE, b);
    if a == 0 {
      assert a * b == 0 && p == 0 && q == 0;
    }
  }
}
