/** Machine integers: 64-bit two's complement values as a range of int, with the wrapping,
    saturating and truncating operations the trackers use.

    Values are plain integers with an `InRange` condition rather than a newtype, so that the
    128-bit intermediates of the fixed-point and averaging code can be written as they are;
    whether they fit is then a question with an answer.  The lemmas are the few laws of
    truncating division and of wrapping that Dafny's Euclidean operators do not give by
    themselves. */
module Int64 {

  const MIN: int := -0x8000_0000_0000_0000
  const MAX: int := 0x7FFF_FFFF_FFFF_FFFF
  const TWO64: int := 0x1_0000_0000_0000_0000
  const TWO126: int := 0x4000_0000_0000_0000_0000_0000_0000_0000
  const TWO127: int := 0x8000_0000_0000_0000_0000_0000_0000_0000

  predicate InRange(x: int) {
    MIN <= x <= MAX
  }

  predicate InRange128(x: int) {
    -TWO127 <= x < TWO127
  }

  function Wrap(x: int): (w: int)
    ensures InRange(w) && (InRange(x) ==> w == x)
  {
    (x + 0x8000_0000_0000_0000) % TWO64 - 0x8000_0000_0000_0000
  }

  function Saturate(x: int): (s: int)
    ensures InRange(s) && (InRange(x) ==> s == x)
  {
    if x > MAX then MAX else if x < MIN then MIN else x
  }

  function Abs(x: int): (a: int)
    ensures a >= 0 && (a == x || a == -x)
  {
    if x < 0 then -x else x
  }

  /** Division as Rust defines it: rounded toward zero. */
  function TruncDiv(a: int, b: int): int
    requires b != 0
  {
    var q := Abs(a) / Abs(b);
    if (a < 0) == (b < 0) then q else -q
  }

  /** Wrapping once is wrapping at every addition. */
  lemma WrapOfSum(x: int, y: int)
    ensures Wrap(Wrap(x) + y) == Wrap(x + y)
  {
    var h := 0x8000_0000_0000_0000;
    var k := (x + h) / TWO64;
    assert x + h == k * TWO64 + (x + h) % TWO64;
    ModShift(Wrap(x) + y + h, k);
  }

  lemma ModShift(a: int, k: int)
    ensures (a + k * TWO64) % TWO64 == a % TWO64
  {
    var q := a / TWO64;
    assert a + k * TWO64 == (q + k) * TWO64 + a % TWO64;
    ModUnique(a + k * TWO64, q + k, a % TWO64);
  }

  lemma ModUnique(x: int, q: int, r: int)
    requires x == q * TWO64 + r && 0 <= r < TWO64
    ensures x % TWO64 == r
  {
  }

  lemma ProductBound(a: int, b: int, m: int)
    requires Abs(a) <= m && Abs(b) <= m
    ensures Abs(a * b) <= m * m
  {
    AbsProduct(a, b);
    var x, y := Abs(a), Abs(b);
    assert x * y <= m * y by { MulMono(x, m, y); }
    assert m * y <= m * m by { MulMono(y, m, m); }
  }

  lemma MulMono(a: int, b: int, c: int)
    requires a <= b && 0 <= c
    ensures a * c <= b * c && c * a <= c * b
  {
  }

  lemma AbsProduct(a: int, b: int)
    ensures Abs(a * b) == Abs(a) * Abs(b)
    ensures a != 0 && b != 0 ==> (a * b < 0 <==> ((a < 0) != (b < 0)))
  {
    if a < 0 && b < 0 { assert a * b == (-a) * (-b); }
    else if a < 0 { assert a * b == -((-a) * b); }
    else if b < 0 { assert a * b == -(a * (-b)); }
    if a != 0 && b != 0 { PositiveProduct(Abs(a), Abs(b)); }
  }

  lemma PositiveProduct(a: int, b: int)
    requires a > 0 && b > 0
    ensures a * b > 0
  {
  }

  lemma DivMod(a: int, b: int)
    requires a >= 0 && b > 0
    ensures a == (a / b) * b + a % b && 0 <= a % b < b && 0 <= a / b <= a
  {
    var q, r := a / b, a % b;
    assert a == q * b + r;
    if q < 0 { MulMono(q, -1, b); }
    if q > a { MulMono(a + 1, q, b); MulMono(1, b, a + 1); }
  }

  /** The remainder of truncation is smaller than the divisor and has the dividend's sign. */
  lemma TruncRemainder(a: int, b: int)
    requires b != 0
    ensures var r := a - TruncDiv(a, b) * b;
            Abs(r) < Abs(b) && (a >= 0 ==> r >= 0) && (a <= 0 ==> r <= 0)
    ensures Abs(TruncDiv(a, b)) == Abs(a) / Abs(b)
  {
    var q := TruncDiv(a, b);
    var m := Abs(a) / Abs(b);
    DivMod(Abs(a), Abs(b));
    AbsProduct(q, b);
    assert q * b == if a < 0 then -(m * Abs(b)) else m * Abs(b) by {
      if b < 0 { assert q * b == (-q) * Abs(b); }
      assert (-m) * Abs(b) == -(m * Abs(b));
    }
  }

  /** Only one integer has a remainder of that kind. */
  lemma TruncUnique(a: int, b: int, q: int)
    requires b != 0
    requires var r := a - q * b; Abs(r) < Abs(b) && (a >= 0 ==> r >= 0) && (a <= 0 ==> r <= 0)
    ensures q == TruncDiv(a, b)
  {
    var p := TruncDiv(a, b);
    TruncRemainder(a, b);
    DifferenceTimes(a, b, p, q);
    ClosePair(q - p, b, a - p * b, a - q * b);
  }

  lemma DifferenceTimes(a: int, b: int, p: int, q: int)
    ensures (q - p) * b == (a - p * b) - (a - q * b)
  {
  }

  // Two remainders of the same sign differ by less than b.
  lemma ClosePair(d: int, b: int, r: int, s: int)
    requires d * b == r - s && Abs(r) < Abs(b) && Abs(s) < Abs(b)
    requires (r >= 0 && s >= 0) || (r <= 0 && s <= 0)
    ensures d == 0
  {
    AbsProduct(d, b);
    if d != 0 { MulMono(1, Abs(d), Abs(b)); }
  }
}
