/** Printing a fixed-point value for a FIX message, and a reference reader for it. */
module DecimalFormat {
  import opened Wrappers
  import opened Reals
  import opened Int64
  import opened Decimal
  import opened FixedPoint

  const CAPACITY := 32

  function Zeros(n: nat): (s: string)
    ensures |s| == n && forall i :: 0 <= i < n ==> s[i] == '0'
  {
    seq(n, _ => '0')
  }

  /** At least eight digits, filled with zeros on the left. */
  function Padded(n: nat): (s: string)
    ensures AllDigits(s)
  {
    var d := Digits(n);
    if |d| < 8 then Zeros(8 - |d|) + d else d
  }

  function TrimZeros(s: string): string {
    if s != [] && s[|s| - 1] == '0' then TrimZeros(s[..|s| - 1]) else s
  }

  /** The text built by pushing one part after the other. */
  method FormatFixedPoint(raw: int) returns (result: string)
    requires InRange(raw)
    ensures result == Format(raw)
    ensures |result| <= 21
  {
    var negative := raw < 0;
    var absVal := Abs(raw);
    var intPart, fracPart := absVal / SCALE, absVal % SCALE;
    FormatLength(raw);
    result := "";
    if negative {
      result := result + ['-'];
    }
    result := result + Digits(intPart);
    result := result + ['.'];
    var fracStr := Padded(fracPart);
    var trimmed := TrimZeros(fracStr);
    if trimmed == [] {
      result := result + ['0'];
    } else {
      result := result + trimmed;
    }
  }

  function Fraction(frac: nat): (s: string)
    ensures s != []
  {
    if TrimZeros(Padded(frac)) == [] then "0" else TrimZeros(Padded(frac))
  }

  function Format(raw: int): string {
    (if raw < 0 then "-" else "") + Digits(Abs(raw) / SCALE) + "." + Fraction(Abs(raw) % SCALE)
  }

  // ----- lengths -----

  lemma Powers()
    ensures Pow10(8) == SCALE && Pow10(11) == 100_000_000_000
  {
    assert Pow10(4) == 10_000;
    assert Pow10(8) == 10 * (10 * (10 * (10 * Pow10(4))));
    assert Pow10(11) == 10 * (10 * (10 * Pow10(8)));
  }

  lemma {:induction false} TrimShortens(s: string)
    ensures |TrimZeros(s)| <= |s| && TrimZeros(s) == s[..|TrimZeros(s)|]
    ensures TrimZeros(s) != [] ==> TrimZeros(s)[|TrimZeros(s)| - 1] != '0'
  {
    if s != [] && s[|s| - 1] == '0' {
      TrimShortens(s[..|s| - 1]);
    }
  }

  lemma PaddedLength(frac: nat)
    requires frac < SCALE
    ensures |Padded(frac)| == 8
  {
    Powers();
    DigitsLength(frac, 8);
  }

  lemma FormatLength(raw: int)
    requires InRange(raw)
    ensures |Format(raw)| <= 21 < CAPACITY
  {
    var a := Abs(raw);
    Powers();
    DigitsLength(a / SCALE, 11);
    PaddedLength(a % SCALE);
    TrimShortens(Padded(a % SCALE));
  }

  // ----- the reference reader -----

  /** A sign, digits, a point, digits. */
  datatype Parsed = Parsed(negative: bool, whole: string, frac: string)

  function PointAt(s: string): (i: nat)
    ensures i <= |s|
  {
    if s == [] || s[0] == '.' then 0 else 1 + PointAt(s[1..])
  }

  function Parse(s: string): (p: Option<Parsed>)
    ensures p.Some? ==> AllDigits(p.value.whole) && AllDigits(p.value.frac)
  {
    var negative := s != [] && s[0] == '-';
    var body := if negative then s[1..] else s;
    var i := PointAt(body);
    if i == |body| then None
    else
      var whole, frac := body[..i], body[i + 1..];
      if whole != [] && frac != [] && AllDigits(whole) && AllDigits(frac)
      then Some(Parsed(negative, whole, frac)) else None
  }

  /** The exact number a text denotes. */
  function Denoted(p: Parsed): real
    requires AllDigits(p.whole) && AllDigits(p.frac)
  {
    var magnitude := Value(p.whole) as real + Value(p.frac) as real / Pow10(|p.frac|) as real;
    if p.negative then -magnitude else magnitude
  }

  lemma {:induction false} PointAfterDigits(s: string, t: string)
    requires AllDigits(s)
    ensures PointAt(s + "." + t) == |s|
  {
    var all := s + "." + t;
    if s != [] {
      assert all[1..] == s[1..] + "." + t;
      PointAfterDigits(s[1..], t);
    }
  }

  /** Padding on the left does not change the value. */
  lemma {:induction false} ValueOfPadded(n: nat, d: string)
    requires AllDigits(d)
    ensures AllDigits(Zeros(n) + d) && Value(Zeros(n) + d) == Value(d)
    decreases |d|, n
  {
    var s := Zeros(n) + d;
    if d == [] {
      if n > 0 {
        ValueOfPadded(n - 1, d);
        assert s[..|s| - 1] == Zeros(n - 1) + d;
      }
    } else {
      var d' := d[..|d| - 1];
      ValueOfPadded(n, d');
      assert s[..|s| - 1] == Zeros(n) + d';
    }
  }

  /** Trimming on the right divides by the same power of ten as the length drops. */
  lemma {:induction false} ValueOfTrimmed(s: string)
    requires AllDigits(s)
    ensures |TrimZeros(s)| <= |s| && AllDigits(TrimZeros(s))
    ensures Value(s) == Value(TrimZeros(s)) * Pow10(|s| - |TrimZeros(s)|)
  {
    if s != [] && s[|s| - 1] == '0' {
      var s', t := s[..|s| - 1], TrimZeros(s);
      ValueOfTrimmed(s');
      assert Value(s) == 10 * Value(s');
      TimesTen(Value(t), Pow10(|s'| - |t|));
    }
  }

  lemma TimesTen(a: nat, b: nat)
    ensures 10 * (a * b) == a * (10 * b)
  {
  }

  lemma {:induction false} PowerSum(m: nat, n: nat)
    ensures Pow10(m + n) == Pow10(m) * Pow10(n)
  {
    if m > 0 {
      PowerSum(m - 1, n);
      TimesTen(Pow10(n), Pow10(m - 1));
    }
  }

  lemma ReducedFraction(v: nat, p: nat, c: nat, f: nat, d: nat)
    requires p > 0 && c > 0 && f == v * c && d == p * c
    ensures d > 0 && v as real / p as real == f as real / d as real
  {
    Int64.PositiveProduct(p, c);
    assert f as real == v as real * c as real && d as real == p as real * c as real;
    RealReduce(v as real, p as real, c as real);
  }

  lemma RealReduce(v: real, p: real, c: real)
    requires p > 0.0 && c > 0.0 && p * c > 0.0
    ensures v / p == (v * c) / (p * c)
  {
    var x := v / p;
    assert x * p == v;
    assert x * (p * c) == (x * p) * c;
    QuotientIs(v * c, p * c, x);
  }

  lemma FractionDenotes(frac: nat)
    requires frac < SCALE
    ensures AllDigits(Fraction(frac))
    ensures Value(Fraction(frac)) as real / Pow10(|Fraction(frac)|) as real == frac as real / SCALE as real
  {
    var s := Padded(frac);
    var t := TrimZeros(s);
    PaddedValue(frac);
    ValueOfTrimmed(s);
    if t == [] {
      ZeroDenotes();
    } else {
      TrimmedDenotes(t, frac);
    }
  }

  lemma ZeroDenotes()
    ensures Value("0") as real / Pow10(1) as real == 0 as real / SCALE as real
  {
    assert Value("0") == 0;
  }

  lemma TrimmedDenotes(t: string, frac: nat)
    requires 0 < |t| <= 8 && AllDigits(t) && frac == Value(t) * Pow10(8 - |t|)
    ensures Value(t) as real / Pow10(|t|) as real == frac as real / SCALE as real
  {
    PowerSum(|t|, 8 - |t|);
    Powers();
    ReducedFraction(Value(t), Pow10(|t|), Pow10(8 - |t|), frac, SCALE);
  }

  lemma PaddedValue(frac: nat)
    requires frac < SCALE
    ensures |Padded(frac)| == 8 && Value(Padded(frac)) == frac
  {
    PaddedLength(frac);
    ValueOfDigits(frac);
    if |Digits(frac)| < 8 { ValueOfPadded(8 - |Digits(frac)|, Digits(frac)); }
  }

  lemma WholePlusFraction(a: nat)
    ensures (a / SCALE) as real + (a % SCALE) as real / SCALE as real == a as real / SCALE as real
  {
    assert a == (a / SCALE) * SCALE + a % SCALE;
    assert a as real == (a / SCALE) as real * SCALE as real + (a % SCALE) as real;
  }

  lemma ParseOfParts(negative: bool, whole: string, frac: string)
    requires whole != [] && frac != [] && AllDigits(whole) && AllDigits(frac)
    ensures Parse((if negative then "-" else "") + whole + "." + frac) == Some(Parsed(negative, whole, frac))
  {
    var body := whole + "." + frac;
    var s := (if negative then "-" else "") + whole + "." + frac;
    PointAfterDigits(whole, frac);
    assert IsDigit(body[0]) && body[..|whole|] == whole && body[|whole| + 1..] == frac;
    if negative {
      assert s[1..] == body;
    } else {
      assert s == body;
    }
  }

  lemma ParseOfFormat(raw: int)
    ensures Parse(Format(raw)) == Some(Parsed(raw < 0, Digits(Abs(raw) / SCALE), Fraction(Abs(raw) % SCALE)))
  {
    FractionDenotes(Abs(raw) % SCALE);
    ParseOfParts(raw < 0, Digits(Abs(raw) / SCALE), Fraction(Abs(raw) % SCALE));
  }

  /** Reading a printed value back gives it exactly. */
  lemma FormatDenotesValue(raw: int)
    ensures Parse(Format(raw)).Some?
    ensures Denoted(Parse(Format(raw)).value) == raw as real / SCALE as real
  {
    var a := Abs(raw);
    ParseOfFormat(raw);
    ValueOfDigits(a / SCALE);
    FractionDenotes(a % SCALE);
    WholePlusFraction(a);
  }

  /** So different values are printed differently. */
  lemma FormatInjective(a: int, b: int)
    requires Format(a) == Format(b)
    ensures a == b
  {
    FormatDenotesValue(a);
    FormatDenotesValue(b);
    assert a as real / SCALE as real * SCALE as real == a as real;
    assert b as real / SCALE as real * SCALE as real == b as real;
  }

  /** The printed fraction has no trailing zero, unless it is a single one. */
  lemma FractionIsTrimmed(raw: int)
    ensures var f := Fraction(Abs(raw) % SCALE);
            f == "0" || f[|f| - 1] != '0'
  {
    TrimShortens(Padded(Abs(raw) % SCALE));
  }
}
