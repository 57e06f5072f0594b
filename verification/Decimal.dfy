/** Decimal notation of integers, and reading it back.

    `Digits` writes a natural number without leading zeros and `Value` reads any string of
    digits, leading zeros included; `IntString` and `ReadInt` do the same for integers with an
    optional minus sign.  The lemmas say that one inverts the other, and how long the notation
    of a bounded number can be; printing and hashing of numbers both rest on this. */
module Decimal {

  function DigitChar(d: nat): (c: char)
    requires d < 10
    ensures IsDigit(c) && DigitValue(c) == d
  {
    "0123456789"[d]
  }

  predicate IsDigit(c: char) {
    '0' <= c <= '9'
  }

  function DigitValue(c: char): nat
    requires IsDigit(c)
  {
    c as int - '0' as int
  }

  predicate AllDigits(s: string) {
    forall i :: 0 <= i < |s| ==> IsDigit(s[i])
  }

  /** No sign, no leading zeros. */
  function Digits(n: nat): (s: string)
    ensures s != [] && AllDigits(s)
  {
    if n < 10 then [DigitChar(n)] else Digits(n / 10) + [DigitChar(n % 10)]
  }

  function Value(s: string): nat
    requires AllDigits(s)
  {
    if s == [] then 0 else 10 * Value(s[..|s| - 1]) + DigitValue(s[|s| - 1])
  }

  function Pow10(n: nat): (p: nat)
    ensures p > 0
  {
    if n == 0 then 1 else 10 * Pow10(n - 1)
  }

  lemma {:induction false} ValueOfDigits(n: nat)
    ensures Value(Digits(n)) == n
  {
    if n >= 10 {
      ValueOfDigits(n / 10);
      assert Digits(n)[..|Digits(n)| - 1] == Digits(n / 10);
    } else {
      assert Digits(n)[..0] == [];
    }
  }

  lemma {:induction false} DigitsLength(n: nat, k: nat)
    requires k > 0 && n < Pow10(k)
    ensures |Digits(n)| <= k
  {
    if n >= 10 {
      DigitsLength(n / 10, k - 1);
    }
  }

  /** A number with a minus sign if it is negative, as Python writes it. */
  function IntString(n: int): (s: string)
    ensures s != []
  {
    if n < 0 then "-" + Digits(-n) else Digits(n)
  }

  /** A number read from decimal digits with an optional minus sign. */
  function ReadInt(s: string): int {
    if s != [] && s[0] == '-' then ReadNegative(s[1..]) else if AllDigits(s) then Value(s) else 0
  }

  function ReadNegative(s: string): int {
    if AllDigits(s) then 0 - Value(s) else 0
  }

  lemma ReadIntString(n: int)
    ensures ReadInt(IntString(n)) == n
  {
    if n < 0 {
      ReadSigned(Digits(-n));
      ValueOfDigits(-n);
    } else {
      assert IsDigit(Digits(n)[0]);
      ValueOfDigits(n);
    }
  }

  lemma ReadSigned(s: string)
    ensures ReadInt("-" + s) == ReadNegative(s)
  {
    assert ("-" + s)[1..] == s;
  }
}
