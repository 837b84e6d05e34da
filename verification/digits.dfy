/** Decimal digit strings, as Python writes a non-negative integer: `str(n)` and the
    zero-padded numeric fields of `strftime` (`%d`, `%m`, `%Y`, `%H`, `%M`, `%S`).
    `Value` reads a digit string back; the lemmas below make it the inverse of both writers. */
module Digits {

  predicate IsDigit(c: char) {
    '0' <= c <= '9'
  }

  predicate AllDigits(s: string) {
    forall k :: 0 <= k < |s| ==> IsDigit(s[k])
  }

  function DigitChar(d: nat): (c: char)
    requires d < 10
    ensures IsDigit(c)
  {
    (48 + d) as char
  }

  function DigitValue(c: char): (d: nat)
    requires IsDigit(c)
    ensures d < 10
  {
    c as int - 48
  }

  function Pow10(w: nat): (p: nat)
    ensures p >= 1
  {
    if w == 0 then 1 else 10 * Pow10(w - 1)
  }

  /** `str(n)`: the shortest decimal numeral of `n`, without leading zeros. */
  function Decimal(n: nat): (s: string)
    ensures 1 <= |s| && AllDigits(s)
    ensures |s| == 1 <==> n < 10
    ensures |s| > 1 ==> s[0] != '0'
  {
    if n < 10 then [DigitChar(n)] else Decimal(n / 10) + [DigitChar(n % 10)]
  }

  function Zeros(k: nat): (s: string)
    ensures |s| == k && AllDigits(s)
  {
    seq(k, _ => '0')
  }

  /** A numeric `strftime` field: `str(n)` left-padded with zeros to at least `width` characters. */
  function ZeroPad(n: nat, width: nat): (s: string)
    ensures AllDigits(s)
    ensures |s| >= width && |s| >= |Decimal(n)|
    ensures 1 <= width && n < Pow10(width) ==> |s| == width
  {
    var d := Decimal(n);
    DecimalFits(n, width);
    if |d| < width then Zeros(width - |d|) + d else d
  }

  /** The number a digit string denotes; leading zeros are allowed. */
  function Value(s: string): nat
    requires AllDigits(s)
  {
    if s == [] then 0 else 10 * Value(s[..|s| - 1]) + DigitValue(s[|s| - 1])
  }

  lemma {:induction false} DecimalFits(n: nat, w: nat)
    ensures 1 <= w && n < Pow10(w) ==> |Decimal(n)| <= w
  {
    if 1 <= w && n < Pow10(w) && n >= 10 {
      assert w != 1 by { assert Pow10(1) == 10; }
      assert n / 10 < Pow10(w - 1);
      DecimalFits(n / 10, w - 1);
    }
  }

  lemma {:induction false} ValueOfDecimal(n: nat)
    ensures Value(Decimal(n)) == n
  {
    if n >= 10 {
      var s := Decimal(n);
      assert s[..|s| - 1] == Decimal(n / 10);
      ValueOfDecimal(n / 10);
    }
  }

  lemma {:induction false} ValueIgnoresLeadingZero(s: string)
    requires AllDigits(s)
    ensures Value(['0'] + s) == Value(s)
  {
    if s != [] {
      var t := ['0'] + s;
      assert t[..|t| - 1] == ['0'] + s[..|s| - 1];
      ValueIgnoresLeadingZero(s[..|s| - 1]);
    } else {
      assert ['0'] + s == ['0'];
      assert (['0'] + s)[..0] == [];
    }
  }

  lemma {:induction false} ValueIgnoresZeros(k: nat, s: string)
    requires AllDigits(s)
    ensures Value(Zeros(k) + s) == Value(s)
  {
    if k > 0 {
      assert Zeros(k) + s == ['0'] + (Zeros(k - 1) + s);
      ValueIgnoresLeadingZero(Zeros(k - 1) + s);
      ValueIgnoresZeros(k - 1, s);
    } else {
      assert Zeros(k) + s == s;
    }
  }

  /** Reading a padded field back gives the number that was written, whatever the width. */
  lemma {:induction false} ZeroPadRoundTrip(n: nat, width: nat)
    ensures Value(ZeroPad(n, width)) == n
  {
    var d := Decimal(n);
    ValueOfDecimal(n);
    if |d| < width {
      assert ZeroPad(n, width) == Zeros(width - |d|) + d;
      ValueIgnoresZeros(width - |d|, d);
    } else {
      assert ZeroPad(n, width) == d;
    }
  }

  /** The digits a string starts with: the longest prefix made only of digits. */
  function LeadingDigits(s: string): (d: string)
    ensures AllDigits(d) && d <= s
    ensures |d| < |s| ==> !IsDigit(s[|d|])
  {
    if s != [] && IsDigit(s[0]) then [s[0]] + LeadingDigits(s[1..]) else []
  }

  /** A numeral followed by a non-digit is read back whole, whatever comes after it. */
  lemma {:induction false} LeadingDigitsOfNumeral(d: string, rest: string)
    requires AllDigits(d)
    requires rest != [] && !IsDigit(rest[0])
    ensures LeadingDigits(d + rest) == d
  {
    if d != [] {
      assert (d + rest)[1..] == d[1..] + rest;
      LeadingDigitsOfNumeral(d[1..], rest);
    } else {
      assert d + rest == rest;
    }
  }

}
