/**
 * Decimal rendering of integers, as a Python f-string renders an `int`
 * (`f"{n}"` is `str(n)`): an optional leading '-', then the digits of the
 * magnitude without leading zeros ("0" for zero, never "-0").
 *
 * `DecimalValue` is the inverse reading; the two are proved to be a
 * bijection between `int` and the canonical decimal strings.
 */
module Decimal {

  predicate IsDigit(c: char) {
    '0' <= c <= '9'
  }

  predicate AllDigits(s: string) {
    forall k :: 0 <= k < |s| ==> IsDigit(s[k])
  }

  /** A non-empty digit string without a superfluous leading zero. */
  predicate IsCanonicalDigits(d: string) {
    |d| > 0 && AllDigits(d) && (|d| > 1 ==> d[0] != '0')
  }

  /** The strings `str(n)` can produce for an `int` n. */
  predicate IsDecimal(s: string) {
    if |s| > 0 && s[0] == '-' then IsCanonicalDigits(s[1..]) && s[1..] != "0"
    else IsCanonicalDigits(s)
  }

  function DigitChar(d: nat): (c: char)
    requires d < 10
    ensures IsDigit(c) && c as int - '0' as int == d
  {
    ('0' as int + d) as char
  }

  function DigitValue(c: char): (d: nat)
    requires IsDigit(c)
    ensures d < 10 && DigitChar(d) == c
  {
    c as int - '0' as int
  }

  /** The decimal digits of a natural number, most significant first. */
  function NatDigits(n: nat): (s: string)
    ensures IsCanonicalDigits(s)
    ensures s[0] == '0' <==> n == 0
    decreases n
  {
    if n < 10 then [DigitChar(n)] else NatDigits(n / 10) + [DigitChar(n % 10)]
  }

  /** `str(i)` for a Python `int` i. */
  function IntToDecimal(i: int): (s: string)
    ensures IsDecimal(s)
    ensures |s| > 0 && IsDigit(s[|s| - 1])
    ensures forall k :: 0 <= k < |s| ==> IsDigit(s[k]) || (k == 0 && s[k] == '-')
    ensures s[0] == '-' <==> i < 0
  {
    if i < 0 then
      var d := NatDigits(-i);
      assert ("-" + d)[1..] == d;
      "-" + d
    else NatDigits(i)
  }

  /** The value of a digit string read in base ten. */
  function DigitsValue(d: string): nat
    requires AllDigits(d)
    decreases |d|
  {
    if d == [] then 0 else DigitsValue(d[..|d| - 1]) * 10 + DigitValue(d[|d| - 1])
  }

  /** The integer a decimal string denotes. */
  function DecimalValue(s: string): int
    requires IsDecimal(s)
  {
    if s[0] == '-' then -(DigitsValue(s[1..]) as int) else DigitsValue(s)
  }

  lemma {:induction false} NatDigitsValue(n: nat)
    ensures DigitsValue(NatDigits(n)) == n
    decreases n
  {
    var s := NatDigits(n);
    if n >= 10 {
      NatDigitsValue(n / 10);
      assert s[..|s| - 1] == NatDigits(n / 10);
    }
  }

  /** A canonical digit string has a positive value unless it is "0". */
  lemma {:induction false} CanonicalDigitsPositive(d: string)
    requires IsCanonicalDigits(d) && d != "0"
    ensures DigitsValue(d) >= 1
    decreases |d|
  {
    if |d| > 1 {
      var p := d[..|d| - 1];
      assert p[0] == d[0];
      if |p| == 1 {
        assert p != "0";
      }
      CanonicalDigitsPositive(p);
    } else {
      assert d == [d[0]];
    }
  }

  lemma {:induction false} DigitsValueNatDigits(d: string)
    requires IsCanonicalDigits(d)
    ensures NatDigits(DigitsValue(d)) == d
    decreases |d|
  {
    if |d| > 1 {
      var p := d[..|d| - 1];
      assert p[0] == d[0];
      if |p| == 1 {
        assert p != "0";
      }
      CanonicalDigitsPositive(p);
      DigitsValueNatDigits(p);
      assert d == p + [d[|d| - 1]];
    } else {
      assert d == [d[0]];
    }
  }

  /** Reading back a rendered integer gives the integer. */
  lemma DecimalRoundTrip(i: int)
    ensures DecimalValue(IntToDecimal(i)) == i
  {
    if i < 0 {
      NatDigitsValue(-i);
      assert IntToDecimal(i)[1..] == NatDigits(-i);
    } else {
      NatDigitsValue(i);
    }
  }

  /** Rendering the value of a canonical decimal string gives the string back. */
  lemma DecimalCanonical(s: string)
    requires IsDecimal(s)
    ensures IntToDecimal(DecimalValue(s)) == s
  {
    if s[0] == '-' {
      var d := s[1..];
      DigitsValueNatDigits(d);
      CanonicalDigitsPositive(d);
      assert s == "-" + d;
    } else {
      DigitsValueNatDigits(s);
    }
  }

  /** Distinct integers render as distinct strings. */
  lemma DecimalInjective(i: int, j: int)
    ensures IntToDecimal(i) == IntToDecimal(j) <==> i == j
  {
    DecimalRoundTrip(i);
    DecimalRoundTrip(j);
  }

  /** The first position at or after k that does not hold a digit (or |s|). */
  function DigitRun(s: string, k: nat): (j: nat)
    requires k <= |s|
    ensures k <= j <= |s|
    decreases |s| - k
  {
    if k == |s| || !IsDigit(s[k]) then k else DigitRun(s, k + 1)
  }

  lemma {:induction false} DigitRunStopsAtDelimiter(a: string, x: string, k: nat)
    requires k <= |a| && |x| > 0 && !IsDigit(x[0])
    requires forall j :: k <= j < |a| ==> IsDigit(a[j])
    ensures DigitRun(a + x, k) == |a|
    decreases |a| - k
  {
    if k < |a| {
      assert (a + x)[k] == a[k];
      DigitRunStopsAtDelimiter(a, x, k + 1);
    } else {
      assert (a + x)[k] == x[0];
    }
  }

  /** After the first character, a rendered integer is a run of digits. */
  lemma DigitRunOfDecimal(a: string, x: string)
    requires IsDecimal(a) && |x| > 0 && !IsDigit(x[0])
    ensures |a| >= 1 && DigitRun(a + x, 1) == |a|
  {
    if a[0] == '-' {
      assert forall j :: 1 <= j < |a| ==> a[j] == a[1..][j - 1];
    }
    DigitRunStopsAtDelimiter(a, x, 1);
  }

  /**
   * A rendered integer followed by text that starts with a non-digit can be
   * split back unambiguously: the integer and the rest are both determined.
   */
  lemma DecimalThenDelimiter(i: int, x: string, j: int, y: string)
    requires |x| > 0 && !IsDigit(x[0]) && |y| > 0 && !IsDigit(y[0])
    ensures IntToDecimal(i) + x == IntToDecimal(j) + y <==> i == j && x == y
  {
    var a, b := IntToDecimal(i), IntToDecimal(j);
    if a + x == b + y {
      DigitRunOfDecimal(a, x);
      DigitRunOfDecimal(b, y);
      assert a == (a + x)[..|a|] == (b + y)[..|b|] == b;
      assert x == (a + x)[|a|..] == (b + y)[|b|..] == y;
      DecimalInjective(i, j);
    }
  }
}
