/**
 * Decimal text of a Java long, as ContentUris.withAppendedId writes an id
 * into a path segment (Long.toString) and as Long.parseLong reads it back.
 */
module Decimal {
  import opened Wrappers

  /** The range of a Java long. */
  const LONG_MIN: int := -0x8000_0000_0000_0000
  const LONG_MAX: int := 0x7fff_ffff_ffff_ffff

  predicate IsLong(n: int) {
    LONG_MIN <= n <= LONG_MAX
  }

  predicate IsDigit(c: char) {
    '0' <= c <= '9'
  }

  /** Every character is an ASCII digit: what a `#` segment of a UriMatcher pattern accepts. */
  predicate AllDigits(s: string) {
    forall i :: 0 <= i < |s| ==> IsDigit(s[i])
  }

  function DigitChar(d: nat): (c: char)
    requires d < 10
    ensures IsDigit(c) && DigitValue(c) == d
  {
    (48 + d) as char
  }

  function DigitValue(c: char): (d: nat)
    requires IsDigit(c)
    ensures d < 10
  {
    c as int - 48
  }

  /** The digits of n, most significant first, without leading zeros. */
  function Digits(n: nat): (s: string)
    ensures |s| > 0 && AllDigits(s)
  {
    if n < 10 then [DigitChar(n)] else Digits(n / 10) + [DigitChar(n % 10)]
  }

  /** The number a digit string denotes. */
  function ValueOf(s: string): nat
    requires AllDigits(s)
  {
    if s == [] then 0 else 10 * ValueOf(s[..|s| - 1]) + DigitValue(s[|s| - 1])
  }

  lemma {:induction false} ValueOfDigits(n: nat)
    ensures ValueOf(Digits(n)) == n
  {
    if n >= 10 {
      var s := Digits(n / 10) + [DigitChar(n % 10)];
      assert s[..|s| - 1] == Digits(n / 10);
      ValueOfDigits(n / 10);
    }
  }

  /** Long.toString(n): a '-' for a negative number, then the digits of its magnitude. */
  function LongToString(n: int): (s: string)
    ensures |s| > 0
    ensures n >= 0 <==> AllDigits(s)
  {
    if n < 0 then
      var s := "-" + Digits(-n);
      assert !IsDigit(s[0]);
      s
    else Digits(n)
  }

  /**
   * Long.parseLong(s) restricted to ASCII digits: an optional '-', then one
   * or more of '0'..'9', and the value must fit a long; None stands for the
   * NumberFormatException thrown otherwise.
   */
  function ParseLong(s: string): (r: Option<int>)
    ensures r.Some? ==> IsLong(r.value)
    ensures AllDigits(s) && s != [] && IsLong(ValueOf(s)) ==> r == Some(ValueOf(s))
    ensures AllDigits(s) && r.Some? ==> r.value >= 0
  {
    if |s| > 0 && s[0] == '-' then
      var t := s[1..];
      if |t| > 0 && AllDigits(t) && IsLong(0 - ValueOf(t)) then Some(0 - ValueOf(t)) else None
    else if |s| > 0 && AllDigits(s) && IsLong(ValueOf(s)) then Some(ValueOf(s))
    else None
  }

  /** Reading back what Long.toString wrote gives the same long. */
  lemma ParseLongToString(n: int)
    requires IsLong(n)
    ensures ParseLong(LongToString(n)) == Some(n)
  {
    var s := LongToString(n);
    if n < 0 {
      assert s[1..] == Digits(-n);
      ValueOfDigits(-n);
    } else {
      ValueOfDigits(n);
      assert IsDigit(s[0]);
    }
  }

  /** Long.toString is injective on longs. */
  lemma LongToStringInjective(a: int, b: int)
    requires IsLong(a) && IsLong(b)
    requires LongToString(a) == LongToString(b)
    ensures a == b
  {
    ParseLongToString(a);
    ParseLongToString(b);
  }
}
