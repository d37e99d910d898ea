/** Decimal rendering of integers, as JavaScript's `String(n)` prints them, and the
    parsers that invert it. */
module Numerals {

  predicate IsDigit(c: char) {
    '0' <= c <= '9'
  }

  predicate AllDigits(s: string) {
    forall i :: 0 <= i < |s| ==> IsDigit(s[i])
  }

  function DigitChar(d: int): (c: char)
    requires 0 <= d < 10
    ensures IsDigit(c)
  {
    ['0', '1', '2', '3', '4', '5', '6', '7', '8', '9'][d]
  }

  function DigitValue(c: char): (d: int)
    requires IsDigit(c)
    ensures 0 <= d < 10
  {
    c as int - '0' as int
  }

  lemma DigitRoundTrip(d: int)
    requires 0 <= d < 10
    ensures DigitValue(DigitChar(d)) == d
  {
  }

  /** Decimal digits of a natural number, most significant first, without leading zeros. */
  function NatToString(n: nat): (s: string)
    ensures 1 <= |s|
    ensures AllDigits(s)
    ensures n < 10 <==> |s| == 1
    ensures |s| <= 2 <==> n < 100
  {
    if n < 10 then [DigitChar(n)] else NatToString(n / 10) + [DigitChar(n % 10)]
  }

  /** Value of a string of decimal digits. */
  function ParseNat(s: string): nat
    requires AllDigits(s)
  {
    if s == [] then 0 else 10 * ParseNat(s[..|s| - 1]) + DigitValue(s[|s| - 1])
  }

  lemma {:induction false} NatRoundTrip(n: nat)
    ensures ParseNat(NatToString(n)) == n
  {
    if n >= 10 {
      var s := NatToString(n);
      assert s[..|s| - 1] == NatToString(n / 10);
      NatRoundTrip(n / 10);
      DigitRoundTrip(n % 10);
    } else {
      DigitRoundTrip(n);
    }
  }

  /** `String(n)` for an integer-valued JavaScript number. */
  function IntToString(i: int): (s: string)
    ensures 1 <= |s|
    ensures s[0] == '-' <==> i < 0
    ensures forall k :: 0 < k < |s| ==> IsDigit(s[k])
  {
    if i < 0 then "-" + NatToString(-i) else NatToString(i)
  }

  /** Inverse of IntToString: an optional minus sign followed by at least one digit. */
  function ParseInt(s: string): (r: int)
    requires 1 <= |s|
    requires forall k :: 0 < k < |s| ==> IsDigit(s[k])
    requires s[0] == '-' ==> 2 <= |s|
    requires s[0] != '-' ==> IsDigit(s[0])
  {
    if s[0] == '-' then -(ParseNat(s[1..]) as int) else ParseNat(s)
  }

  lemma NegativeRoundTrip(i: int)
    requires i < 0
    ensures IntToString(i) == "-" + NatToString(-i)
    ensures ParseInt(IntToString(i)) == i
  {
    var t := NatToString(-i);
    var s := "-" + t;
    assert s[0] == '-' && s[1..] == t;
    NatRoundTrip(-i);
    assert ParseInt(s) == i;
  }

  lemma IntRoundTrip(i: int)
    ensures IntToString(i)[0] == '-' ==> 2 <= |IntToString(i)|
    ensures IntToString(i)[0] != '-' ==> IsDigit(IntToString(i)[0])
    ensures ParseInt(IntToString(i)) == i
  {
    if i < 0 {
      NegativeRoundTrip(i);
    } else {
      assert IntToString(i) == NatToString(i);
      NatRoundTrip(i);
    }
  }
}
