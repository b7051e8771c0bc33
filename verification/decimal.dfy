/** Decimal rendering of numbers, as JavaScript's number-to-string conversions produce it. */
module Decimal {

  predicate IsDigit(c: char) {
    '0' <= c <= '9'
  }

  predicate AllDigits(s: string) {
    forall i :: 0 <= i < |s| ==> IsDigit(s[i])
  }

  function DigitChar(d: nat): (c: char)
    requires d < 10
    ensures IsDigit(c) && c as int - '0' as int == d
  {
    ('0' as int + d) as char
  }

  /** The value of a string of decimal digits, most significant first. */
  function DigitsValue(s: string): nat
    requires AllDigits(s)
  {
    if |s| == 0 then 0 else DigitsValue(s[..|s| - 1]) * 10 + (s[|s| - 1] as int - '0' as int)
  }

  /** The shortest decimal rendering of `n` (no leading zeros). */
  function NatToString(n: nat): (r: string)
    ensures 0 < |r| && AllDigits(r)
    ensures |r| > 1 ==> r[0] != '0'
  {
    if n < 10 then [DigitChar(n)] else NatToString(n / 10) + [DigitChar(n % 10)]
  }

  /** Reading the rendering back yields the number: NatToString is injective. */
  lemma {:induction false} NatToStringRoundTrip(n: nat)
    ensures DigitsValue(NatToString(n)) == n
  {
    if n >= 10 {
      var s := NatToString(n);
      assert s[..|s| - 1] == NatToString(n / 10);
      NatToStringRoundTrip(n / 10);
    }
  }

  /** `String(n)` for an integral JavaScript number. */
  function IntToString(n: int): (r: string)
    ensures 0 < |r|
    ensures r[0] == '-' <==> n < 0
    ensures n >= 0 ==> AllDigits(r)
  {
    if n < 0 then "-" + NatToString(-n) else NatToString(n)
  }

  /** `x.toFixed(1)` for a non-negative amount given exactly in tenths. */
  function Fixed1(tenths: nat): (r: string)
    ensures 3 <= |r| && r[|r| - 2] == '.'
    ensures AllDigits(r[..|r| - 2]) && IsDigit(r[|r| - 1])
  {
    NatToString(tenths / 10) + "." + [DigitChar(tenths % 10)]
  }

  /** Dropping the decimal point from the rendering leaves the digits of the amount in tenths:
      the text reads back as exactly tenths / 10. */
  lemma Fixed1RoundTrip(tenths: nat)
    ensures var r := Fixed1(tenths);
            DigitsValue(r[..|r| - 2] + [r[|r| - 1]]) == tenths
  {
    var r := Fixed1(tenths);
    var whole := NatToString(tenths / 10);
    assert r[..|r| - 2] == whole;
    var digits := whole + [DigitChar(tenths % 10)];
    assert digits[..|digits| - 1] == whole;
    NatToStringRoundTrip(tenths / 10);
  }
}
