/**
 * Decimal rendering of the calendar fields that the time directives of an
 * index-name pattern print: a natural number written in base ten, padded on
 * the left with zeros to a minimum width.
 */
module Decimal {

  predicate IsDigit(c: char) {
    '0' <= c <= '9'
  }

  predicate AllDigits(s: string) {
    forall i :: 0 <= i < |s| ==> IsDigit(s[i])
  }

  function DigitChar(d: nat): (c: char)
    requires d < 10
    ensures IsDigit(c) && c as int - '0' as int == d
  {
    ('0' as int + d) as char
  }

  /** The number a string of decimal digits denotes, most significant digit first. */
  function Value(s: string): nat
    requires AllDigits(s)
  {
    if s == [] then 0 else Value(s[..|s| - 1]) * 10 + (s[|s| - 1] as int - '0' as int)
  }

  function Pow10(k: nat): (r: nat)
    ensures r >= 1
  {
    if k == 0 then 1 else 10 * Pow10(k - 1)
  }

  /**
   * n in base ten, left-padded with zeros to at least `width` characters;
   * the digits always read back as n, a number that fits in `width`
   * digits takes exactly `width` characters, and a longer rendering of a
   * positive number has no leading zero.
   */
  function Pad(n: nat, width: nat): (s: string)
    ensures AllDigits(s) && Value(s) == n
    ensures |s| >= 1 && |s| >= width
    ensures 1 <= width && n < Pow10(width) ==> |s| == width
    ensures 0 < n && |s| > width ==> s[0] != '0'
  {
    if n < 10 && width <= 1 then
      [DigitChar(n)]
    else
      var head := Pad(n / 10, if width == 0 then 0 else width - 1);
      var s := head + [DigitChar(n % 10)];
      assert s[..|s| - 1] == head && s[0] == head[0];
      s
  }
}
