// Decimal text of integers, as `std::format("{}", n)` and `operator<<`
// write it and as `std::from_chars` reads it back (base 10, no sign for
// unsigned targets, no leading `+`, no whitespace).

module Decimal {

  predicate IsDigit(c: char) { '0' <= c <= '9' }

  predicate AllDigits(s: string) { forall k :: 0 <= k < |s| ==> IsDigit(s[k]) }

  function DigitChar(d: nat): (c: char)
    requires d < 10
    ensures IsDigit(c) && c as int - '0' as int == d
  {
    ('0' as int + d) as char
  }

  function DigitValue(c: char): (d: nat)
    requires IsDigit(c)
    ensures d < 10 && DigitChar(d) == c
  {
    c as int - '0' as int
  }

  /** The value of a run of digits, most significant first. */
  function DigitsValue(s: string): nat
    requires AllDigits(s)
  {
    if s == [] then 0 else DigitsValue(s[..|s| - 1]) * 10 + DigitValue(s[|s| - 1])
  }

  /** The shortest decimal text of n: no leading zero except for 0 itself. */
  function NatText(n: nat): (r: string)
    ensures |r| >= 1 && AllDigits(r)
    ensures (|r| > 1 ==> r[0] != '0') && (r[0] == '0' ==> n == 0)
  {
    if n < 10 then [DigitChar(n)] else NatText(n / 10) + [DigitChar(n % 10)]
  }

  /** Reading the text back gives the number. */
  lemma {:induction false} NatTextValue(n: nat)
    ensures DigitsValue(NatText(n)) == n
  {
    if n >= 10 {
      NatTextValue(n / 10);
      var s := NatText(n);
      assert s[..|s| - 1] == NatText(n / 10);
    }
  }

  /** A signed value: a `-` before the magnitude when negative. */
  function IntText(i: int): (r: string)
    ensures |r| >= 1 && (i >= 0 <==> r[0] != '-')
    ensures i >= 0 ==> r == NatText(i)
    ensures i < 0 ==> r == "-" + NatText(-i)
  {
    if i < 0 then "-" + NatText(-i) else NatText(i)
  }

  /** The length of the leading run of digits. */
  function DigitRun(s: string): (r: nat)
    ensures r <= |s| && AllDigits(s[..r]) && (r < |s| ==> !IsDigit(s[r]))
  {
    if s == [] || !IsDigit(s[0]) then 0
    else
      var r := DigitRun(s[1..]);
      r + 1
  }
}
