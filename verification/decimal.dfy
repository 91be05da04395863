/**
 * Decimal text of positions. The saved markup carries each slide's position
 * as the text of a hidden element; reading it back yields that text.
 */
module Decimal {
  import opened Wrappers

  predicate IsDigit(c: char) {
    '0' <= c <= '9'
  }

  predicate AllDigits(s: string) {
    forall i :: 0 <= i < |s| ==> IsDigit(s[i])
  }

  /** A non-empty run of decimal digits. */
  predicate IsNumeral(s: string) {
    |s| > 0 && AllDigits(s)
  }

  function DigitChar(d: nat): (c: char)
    requires d < 10
    ensures IsDigit(c)
  {
    ('0' as int + d) as char
  }

  function DigitValue(c: char): (d: nat)
    requires IsDigit(c)
    ensures d < 10
    ensures DigitChar(d) == c
  {
    c as int - '0' as int
  }

  /** The decimal text of `n`, without leading zeros, as a JavaScript number prints. */
  function NatToDecimal(n: nat): (s: string)
    ensures IsNumeral(s)
    ensures n < 10 <==> |s| == 1
    decreases n
  {
    if n < 10 then [DigitChar(n)]
    else NatToDecimal(n / 10) + [DigitChar(n % 10)]
  }

  /** The number denoted by a run of digits (0 for the empty run). */
  function DigitsValue(s: string): nat
    requires AllDigits(s)
  {
    if |s| == 0 then 0
    else DigitsValue(s[..|s| - 1]) * 10 + DigitValue(s[|s| - 1])
  }

  /** Reading a position back from its text: only a numeral denotes a position. */
  function ParseDecimal(s: string): (r: Option<nat>)
    ensures r.Some? <==> IsNumeral(s)
  {
    if IsNumeral(s) then Some(DigitsValue(s)) else None
  }

  /** Printing a position and reading it back gives the position. */
  lemma {:induction false} DecimalRoundTrip(n: nat)
    ensures ParseDecimal(NatToDecimal(n)) == Some(n)
    decreases n
  {
    var s := NatToDecimal(n);
    if n < 10 {
      assert s[..0] == [];
      assert DigitsValue(s[..0]) == 0;
      assert DigitValue(DigitChar(n)) == n;
      assert DigitsValue(s) == n;
    } else {
      DecimalRoundTrip(n / 10);
      assert s[..|s| - 1] == NatToDecimal(n / 10);
      assert DigitValue(DigitChar(n % 10)) == n % 10;
    }
  }
}
