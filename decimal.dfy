/**
 * Decimal rendering of an army count (`strconv.Itoa`) for the non-negative
 * values the renderer passes it, with the reading-back function that shows
 * the text denotes the number.
 */
module Decimal {

  predicate IsDigit(ch: char)
  {
    '0' <= ch <= '9'
  }

  function DigitChar(d: nat): char
    requires d < 10
  {
    "0123456789"[d]
  }

  function DigitValue(ch: char): nat
    requires IsDigit(ch)
  {
    (ch as int - '0' as int) as nat
  }

  /** `strconv.Itoa(n)` for n >= 0: shortest base-10 text, most significant digit first. */
  function Itoa(n: nat): (s: string)
    ensures |s| >= 1 && forall k :: 0 <= k < |s| ==> IsDigit(s[k])
    decreases n
  {
    if n < 10 then [DigitChar(n)] else Itoa(n / 10) + [DigitChar(n % 10)]
  }

  /** The number a string of digits denotes. */
  function ParseDecimal(s: string): nat
    requires forall k :: 0 <= k < |s| ==> IsDigit(s[k])
    decreases |s|
  {
    if s == [] then 0 else ParseDecimal(s[..|s| - 1]) * 10 + DigitValue(s[|s| - 1])
  }

  lemma DigitRoundTrip(d: nat)
    requires d < 10
    ensures IsDigit(DigitChar(d)) && DigitValue(DigitChar(d)) == d
  {
  }

  /** `Itoa` writes only digits, never a leading zero (except for 0 itself),
      and the digits read back as the number. */
  lemma {:induction false} ItoaRoundTrip(n: nat)
    ensures |Itoa(n)| >= 1
    ensures forall k :: 0 <= k < |Itoa(n)| ==> IsDigit(Itoa(n)[k])
    ensures n > 0 ==> Itoa(n)[0] != '0'
    ensures ParseDecimal(Itoa(n)) == n
    decreases n
  {
    if n < 10 {
      DigitRoundTrip(n);
      assert Itoa(n)[..0] == [];
    } else {
      ItoaRoundTrip(n / 10);
      DigitRoundTrip(n % 10);
      var s := Itoa(n);
      assert s[..|s| - 1] == Itoa(n / 10);
    }
  }
}
