/** Decimal numerals: the digit runs inside size strings ("3 KB") and durations ("PT33S"). */
module Decimal {

  predicate IsDigit(c: char) {
    '0' <= c <= '9'
  }

  predicate AllDigits(s: string) {
    forall i | 0 <= i < |s| :: IsDigit(s[i])
  }

  function DigitValue(c: char): (d: nat)
    requires IsDigit(c)
    ensures d < 10
  {
    (c as int) - ('0' as int)
  }

  function DigitChar(d: nat): (c: char)
    requires d < 10
    ensures IsDigit(c) && DigitValue(c) == d
  {
    (('0' as int) + d) as char
  }

  /** The value of a digit string, most significant digit first (leading zeros allowed). */
  function DigitsValue(s: string): nat
    requires AllDigits(s)
  {
    if s == [] then 0 else 10 * DigitsValue(s[..|s| - 1]) + DigitValue(s[|s| - 1])
  }

  /** The shortest decimal numeral of n. */
  function NatToString(n: nat): (s: string)
    ensures |s| > 0 && AllDigits(s)
  {
    if n < 10 then [DigitChar(n)] else NatToString(n / 10) + [DigitChar(n % 10)]
  }

  /** Length of the longest prefix of s made of digits. */
  function DigitRunLength(s: string): (k: nat)
    ensures k <= |s| && AllDigits(s[..k])
    ensures k < |s| ==> !IsDigit(s[k])
  {
    if s == [] || !IsDigit(s[0]) then 0 else 1 + DigitRunLength(s[1..])
  }

  /** Reading back the numeral of n gives n. */
  lemma {:induction false} NatToStringValue(n: nat)
    ensures DigitsValue(NatToString(n)) == n
  {
    if n >= 10 {
      var s := NatToString(n);
      assert s[..|s| - 1] == NatToString(n / 10);
      NatToStringValue(n / 10);
    }
  }

  /** A digit run stops exactly at the first non-digit: the run of a numeral followed by a non-digit is the numeral. */
  lemma {:induction false} DigitRunStopsAtNonDigit(digits: string, c: char, tail: string)
    requires AllDigits(digits) && !IsDigit(c)
    ensures DigitRunLength(digits + [c] + tail) == |digits|
  {
    if digits != [] {
      assert (digits + [c] + tail)[1..] == digits[1..] + [c] + tail;
      DigitRunStopsAtNonDigit(digits[1..], c, tail);
    }
  }

  /** A digit run ending at the end of the string covers all of it. */
  lemma {:induction false} DigitRunOfDigits(digits: string)
    requires AllDigits(digits)
    ensures DigitRunLength(digits) == |digits|
  {
    if digits != [] {
      DigitRunOfDigits(digits[1..]);
    }
  }
}
