/** Decimal digit strings: reading them as numbers and writing numbers as them. */
module Numerals {

  predicate IsDigit(c: char)
  {
    '0' <= c <= '9'
  }

  predicate AllDigits(s: string)
  {
    forall i :: 0 <= i < |s| ==> IsDigit(s[i])
  }

  function DigitChar(d: nat): (c: char)
    requires d < 10
    ensures IsDigit(c) && c as int - '0' as int == d
  {
    ('0' as int + d) as char
  }

  function Pow10(n: nat): (p: nat)
    ensures p >= 1
  {
    if n == 0 then 1 else 10 * Pow10(n - 1)
  }

  /** The number a digit string denotes (leading zeros allowed, the empty string is 0). */
  function DigitsValue(s: string): (v: nat)
    requires AllDigits(s)
    ensures v < Pow10(|s|)
    decreases |s|
  {
    if s == [] then 0
    else 10 * DigitsValue(s[..|s| - 1]) + (s[|s| - 1] as int - '0' as int)
  }

  /** The last `width` decimal digits of `n`, padded with zeros on the left (`%02d`, `%04d`). */
  function PadDigits(n: nat, width: nat): (s: string)
    ensures |s| == width && AllDigits(s)
    ensures n < Pow10(width) ==> DigitsValue(s) == n
  {
    if width == 0 then []
    else
      var s' := PadDigits(n / 10, width - 1);
      assert (s' + [DigitChar(n % 10)])[..width - 1] == s';
      s' + [DigitChar(n % 10)]
  }

  /** Writing back the value of a digit string of the right width gives the same string. */
  lemma {:induction false} PadDigitsOfValue(s: string)
    requires AllDigits(s)
    ensures PadDigits(DigitsValue(s), |s|) == s
    decreases |s|
  {
    if s != [] {
      var s' := s[..|s| - 1];
      var d := s[|s| - 1] as int - '0' as int;
      PadDigitsOfValue(s');
      var v := DigitsValue(s);
      assert v / 10 == DigitsValue(s') && v % 10 == d;
      assert s == s' + [s[|s| - 1]];
    }
  }
}
