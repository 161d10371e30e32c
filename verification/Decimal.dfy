/** Decimal numerals: Python's `str` on integers and `int` on digit strings. */
module Decimal {
  import opened TextFormats

  function Digit(d: int): (c: char)
    requires 0 <= d < 10
    ensures IsDigit(c)
  {
    ('0' as int + d) as char
  }

  function DigitValue(c: char): (d: int)
    requires IsDigit(c)
    ensures 0 <= d < 10 && Digit(d) == c
  {
    c as int - '0' as int
  }

  predicate AllDigits(s: string) { forall i :: 0 <= i < |s| ==> IsDigit(s[i]) }

  /** `str(n)` for a natural number. */
  function OfNat(n: nat): (s: string)
    ensures |s| > 0 && AllDigits(s)
  {
    if n < 10 then [Digit(n)] else OfNat(n / 10) + [Digit(n % 10)]
  }

  /** `int(s)` for a string of digits. */
  function ToNat(s: string): nat
    requires AllDigits(s)
  {
    if s == [] then 0 else 10 * ToNat(s[..|s| - 1]) + DigitValue(s[|s| - 1])
  }

  /** `str(n)`. */
  function OfInt(n: int): string {
    if n < 0 then "-" + OfNat(-n) else OfNat(n)
  }

  /** The pattern `0|[1-9][0-9]*`. */
  predicate IsCanonical(s: string) {
    |s| > 0 && AllDigits(s) && (s[0] == '0' ==> |s| == 1)
  }

  lemma {:induction false} ToNatOfNat(n: nat)
    ensures ToNat(OfNat(n)) == n
    ensures IsCanonical(OfNat(n))
    ensures n > 0 ==> OfNat(n)[0] != '0'
  {
    if n >= 10 {
      ToNatOfNat(n / 10);
      assert OfNat(n)[..|OfNat(n)| - 1] == OfNat(n / 10);
    }
  }

  lemma {:induction false} OfNatToNat(s: string)
    requires IsCanonical(s)
    ensures OfNat(ToNat(s)) == s
    ensures s[0] != '0' ==> ToNat(s) > 0
  {
    var front, last := s[..|s| - 1], s[|s| - 1];
    assert s == front + [last];
    if |s| > 1 {
      OfNatToNat(front);
      var n := ToNat(front);
      assert ToNat(s) == 10 * n + DigitValue(last);
      assert ToNat(s) / 10 == n && ToNat(s) % 10 == DigitValue(last);
    } else {
      assert ToNat(front) == 0;
    }
  }
}
