/**
 Decimal rendering of integers as Go writes them: `%d` in `fmt`, and the
 zero-padded fields (`2006`, `01`, `02`) of a `time.Format` layout.
 */
module Decimal {
  import opened Basics

  predicate IsDigit(ch: char)
  {
    '0' <= ch <= '9'
  }

  predicate AllDigits(s: string)
  {
    forall i :: 0 <= i < |s| ==> IsDigit(s[i])
  }

  function DigitChar(d: int): (ch: char)
    requires 0 <= d < 10
    ensures IsDigit(ch)
  {
    ('0' as int + d) as char
  }

  /** The shortest decimal form of `n`: no leading zero, and "0" for zero. */
  function Digits(n: nat): (s: string)
    ensures |s| >= 1 && AllDigits(s)
    ensures n > 0 ==> s[0] != '0'
  {
    if n < 10 then [DigitChar(n)] else Digits(n / 10) + [DigitChar(n % 10)]
  }

  /** The value of a string of decimal digits, leading zeros allowed. */
  function ValueOf(s: string): nat
    requires AllDigits(s)
  {
    if |s| == 0 then 0 else 10 * ValueOf(s[..|s| - 1]) + (s[|s| - 1] as int - '0' as int)
  }

  /** `Digits` and `ValueOf` are inverse. */
  lemma {:induction false} ValueOfDigits(n: nat)
    ensures ValueOf(Digits(n)) == n
  {
    if n >= 10 {
      var s := Digits(n);
      assert s[..|s| - 1] == Digits(n / 10);
      ValueOfDigits(n / 10);
    }
  }

  lemma {:induction false} ValueOfPrefixZero(s: string)
    requires AllDigits(s)
    ensures ValueOf(['0'] + s) == ValueOf(s)
    decreases |s|
  {
    if |s| > 0 {
      var t := ['0'] + s;
      assert t[..|t| - 1] == ['0'] + s[..|s| - 1];
      ValueOfPrefixZero(s[..|s| - 1]);
    }
  }

  /** A number below 10^k has at most k digits. */
  lemma {:induction false} DigitsLength(n: nat, k: nat)
    requires n < Pow10(k)
    ensures |Digits(n)| <= k || (n == 0 && k == 0)
  {
    if n >= 10 {
      assert k >= 2;
      assert n / 10 < Pow10(k - 1);
      DigitsLength(n / 10, k - 1);
    }
  }

  function Pow10(k: nat): (p: nat)
    ensures p >= 1
  {
    if k == 0 then 1 else 10 * Pow10(k - 1)
  }

  /** Left-pads a digit string with zeros to at least `width` characters. */
  function PadZeros(s: string, width: nat): (r: string)
    ensures |r| == if |s| >= width then |s| else width
    decreases width - |s|
  {
    if |s| >= width then s else PadZeros(['0'] + s, width)
  }

  /** Padding keeps a digit string a digit string, with the same value. */
  lemma {:induction false} PadZerosValue(s: string, width: nat)
    requires AllDigits(s)
    ensures AllDigits(PadZeros(s, width))
    ensures ValueOf(PadZeros(s, width)) == ValueOf(s)
    decreases width - |s|
  {
    if |s| < width {
      ValueOfPrefixZero(s);
      PadZerosValue(['0'] + s, width);
    }
  }

  /**
   Go's `appendInt(x, width)` (package time): a '-' for a negative value, then the
   magnitude's digits left-padded with zeros to at least `width` digits.
   With width 0 it is also what `%d` writes.
   */
  function FormatInt(x: int, width: nat): (s: string)
  {
    var magnitude := if x < 0 then -x else x;
    (if x < 0 then "-" else "") + PadZeros(Digits(magnitude), width)
  }

  /** Reads back a `FormatInt` rendering of a non-negative value. */
  function ParseNat(s: string): (r: Option<nat>)
    ensures r.Some? <==> |s| > 0 && AllDigits(s)
  {
    if |s| > 0 && AllDigits(s) then Some(ValueOf(s)) else None
  }

  /** A non-negative value survives the padded rendering, whatever the width. */
  lemma FormatIntRoundTrip(n: nat, width: nat)
    ensures ParseNat(FormatInt(n, width)) == Some(n)
  {
    var d := Digits(n);
    ValueOfDigits(n);
    PadZerosValue(d, width);
    assert FormatInt(n, width) == PadZeros(d, width);
  }

  /** A value below 10^width renders in exactly `width` digits: the fixed-width date fields. */
  lemma FormatIntFixedWidth(n: nat, width: nat)
    requires width >= 1 && n < Pow10(width)
    ensures |FormatInt(n, width)| == width
    ensures AllDigits(FormatInt(n, width))
  {
    DigitsLength(n, width);
    PadZerosValue(Digits(n), width);
    assert FormatInt(n, width) == PadZeros(Digits(n), width);
  }
}
