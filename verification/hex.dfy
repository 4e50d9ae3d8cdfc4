/** Go's `%x` verb applied to a byte array: two lower-case hex digits per byte, high nibble first. */
module Hex {
  import opened Basics
  import opened Utf8

  const LowerHexDigits: string := "0123456789abcdef"

  predicate IsLowerHexDigit(ch: char)
  {
    ('0' <= ch <= '9') || ('a' <= ch <= 'f')
  }

  function NibbleChar(n: int): (ch: char)
    requires 0 <= n < 16
    ensures IsLowerHexDigit(ch)
    ensures ch == LowerHexDigits[n]
  {
    if n < 10 then ('0' as int + n) as char else ('a' as int + n - 10) as char
  }

  function NibbleValue(ch: char): (r: Option<int>)
    ensures r.Some? <==> IsLowerHexDigit(ch)
    ensures r.Some? ==> 0 <= r.value < 16 && NibbleChar(r.value) == ch
  {
    if '0' <= ch <= '9' then Some(ch as int - '0' as int)
    else if 'a' <= ch <= 'f' then Some(ch as int - 'a' as int + 10)
    else None
  }

  /** `fmt.Sprintf("%x", bs)`. */
  function HexLower(bs: seq<byte>): (s: string)
    ensures |s| == 2 * |bs|
    ensures forall i :: 0 <= i < |s| ==> IsLowerHexDigit(s[i])
  {
    if |bs| == 0 then "" else [NibbleChar(bs[0] / 16), NibbleChar(bs[0] % 16)] + HexLower(bs[1..])
  }

  /** Reads back a `%x` rendering; `None` on an odd length or a character outside 0-9a-f. */
  function ParseHex(s: string): Option<seq<byte>>
  {
    if |s| == 0 then Some([])
    else if |s| == 1 then None
    else match (NibbleValue(s[0]), NibbleValue(s[1]), ParseHex(s[2..]))
      case (Some(hi), Some(lo), Some(rest)) => Some([hi * 16 + lo] + rest)
      case _ => None
  }

  /** The rendering loses nothing: parsing it gives back the bytes. */
  lemma {:induction false} ParseHexLower(bs: seq<byte>)
    ensures ParseHex(HexLower(bs)) == Some(bs)
  {
    if |bs| > 0 {
      var s := HexLower(bs);
      var hi, lo := bs[0] / 16, bs[0] % 16;
      NibbleRoundTrip(hi);
      NibbleRoundTrip(lo);
      assert s[2..] == HexLower(bs[1..]);
      ParseHexLower(bs[1..]);
      ParseHexStep(s, hi, lo, bs[1..]);
      assert bs == [hi * 16 + lo] + bs[1..];
    }
  }

  lemma NibbleRoundTrip(n: int)
    requires 0 <= n < 16
    ensures NibbleValue(NibbleChar(n)) == Some(n)
  {
  }

  lemma ParseHexStep(s: string, hi: int, lo: int, rest: seq<byte>)
    requires |s| >= 2
    requires NibbleValue(s[0]) == Some(hi) && NibbleValue(s[1]) == Some(lo)
    requires ParseHex(s[2..]) == Some(rest)
    ensures ParseHex(s) == Some([hi * 16 + lo] + rest)
  {
  }

  /** Hence two byte strings render the same only if they are equal. */
  lemma HexLowerInjective(a: seq<byte>, b: seq<byte>)
    requires HexLower(a) == HexLower(b)
    ensures a == b
  {
    ParseHexLower(a);
    ParseHexLower(b);
  }
}
