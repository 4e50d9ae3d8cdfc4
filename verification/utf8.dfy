/**
 Go strings are UTF-8 byte strings. The model keeps a string as its sequence of
 code points (Dafny `char` values are Unicode scalar values); this module gives the
 byte view: the encoding `[]byte(s)`, the byte length `len(s)`, and the decoding
 `[]rune(b)` that undoes it.
 */
module Utf8 {
  import opened Basics

  type byte = b: int | 0 <= b < 256

  /** Number of bytes UTF-8 uses for one code point. */
  function Width(c: char): (w: nat)
    ensures 1 <= w <= 4
    ensures w == 1 <==> (c as int) < 0x80
  {
    var cp := c as int;
    if cp < 0x80 then 1 else if cp < 0x800 then 2 else if cp < 0x10000 then 3 else 4
  }

  /** Go's `len(s)`: the number of bytes in the UTF-8 form of `s`. */
  function ByteLen(s: string): nat
  {
    if |s| == 0 then 0 else ByteLen(s[..|s| - 1]) + Width(s[|s| - 1])
  }

  predicate IsAscii(s: string)
  {
    forall i :: 0 <= i < |s| ==> (s[i] as int) < 0x80
  }

  /** The byte length is never below the code-point count, and equals it exactly for ASCII text. */
  lemma {:induction false} ByteLenVersusRuneCount(s: string)
    ensures ByteLen(s) >= |s|
    ensures ByteLen(s) == |s| <==> IsAscii(s)
  {
    if |s| > 0 {
      var p := s[..|s| - 1];
      ByteLenVersusRuneCount(p);
      assert IsAscii(s) <==> IsAscii(p) && (s[|s| - 1] as int) < 0x80 by {
        if IsAscii(p) && (s[|s| - 1] as int) < 0x80 {
          forall i | 0 <= i < |s| ensures (s[i] as int) < 0x80 {
            if i < |s| - 1 { assert s[i] == p[i]; }
          }
        }
        if IsAscii(s) {
          forall i | 0 <= i < |p| ensures (p[i] as int) < 0x80 {
            assert p[i] == s[i];
          }
        }
      }
    }
  }

  lemma {:induction false} ByteLenAppend(s: string, t: string)
    ensures ByteLen(s + t) == ByteLen(s) + ByteLen(t)
    decreases |t|
  {
    if |t| == 0 {
      assert s + t == s;
    } else {
      var t' := t[..|t| - 1];
      assert (s + t)[..|s + t| - 1] == s + t';
      ByteLenAppend(s, t');
    }
  }

  function EncodeChar(c: char): (bs: seq<byte>)
    ensures |bs| == Width(c)
  {
    var cp := c as int;
    if cp < 0x80 then [cp]
    else if cp < 0x800 then [0xC0 + cp / 64, 0x80 + cp % 64]
    else if cp < 0x10000 then
      var r := cp % 4096;
      [0xE0 + cp / 4096, 0x80 + r / 64, 0x80 + r % 64]
    else
      var r1 := cp % 262144;
      var r2 := r1 % 4096;
      [0xF0 + cp / 262144, 0x80 + r1 / 4096, 0x80 + r2 / 64, 0x80 + r2 % 64]
  }

  /** Go's `[]byte(s)`. */
  function Encode(s: string): (bs: seq<byte>)
    ensures |bs| == ByteLen(s)
  {
    if |s| == 0 then [] else Encode(s[..|s| - 1]) + EncodeChar(s[|s| - 1])
  }

  predicate IsContinuation(b: byte)
  {
    0x80 <= b < 0xC0
  }

  /** True when `cp` is a Unicode scalar value, i.e. a valid `char`. */
  predicate IsScalar(cp: int)
  {
    (0 <= cp < 0xD800) || (0xE000 <= cp < 0x11_0000)
  }

  /**
   Decodes the code point at the head of `bs`, with the number of bytes it used;
   `None` on a malformed, overlong, surrogate or out-of-range sequence.
   */
  function DecodeHead(bs: seq<byte>): (r: Option<(char, nat)>)
    requires |bs| > 0
    ensures r.Some? ==> 1 <= r.value.1 <= |bs| && r.value.1 == Width(r.value.0)
  {
    var b0 := bs[0] as int;
    if b0 < 0x80 then
      Some((b0 as char, 1))
    else if 0xC0 <= b0 < 0xE0 && |bs| >= 2 && IsContinuation(bs[1]) then
      var cp := (b0 - 0xC0) * 64 + (bs[1] as int - 0x80);
      if 0x80 <= cp then Some((cp as char, 2)) else None
    else if 0xE0 <= b0 < 0xF0 && |bs| >= 3 && IsContinuation(bs[1]) && IsContinuation(bs[2]) then
      var cp := (b0 - 0xE0) * 4096 + (bs[1] as int - 0x80) * 64 + (bs[2] as int - 0x80);
      if 0x800 <= cp && IsScalar(cp) then Some((cp as char, 3)) else None
    else if 0xF0 <= b0 < 0xF8 && |bs| >= 4 && IsContinuation(bs[1]) && IsContinuation(bs[2])
            && IsContinuation(bs[3]) then
      var cp := (b0 - 0xF0) * 262144 + (bs[1] as int - 0x80) * 4096 + (bs[2] as int - 0x80) * 64
        + (bs[3] as int - 0x80);
      if 0x10000 <= cp && IsScalar(cp) then Some((cp as char, 4)) else None
    else
      None
  }

  /** The strict form of Go's `[]rune(string(bs))`: `None` on any malformed sequence. */
  function Decode(bs: seq<byte>): Option<string>
    decreases |bs|
  {
    if |bs| == 0 then Some([])
    else match DecodeHead(bs)
      case None => None
      case Some((c, n)) =>
        match Decode(bs[n..])
        case None => None
        case Some(rest) => Some([c] + rest)
  }

  lemma DecodeHeadEncodeChar(c: char, rest: seq<byte>)
    ensures DecodeHead(EncodeChar(c) + rest) == Some((c, Width(c)))
  {
    var cp := c as int;
    if cp < 0x80 {
    } else if cp < 0x800 {
      DecodeHeadTwo(c, rest);
    } else if cp < 0x10000 {
      DecodeHeadThree(c, rest);
    } else {
      DecodeHeadFour(c, rest);
    }
  }

  lemma DecodeHeadTwo(c: char, rest: seq<byte>)
    requires 0x80 <= c as int < 0x800
    ensures DecodeHead(EncodeChar(c) + rest) == Some((c, 2))
  {
    var cp := c as int;
    var bs := EncodeChar(c) + rest;
    assert bs[0] == 0xC0 + cp / 64 && bs[1] == 0x80 + cp % 64;
    assert (cp / 64) * 64 + cp % 64 == cp;
  }

  lemma DecodeHeadThree(c: char, rest: seq<byte>)
    requires 0x800 <= c as int < 0x10000
    ensures DecodeHead(EncodeChar(c) + rest) == Some((c, 3))
  {
    var cp := c as int;
    var r := cp % 4096;
    var bs := EncodeChar(c) + rest;
    assert bs[0] == 0xE0 + cp / 4096 && bs[1] == 0x80 + r / 64 && bs[2] == 0x80 + r % 64;
    assert (cp / 4096) * 4096 + r == cp;
    assert (r / 64) * 64 + r % 64 == r;
  }

  lemma DecodeHeadFour(c: char, rest: seq<byte>)
    requires 0x10000 <= c as int
    ensures DecodeHead(EncodeChar(c) + rest) == Some((c, 4))
  {
    var cp := c as int;
    var r1 := cp % 262144;
    var r2 := r1 % 4096;
    var bs := EncodeChar(c) + rest;
    assert bs[0] == 0xF0 + cp / 262144 && bs[1] == 0x80 + r1 / 4096
      && bs[2] == 0x80 + r2 / 64 && bs[3] == 0x80 + r2 % 64;
    assert (cp / 262144) * 262144 + r1 == cp;
    assert (r1 / 4096) * 4096 + r2 == r1;
    assert (r2 / 64) * 64 + r2 % 64 == r2;
  }

  /** Front-recursive view of the encoding, used by the round trip. */
  lemma {:induction false} EncodeCons(c: char, s: string)
    ensures Encode([c] + s) == EncodeChar(c) + Encode(s)
    decreases |s|
  {
    if |s| == 0 {
      assert [c] + s == [c];
      assert Encode([c])[..] == Encode([c][..0]) + EncodeChar(c);
    } else {
      var s' := s[..|s| - 1];
      assert ([c] + s)[..|[c] + s| - 1] == [c] + s';
      EncodeCons(c, s');
    }
  }

  /** Decoding the encoding of any string gives back that string. */
  lemma {:induction false} DecodeEncode(s: string)
    ensures Decode(Encode(s)) == Some(s)
    decreases |s|
  {
    if |s| > 0 {
      var c, t := s[0], s[1..];
      assert s == [c] + t;
      EncodeCons(c, t);
      var bs := Encode(s);
      assert bs == EncodeChar(c) + Encode(t);
      DecodeHeadEncodeChar(c, Encode(t));
      assert bs[Width(c)..] == Encode(t);
      DecodeEncode(t);
    }
  }
}
