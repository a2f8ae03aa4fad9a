/** UTF-8 as used by encodeURIComponent and decodeURIComponent (ECMA-262,
    section 19.2.6): a Unicode scalar value becomes one to four octets, and a
    sequence of octets decodes back only if it is the shortest encoding of a
    scalar value. */
module Utf8 {
  import opened Wrappers

  type Byte = b: int | 0 <= b < 256

  /** True when `b` has the shape 10xxxxxx of a continuation octet. */
  predicate IsContinuation(b: Byte) {
    0x80 <= b < 0xC0
  }

  /** The number of leading one bits of an octet, as the Decode operation of
      ECMA-262 counts them (0 for an ASCII octet, 1 for a continuation octet,
      up to 8). */
  function LeadingOnes(b: Byte): (n: nat)
    ensures n <= 8
    ensures n == 0 <==> b < 0x80
  {
    if b < 0x80 then 0
    else if b < 0xC0 then 1
    else if b < 0xE0 then 2
    else if b < 0xF0 then 3
    else if b < 0xF8 then 4
    else if b < 0xFC then 5
    else if b < 0xFE then 6
    else if b < 0xFF then 7
    else 8
  }

  /** The octets of the UTF-8 encoding of one character: the code point is cut
      into six-bit groups, the lowest group last. */
  function EncodeChar(c: char): (bytes: seq<Byte>)
  {
    var cp := c as int;
    var t1 := cp / 64;
    var t2 := t1 / 64;
    if cp < 0x80 then [cp]
    else if cp < 0x800 then [0xC0 + t1, 0x80 + cp % 64]
    else if cp < 0x10000 then [0xE0 + t2, 0x80 + t1 % 64, 0x80 + cp % 64]
    else [0xF0 + t2 / 64, 0x80 + t2 % 64, 0x80 + t1 % 64, 0x80 + cp % 64]
  }

  /** True when `cp` is a Unicode scalar value, that is, a code point that is
      not a surrogate. */
  predicate IsScalar(cp: int) {
    (0 <= cp < 0xD800) || (0xE000 <= cp < 0x110000)
  }

  /** The code point spelt by a lead octet and its continuation octets, before
      any validity check. */
  function CodePoint(bytes: seq<Byte>): int
    requires 2 <= |bytes| <= 4
  {
    var b0, b1 := bytes[0] as int, bytes[1] as int;
    if |bytes| == 2 then (b0 - 0xC0) * 64 + (b1 - 0x80)
    else if |bytes| == 3 then ((b0 - 0xE0) * 64 + (b1 - 0x80)) * 64 + (bytes[2] as int - 0x80)
    else (((b0 - 0xF0) * 64 + (b1 - 0x80)) * 64 + (bytes[2] as int - 0x80)) * 64 + (bytes[3] as int - 0x80)
  }

  /** Decodes a multi-octet sequence whose length the lead octet announces.
      Fails on a bad continuation octet, an overlong form, a surrogate and a
      code point above U+10FFFF; what it accepts is exactly what EncodeChar
      writes. */
  function DecodeMulti(bytes: seq<Byte>): (r: Option<char>)
    requires 2 <= |bytes| <= 4 && LeadingOnes(bytes[0]) == |bytes|
    ensures r.Some? ==> EncodeChar(r.value) == bytes
  {
    if exists i | 1 <= i < |bytes| :: !IsContinuation(bytes[i]) then None
    else
      var cp := CodePoint(bytes);
      var least := if |bytes| == 2 then 0x80 else if |bytes| == 3 then 0x800 else 0x10000;
      if least <= cp && IsScalar(cp) then
        EncodingOfCodePoint(bytes);
        Some(cp as char)
      else None
  }

  /** The octets of a valid multi-octet sequence are those EncodeChar writes
      for the code point they spell. */
  lemma EncodingOfCodePoint(bytes: seq<Byte>)
    requires 2 <= |bytes| <= 4 && LeadingOnes(bytes[0]) == |bytes|
    requires forall i | 1 <= i < |bytes| :: IsContinuation(bytes[i])
    requires IsScalar(CodePoint(bytes))
    requires CodePoint(bytes) >= (if |bytes| == 2 then 0x80 else if |bytes| == 3 then 0x800 else 0x10000)
    ensures EncodeChar(CodePoint(bytes) as char) == bytes
  {
    var cp := CodePoint(bytes);
    var b0: int, b1: int := bytes[0], bytes[1];
    if |bytes| == 2 {
      assert cp / 64 == b0 - 0xC0 && cp % 64 == b1 - 0x80;
    } else if |bytes| == 3 {
      var b2: int := bytes[2];
      var t1 := (b0 - 0xE0) * 64 + (b1 - 0x80);
      assert cp / 64 == t1 && cp % 64 == b2 - 0x80;
      assert t1 / 64 == b0 - 0xE0 && t1 % 64 == b1 - 0x80;
    } else {
      var b2: int, b3: int := bytes[2], bytes[3];
      var t2 := (b0 - 0xF0) * 64 + (b1 - 0x80);
      var t1 := t2 * 64 + (b2 - 0x80);
      assert cp / 64 == t1 && cp % 64 == b3 - 0x80;
      assert t1 / 64 == t2 && t1 % 64 == b2 - 0x80;
      assert t2 / 64 == b0 - 0xF0 && t2 % 64 == b1 - 0x80;
    }
  }

  /** Every character's encoding has a lead octet announcing its length, and
      decoding its octets gives the character back. */
  lemma DecodeEncodeChar(c: char)
    ensures var bytes := EncodeChar(c);
      && 1 <= |bytes| <= 4
      && LeadingOnes(bytes[0]) == (if |bytes| == 1 then 0 else |bytes|)
      && (|bytes| == 1 ==> bytes[0] == c as int)
      && (|bytes| > 1 ==> (forall i | 1 <= i < |bytes| :: IsContinuation(bytes[i])) && DecodeMulti(bytes) == Some(c))
  {
    var cp := c as int;
    var bytes := EncodeChar(c);
    var t1 := cp / 64;
    var t2 := t1 / 64;
    assert cp == t1 * 64 + cp % 64;
    assert t1 == t2 * 64 + t1 % 64;
    assert t2 == (t2 / 64) * 64 + t2 % 64;
    if 0x80 <= cp < 0x800 {
      assert CodePoint(bytes) == cp;
    } else if 0x800 <= cp < 0x10000 {
      assert CodePoint(bytes) == cp;
    } else if cp >= 0x10000 {
      assert CodePoint(bytes) == cp;
    }
  }
}
