/**
 * `TextEncoder` and `TextDecoder` for UTF-8.  The encoder writes each Unicode
 * scalar value with the byte patterns of section 3 of RFC 3629.  The decoder
 * is the UTF-8 decoder of the WHATWG Encoding standard in replacement mode
 * (what `new TextDecoder()` uses): an ill-formed sequence becomes U+FFFD and
 * decoding resumes at the byte that broke it; a leading byte order mark is
 * removed because `ignoreBOM` defaults to false.
 */
module Utf8 {
  import opened Bytes

  const Replacement: char := '\U{FFFD}'
  const ByteOrderMark: char := '\U{FEFF}'

  /** The one to four bytes of one scalar value (table of section 3 of RFC 3629). */
  function EncodeChar(c: char): (b: seq<Byte>)
    ensures 1 <= |b| <= 4
  {
    var v := c as int;
    if v < 0x80 then [v]
    else if v < 0x800 then [0xC0 + v / 64, 0x80 + v % 64]
    else if v < 0x10000 then [0xE0 + v / 4096, 0x80 + (v / 64) % 64, 0x80 + v % 64]
    else [0xF0 + v / 262144, 0x80 + (v / 4096) % 64, 0x80 + (v / 64) % 64, 0x80 + v % 64]
  }

  /** `new TextEncoder().encode(s)`. */
  function Encode(s: string): (b: seq<Byte>)
    ensures |s| <= |b| <= 4 * |s|
  {
    if s == [] then [] else EncodeChar(s[0]) + Encode(s[1..])
  }

  predicate IsContinuation(x: int) { 0x80 <= x <= 0xBF }

  /** The byte at `i`, or 0 past the end (only read after a length test). */
  function At(b: seq<Byte>, i: nat): int {
    if i < |b| then b[i] as int else 0
  }

  /**
   * One step of the WHATWG UTF-8 decoder from the first byte of `b`: the
   * character it emits and how many bytes it consumes.  When a byte breaks a
   * sequence, U+FFFD is emitted and that byte is not consumed.
   */
  function DecodeStep(b: seq<Byte>): (r: (char, nat))
    requires |b| > 0
    ensures 1 <= r.1 <= |b|
  {
    var b0, b1, b2, b3 := b[0] as int, At(b, 1), At(b, 2), At(b, 3);
    if b0 < 0x80 then (b0 as char, 1)
    else if 0xC2 <= b0 <= 0xDF then
      if |b| < 2 || !IsContinuation(b1) then (Replacement, 1)
      else (((b0 - 0xC0) * 64 + (b1 - 0x80)) as char, 2)
    else if 0xE0 <= b0 <= 0xEF then
      var lo := if b0 == 0xE0 then 0xA0 else 0x80;
      var hi := if b0 == 0xED then 0x9F else 0xBF;
      if |b| < 2 || !(lo <= b1 <= hi) then (Replacement, 1)
      else if |b| < 3 || !IsContinuation(b2) then (Replacement, 2)
      else (((b0 - 0xE0) * 4096 + (b1 - 0x80) * 64 + (b2 - 0x80)) as char, 3)
    else if 0xF0 <= b0 <= 0xF4 then
      var lo := if b0 == 0xF0 then 0x90 else 0x80;
      var hi := if b0 == 0xF4 then 0x8F else 0xBF;
      if |b| < 2 || !(lo <= b1 <= hi) then (Replacement, 1)
      else if |b| < 3 || !IsContinuation(b2) then (Replacement, 2)
      else if |b| < 4 || !IsContinuation(b3) then (Replacement, 3)
      else (((b0 - 0xF0) * 262144 + (b1 - 0x80) * 4096 + (b2 - 0x80) * 64 + (b3 - 0x80)) as char, 4)
    else (Replacement, 1)
  }

  /** The decoder's output before the byte order mark is considered. */
  function DecodeAll(b: seq<Byte>): (s: string)
    ensures |s| <= |b|
    decreases |b|
  {
    if b == [] then []
    else
      var (c, n) := DecodeStep(b);
      [c] + DecodeAll(b[n..])
  }

  /** `new TextDecoder().decode(b)`. */
  function Decode(b: seq<Byte>): (s: string)
    ensures |s| <= |b|
  {
    var s := DecodeAll(b);
    if |s| > 0 && s[0] == ByteOrderMark then s[1..] else s
  }

  /** The decoder reads back exactly the bytes the encoder wrote for one character. */
  lemma DecodeStepOfEncodeChar(c: char, rest: seq<Byte>)
    ensures DecodeStep(EncodeChar(c) + rest) == (c, |EncodeChar(c)|)
  {
    var v := c as int;
    if v < 0x80 {
    } else if v < 0x800 {
      DecodeTwo(c, rest);
    } else if v < 0x10000 {
      DecodeThree(c, rest);
    } else {
      DecodeFour(c, rest);
    }
  }

  lemma DecodeTwo(c: char, rest: seq<Byte>)
    requires 0x80 <= c as int < 0x800
    ensures DecodeStep(EncodeChar(c) + rest) == (c, 2)
  {
    var v := c as int;
    var b := EncodeChar(c) + rest;
    var q, r := v / 64, v % 64;
    assert v == q * 64 + r;
    assert b[0] as int == 0xC0 + q && b[1] as int == 0x80 + r;
  }

  lemma DecodeThree(c: char, rest: seq<Byte>)
    requires 0x800 <= c as int < 0x10000
    ensures DecodeStep(EncodeChar(c) + rest) == (c, 3)
  {
    var v := c as int;
    var b := EncodeChar(c) + rest;
    var q, m, r := v / 4096, (v / 64) % 64, v % 64;
    assert v == q * 4096 + m * 64 + r;
    assert b[0] as int == 0xE0 + q && b[1] as int == 0x80 + m && b[2] as int == 0x80 + r;
    assert q == 0 ==> m >= 0x20;
    assert q == 0xD ==> m <= 0x1F;
  }

  lemma DecodeFour(c: char, rest: seq<Byte>)
    requires 0x10000 <= c as int
    ensures DecodeStep(EncodeChar(c) + rest) == (c, 4)
  {
    var v := c as int;
    var b := EncodeChar(c) + rest;
    var q, m1, m2, r := v / 262144, (v / 4096) % 64, (v / 64) % 64, v % 64;
    SplitFour(v);
    assert b[0] as int == 0xF0 + q && b[1] as int == 0x80 + m1;
    assert b[2] as int == 0x80 + m2 && b[3] as int == 0x80 + r;
    FourByteValue(b, q, m1, m2, r);
  }

  /** A supplementary code point in four base-64 digits, the first at most 4. */
  lemma SplitFour(v: int)
    requires 0x10000 <= v <= 0x10FFFF
    ensures var q, m1, m2, r := v / 262144, (v / 4096) % 64, (v / 64) % 64, v % 64;
      && v == q * 262144 + m1 * 4096 + m2 * 64 + r
      && 0 <= q <= 4
      && (q == 0 ==> m1 >= 0x10)
      && (q == 4 ==> m1 <= 0x0F)
  {
  }

  lemma FourByteValue(b: seq<Byte>, q: int, m1: int, m2: int, r: int)
    requires |b| >= 4 && 0 <= q <= 4 && 0 <= m1 < 64 && 0 <= m2 < 64 && 0 <= r < 64
    requires q == 0 ==> m1 >= 0x10
    requires q == 4 ==> m1 <= 0x0F
    requires b[0] as int == 0xF0 + q && b[1] as int == 0x80 + m1
    requires b[2] as int == 0x80 + m2 && b[3] as int == 0x80 + r
    ensures DecodeStep(b) == ((q * 262144 + m1 * 4096 + m2 * 64 + r) as char, 4)
  {
  }

  /** Decoding an encoding, before the byte order mark rule, is the identity. */
  lemma {:induction false} DecodeAllEncode(s: string)
    ensures DecodeAll(Encode(s)) == s
    decreases |s|
  {
    if s != [] {
      var head := EncodeChar(s[0]);
      DecodeStepOfEncodeChar(s[0], Encode(s[1..]));
      assert (head + Encode(s[1..]))[|head|..] == Encode(s[1..]);
      DecodeAllEncode(s[1..]);
      assert s == [s[0]] + s[1..];
    }
  }

  /**
   * `TextDecoder` undoes `TextEncoder` exactly when the text does not begin
   * with U+FEFF; a leading U+FEFF is taken for a byte order mark and dropped.
   */
  lemma DecodeEncode(s: string)
    ensures Decode(Encode(s)) == if |s| > 0 && s[0] == ByteOrderMark then s[1..] else s
    ensures Decode(Encode(s)) == s <==> !(|s| > 0 && s[0] == ByteOrderMark)
  {
    DecodeAllEncode(s);
  }

  /**
   * An ill-formed sequence is replaced, not silently accepted: a continuation
   * byte, or a byte that never starts a sequence, where a character should
   * start decodes to U+FFFD, and decoding resumes at the next byte.
   */
  lemma LoneContinuationIsReplaced(c: Byte, rest: seq<Byte>)
    requires 0x80 <= c <= 0xC1 || 0xF5 <= c
    ensures Decode([c] + rest) == [Replacement] + DecodeAll(rest)
  {
    assert ([c] + rest)[1..] == rest;
  }
}
