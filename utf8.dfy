/** Bytes and the UTF-8 encoding of Unicode scalar values, as Go's unicode/utf8 does it. */
module Utf8 {

  newtype byte = x: int | 0 <= x < 256

  type Bytes = seq<byte>

  /** U+FFFD, what Go's decoder yields for a byte that does not start a valid sequence. */
  const ReplacementChar: char := '�'

  predicate IsContinuation(b: byte)
  {
    0x80 <= b <= 0xBF
  }

  /** EncodeRune: one to four bytes for a scalar value. */
  function EncodeRune(c: char): (r: Bytes)
    ensures 1 <= |r| <= 4
  {
    var v := c as int;
    if v < 0x80 then
      [v as byte]
    else if v < 0x800 then
      [(0xC0 + v / 64) as byte, (0x80 + v % 64) as byte]
    else if v < 0x10000 then
      [(0xE0 + v / 4096) as byte, (0x80 + (v / 64) % 64) as byte, (0x80 + v % 64) as byte]
    else
      [(0xF0 + v / 262144) as byte, (0x80 + (v / 4096) % 64) as byte,
       (0x80 + (v / 64) % 64) as byte, (0x80 + v % 64) as byte]
  }

  /** A scalar value, that is, a code point Dafny's `char` can hold. */
  predicate IsScalar(v: int)
  {
    (0 <= v < 0xD800) || (0xE000 <= v < 0x11_0000)
  }

  /** DecodeRune: the first character of a non-empty byte sequence and the number of bytes it
      took. An invalid or truncated sequence decodes as U+FFFD of width one, as in Go. */
  function DecodeRune(s: Bytes): (r: (char, nat))
    requires |s| > 0
    ensures 1 <= r.1 <= |s| && r.1 <= 4
    ensures s[0] < 0x80 ==> r == (s[0] as int as char, 1)
  {
    var b0 := s[0] as int;
    if b0 < 0x80 then
      (b0 as char, 1)
    else if 0xC2 <= b0 <= 0xDF && |s| >= 2 && IsContinuation(s[1]) then
      (((b0 - 0xC0) * 64 + (s[1] as int - 0x80)) as char, 2)
    else if 0xE0 <= b0 <= 0xEF && |s| >= 3 && IsContinuation(s[1]) && IsContinuation(s[2])
      && (b0 == 0xE0 ==> s[1] >= 0xA0) && (b0 == 0xED ==> s[1] <= 0x9F) then
      (((b0 - 0xE0) * 4096 + (s[1] as int - 0x80) * 64 + (s[2] as int - 0x80)) as char, 3)
    else if 0xF0 <= b0 <= 0xF4 && |s| >= 4 && IsContinuation(s[1]) && IsContinuation(s[2])
      && IsContinuation(s[3]) && (b0 == 0xF0 ==> s[1] >= 0x90) && (b0 == 0xF4 ==> s[1] <= 0x8F) then
      (((b0 - 0xF0) * 262144 + (s[1] as int - 0x80) * 4096 + (s[2] as int - 0x80) * 64
        + (s[3] as int - 0x80)) as char, 4)
    else
      (ReplacementChar, 1)
  }

  /** Decoding the encoding of a character gives the character back and consumes exactly
      its encoding, whatever follows. */
  lemma DecodeEncodeRune(c: char, rest: Bytes)
    ensures DecodeRune(EncodeRune(c) + rest) == (c, |EncodeRune(c)|)
  {
    var v := c as int;
    var s := EncodeRune(c) + rest;
    if v < 0x80 {
    } else if v < 0x800 {
      assert v == (v / 64) * 64 + v % 64;
    } else if v < 0x10000 {
      var q := v / 64;
      assert v == q * 64 + v % 64;
      assert q == (q / 64) * 64 + q % 64;
      assert q / 64 == v / 4096;
    } else {
      var q := v / 64;
      var q2 := q / 64;
      assert v == q * 64 + v % 64;
      assert q == q2 * 64 + q % 64;
      assert q2 == (q2 / 64) * 64 + q2 % 64;
      assert q2 == v / 4096;
      assert q2 / 64 == v / 262144;
    }
  }

  /** The encoding of a character other than ASCII uses only bytes at or above 0x80. */
  lemma EncodeRuneHigh(c: char)
    requires c as int >= 0x80
    ensures forall i :: 0 <= i < |EncodeRune(c)| ==> EncodeRune(c)[i] >= 0x80
  {
  }
}
