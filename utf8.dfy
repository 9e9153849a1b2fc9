/**
 * The UTF-8 form of a string (RFC 3629, section 3): Go keeps strings
 * as UTF-8 bytes, so `len` of a string and `[]byte(s)` count and give
 * those bytes while a Dafny string is a sequence of code points.
 */
module Utf8 {
  newtype byte = b: int | 0 <= b < 256

  /** The number of bytes UTF-8 uses for one code point. */
  function RuneLen(c: char): (n: nat)
    ensures 1 <= n <= 4
    ensures n == 1 <==> c as int < 0x80
  {
    if c as int < 0x80 then 1
    else if c as int < 0x800 then 2
    else if c as int < 0x10000 then 3
    else 4
  }

  /** A continuation byte `10xxxxxx` carrying the six bits `v`. */
  function Cont(v: int): byte
    requires 0 <= v
  {
    (0x80 + v % 64) as byte
  }

  predicate IsCont(b: byte) {
    0x80 <= b < 0xC0
  }

  /** The bytes of one code point: a lead byte that announces the length, then continuation bytes. */
  function EncodeRune(c: char): (b: seq<byte>)
    ensures |b| == RuneLen(c)
    ensures b[0] < 0x80 <==> |b| == 1
    ensures 0xC0 <= b[0] < 0xE0 <==> |b| == 2
    ensures 0xE0 <= b[0] < 0xF0 <==> |b| == 3
    ensures 0xF0 <= b[0] < 0xF8 <==> |b| == 4
    ensures forall i :: 1 <= i < |b| ==> IsCont(b[i])
  {
    var v := c as int;
    if v < 0x80 then [v as byte]
    else if v < 0x800 then [(0xC0 + v / 64) as byte, Cont(v)]
    else if v < 0x10000 then [(0xE0 + v / 4096) as byte, Cont(v / 64), Cont(v)]
    else [(0xF0 + v / 262144) as byte, Cont(v / 4096), Cont(v / 64), Cont(v)]
  }

  /** The code point a well-formed byte group stands for. */
  function DecodeRune(b: seq<byte>): int
    requires 1 <= |b| <= 4
  {
    if |b| == 1 then b[0] as int
    else if |b| == 2 then (b[0] as int - 0xC0) * 64 + (b[1] as int - 0x80)
    else if |b| == 3 then ((b[0] as int - 0xE0) * 64 + (b[1] as int - 0x80)) * 64 + (b[2] as int - 0x80)
    else (((b[0] as int - 0xF0) * 64 + (b[1] as int - 0x80)) * 64 + (b[2] as int - 0x80)) * 64 + (b[3] as int - 0x80)
  }

  /** Decoding the bytes of a code point gives the code point back. */
  lemma RuneRoundTrip(c: char)
    ensures DecodeRune(EncodeRune(c)) == c as int
  {
    var v := c as int;
    if 0x80 <= v < 0x800 {
      assert v == (v / 64) * 64 + v % 64;
    } else if 0x800 <= v < 0x10000 {
      assert v / 64 == (v / 4096) * 64 + (v / 64) % 64;
      assert v == (v / 64) * 64 + v % 64;
    } else if 0x10000 <= v {
      assert v / 4096 == (v / 262144) * 64 + (v / 4096) % 64;
      assert v / 64 == (v / 4096) * 64 + (v / 64) % 64;
      assert v == (v / 64) * 64 + v % 64;
    }
  }

  /** `[]byte(s)`: the UTF-8 bytes of a string. */
  function Encode(s: string): seq<byte>
    decreases |s|
  {
    if s == [] then [] else EncodeRune(s[0]) + Encode(s[1..])
  }

  /** `len(s)` on a Go string: its number of UTF-8 bytes. */
  function ByteLen(s: string): nat
    decreases |s|
  {
    if s == [] then 0 else RuneLen(s[0]) + ByteLen(s[1..])
  }

  /** ByteLen is the length of the encoding. */
  lemma {:induction false} EncodeLength(s: string)
    ensures |Encode(s)| == ByteLen(s)
    decreases |s|
  {
    if s != [] {
      EncodeLength(s[1..]);
    }
  }

  /**
   * A string has at least one and at most four bytes per code point, and
   * as many bytes as code points exactly when it is all ASCII.
   */
  lemma {:induction false} ByteLenBounds(s: string)
    ensures |s| <= ByteLen(s) <= 4 * |s|
    ensures ByteLen(s) == |s| <==> forall i :: 0 <= i < |s| ==> s[i] as int < 0x80
    decreases |s|
  {
    if s != [] {
      ByteLenBounds(s[1..]);
      if ByteLen(s) == |s| {
        forall i | 0 <= i < |s| ensures s[i] as int < 0x80 {
          if i > 0 {
            assert s[i] == s[1..][i - 1];
          }
        }
      }
      if forall i :: 0 <= i < |s| ==> s[i] as int < 0x80 {
        assert s[0] as int < 0x80;
        forall i | 0 <= i < |s| - 1 ensures s[1..][i] as int < 0x80 {
          assert s[1..][i] == s[i + 1];
        }
      }
    }
  }

  /** Code points outside ASCII take at least two bytes each. */
  lemma {:induction false} NonAsciiByteLen(s: string)
    requires forall i :: 0 <= i < |s| ==> s[i] as int >= 0x80
    ensures ByteLen(s) >= 2 * |s|
    decreases |s|
  {
    if s != [] {
      assert forall i :: 0 <= i < |s| - 1 ==> s[1..][i] == s[i + 1];
      NonAsciiByteLen(s[1..]);
    }
  }
}
