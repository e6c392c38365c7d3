/// UTF-8, the byte form of Rust's `String`: `str::len` counts these bytes and
/// `String::into_bytes` yields them.
module Utf8 {
  import opened Bits

  /// The number of bytes UTF-8 spends on `c`.
  function Width(c: char): (n: nat)
    ensures 1 <= n <= 4
  {
    if c < '\U{0080}' then 1
    else if c < '\U{0800}' then 2
    else if c < '\U{10000}' then 3
    else 4
  }

  /// The UTF-8 bytes of one character: a lead byte whose high bits give the
  /// width, then six payload bits per continuation byte.
  function EncodeChar(c: char): (b: seq<u8>)
  {
    var x := c as int;
    if x < 0x80 then [x]
    else if x < 0x800 then [0xC0 + x / 0x40, 0x80 + x % 0x40]
    else if x < 0x1_0000 then [0xE0 + x / 0x1000, 0x80 + (x / 0x40) % 0x40, 0x80 + x % 0x40]
    else [0xF0 + x / 0x4_0000, 0x80 + (x / 0x1000) % 0x40, 0x80 + (x / 0x40) % 0x40, 0x80 + x % 0x40]
  }

  /// The scalar value that a well-formed UTF-8 sequence of one character carries.
  function DecodeScalar(b: seq<u8>): (x: int)
    requires 1 <= |b| <= 4
  {
    var p := seq(|b|, k requires 0 <= k < |b| => b[k] as int);
    if |b| == 1 then p[0]
    else if |b| == 2 then (p[0] - 0xC0) * 0x40 + (p[1] - 0x80)
    else if |b| == 3 then (p[0] - 0xE0) * 0x1000 + (p[1] - 0x80) * 0x40 + (p[2] - 0x80)
    else (p[0] - 0xF0) * 0x4_0000 + (p[1] - 0x80) * 0x1000 + (p[2] - 0x80) * 0x40 + (p[3] - 0x80)
  }

  /// Encoding takes `Width(c)` bytes, the lead byte announces that width, and
  /// decoding gives the character back.
  lemma EncodeDecode(c: char)
    ensures |EncodeChar(c)| == Width(c)
    ensures var b := EncodeChar(c);
      (|b| == 1 <==> b[0] < 0x80)
      && (|b| == 2 <==> 0xC0 <= b[0] < 0xE0)
      && (|b| == 3 <==> 0xE0 <= b[0] < 0xF0)
      && (|b| == 4 <==> 0xF0 <= b[0] < 0xF8)
    ensures forall k :: 1 <= k < |EncodeChar(c)| ==> 0x80 <= EncodeChar(c)[k] < 0xC0
    ensures DecodeScalar(EncodeChar(c)) == c as int
  {
    var x := c as int;
    assert x <= 0x10_FFFF;
    if x >= 0x1_0000 {
      assert x == (x / 0x4_0000) * 0x4_0000 + ((x / 0x1000) % 0x40) * 0x1000 + ((x / 0x40) % 0x40) * 0x40 + x % 0x40;
    } else if x >= 0x800 {
      assert x == (x / 0x1000) * 0x1000 + ((x / 0x40) % 0x40) * 0x40 + x % 0x40;
    }
  }

  /// `String::into_bytes`.
  function Encode(s: string): (b: seq<u8>)
  {
    if |s| == 0 then [] else EncodeChar(s[0]) + Encode(s[1..])
  }

  /// `str::len`: the byte length.
  function Len(s: string): (n: nat)
    ensures n >= |s|
  {
    if |s| == 0 then 0 else Width(s[0]) + Len(s[1..])
  }

  lemma LenOfOne(s: string)
    requires |s| == 1
    ensures Len(s) == Width(s[0])
  {
    assert Len(s) == Width(s[0]) + Len(s[1..]);
  }

  lemma {:induction false} EncodeLength(s: string)
    ensures |Encode(s)| == Len(s)
  {
    if |s| > 0 {
      EncodeDecode(s[0]);
      EncodeLength(s[1..]);
    }
  }

  /// An ASCII string is its own byte string, one byte per character.
  lemma {:induction false} AsciiBytes(s: string)
    requires forall k :: 0 <= k < |s| ==> s[k] < '\U{0080}'
    ensures Len(s) == |s|
    ensures Encode(s) == seq(|s|, k requires 0 <= k < |s| => s[k] as int)
  {
    if |s| > 0 {
      AsciiBytes(s[1..]);
    }
  }

  lemma {:induction false} LenAppend(s: string, t: string)
    ensures Len(s + t) == Len(s) + Len(t)
  {
    if |s| > 0 {
      assert (s + t)[0] == s[0] && (s + t)[1..] == s[1..] + t;
      LenAppend(s[1..], t);
    } else {
      assert s + t == t;
    }
  }
}
