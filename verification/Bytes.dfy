/** Strings as bytes: UTF-8, which different strings never share. */
module Bytes {
  type byte = b: nat | b < 256

  function Utf8Char(c: char): seq<byte> {
    var n := c as int;
    if n < 0x80 then [n]
    else if n < 0x800 then [0xC0 + n / 64, 0x80 + n % 64]
    else if n < 0x1_0000 then [0xE0 + n / 4096, 0x80 + (n / 64) % 64, 0x80 + n % 64]
    else [0xF0 + n / 0x4_0000, 0x80 + (n / 4096) % 64, 0x80 + (n / 64) % 64, 0x80 + n % 64]
  }

  function Utf8(s: string): seq<byte> {
    if |s| == 0 then [] else Utf8Char(s[0]) + Utf8(s[1..])
  }

  /** The code point a UTF-8 sequence starts with, and how many bytes it takes. */
  function DecodeChar(b: seq<byte>): (int, nat)
    requires |b| > 0
  {
    var b0 := b[0] as int;
    if b0 < 0x80 then (b0, 1)
    else if b0 < 0xE0 && |b| >= 2 then ((b0 - 0xC0) * 64 + Continuation(b[1]), 2)
    else if b0 < 0xF0 && |b| >= 3 then ((b0 - 0xE0) * 4096 + Continuation(b[1]) * 64 + Continuation(b[2]), 3)
    else if |b| >= 4 then
      var high := (b0 - 0xF0) * 0x4_0000 + Continuation(b[1]) * 4096;
      (high + Continuation(b[2]) * 64 + Continuation(b[3]), 4)
    else (0, 0)
  }

  function Continuation(b: byte): int {
    b as int - 0x80
  }

  lemma DecodeEncoded(c: char, rest: seq<byte>)
    ensures |Utf8Char(c)| > 0
    ensures DecodeChar(Utf8Char(c) + rest) == (c as int, |Utf8Char(c)|)
  {
    var n := c as int;
    assert n / 64 == (n / 4096) * 64 + (n / 64) % 64;
    assert n / 4096 == (n / 0x4_0000) * 64 + (n / 4096) % 64;
  }

  lemma {:induction false} Utf8Injective(s: string, t: string)
    requires Utf8(s) == Utf8(t)
    ensures s == t
  {
    if |s| == 0 {
      if |t| != 0 { DecodeEncoded(t[0], Utf8(t[1..])); }
    } else if |t| == 0 {
      DecodeEncoded(s[0], Utf8(s[1..]));
    } else {
      DecodeEncoded(s[0], Utf8(s[1..]));
      DecodeEncoded(t[0], Utf8(t[1..]));
      assert s[0] == t[0];
      assert Utf8(s[1..]) == Utf8(s)[|Utf8Char(s[0])|..];
      assert Utf8(t[1..]) == Utf8(t)[|Utf8Char(t[0])|..];
      Utf8Injective(s[1..], t[1..]);
      assert s == [s[0]] + s[1..] && t == [t[0]] + t[1..];
    }
  }
}
