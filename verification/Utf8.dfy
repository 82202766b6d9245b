/** Strict UTF-8, as Python's codec and Rust's `str` implement it. */
module Utf8 {
  import opened Common

  /** The number with base-64 digits `high` and `low`. */
  function Join(high: int, low: int): int {
    high * 64 + low
  }

  lemma JoinSplits(high: int, low: int)
    requires 0 <= low < 64
    ensures Join(high, low) / 64 == high && Join(high, low) % 64 == low
  {
  }

  function EncodeChar(c: char): Bytes {
    var n := c as int;
    if n < 0x80 then [n]
    else if n < 0x800 then [0xC0 + n / 64, 0x80 + n % 64]
    else if n < 0x1_0000 then [0xE0 + n / 64 / 64, 0x80 + n / 64 % 64, 0x80 + n % 64]
    else [0xF0 + n / 64 / 64 / 64, 0x80 + n / 64 / 64 % 64, 0x80 + n / 64 % 64, 0x80 + n % 64]
  }

  function Encode(s: string): Bytes {
    if s == [] then [] else EncodeChar(s[0]) + Encode(s[1..])
  }

  predicate Continuation(b: byte) {
    0x80 <= b < 0xC0
  }

  /** A Unicode scalar value: surrogates have no encoding. */
  predicate Scalar(n: int) {
    0 <= n < 0xD800 || 0xE000 <= n < 0x11_0000
  }

  /** The first character and its length, refusing overlong forms, surrogates and values beyond
      the last plane. */
  function DecodeChar(b: Bytes): Option<(char, nat)> {
    if b == [] then None
    else if b[0] < 0x80 then Some((b[0] as char, 1))
    else if 0xC2 <= b[0] < 0xE0 && |b| >= 2 && Continuation(b[1]) then
      Some((Join(b[0] - 0xC0, b[1] - 0x80) as char, 2))
    else if 0xE0 <= b[0] < 0xF0 && |b| >= 3 && Continuation(b[1]) && Continuation(b[2]) then
      var n := Join(Join(b[0] - 0xE0, b[1] - 0x80), b[2] - 0x80);
      if n >= 0x800 && Scalar(n) then Some((n as char, 3)) else None
    else if 0xF0 <= b[0] < 0xF5 && |b| >= 4 && Continuation(b[1]) && Continuation(b[2]) && Continuation(b[3]) then
      var n := Join(Join(Join(b[0] - 0xF0, b[1] - 0x80), b[2] - 0x80), b[3] - 0x80);
      if n >= 0x1_0000 && Scalar(n) then Some((n as char, 4)) else None
    else None
  }

  function Decode(b: Bytes): Option<string> {
    if b == [] then Some([])
    else
      var first := DecodeChar(b);
      if first.None? || first.value.1 == 0 || first.value.1 > |b| then None
      else
        var rest := Decode(b[first.value.1..]);
        if rest.None? then None else Some([first.value.0] + rest.value)
  }

  lemma DecodeCharOfEncoded(c: char, tail: Bytes)
    ensures DecodeChar(EncodeChar(c) + tail) == Some((c, |EncodeChar(c)|))
  {
    var n := c as int;
    var e := EncodeChar(c);
    var b := e + tail;
    assert forall i :: 0 <= i < |e| ==> b[i] == e[i];
    assert n == Join(n / 64, n % 64);
    assert n / 64 == Join(n / 64 / 64, n / 64 % 64);
    assert n / 64 / 64 == Join(n / 64 / 64 / 64, n / 64 / 64 % 64);
  }

  lemma {:induction false} DecodeOfEncode(s: string)
    ensures Decode(Encode(s)) == Some(s)
  {
    if s != [] {
      var first, rest := EncodeChar(s[0]), Encode(s[1..]);
      DecodeCharOfEncoded(s[0], rest);
      assert Encode(s) == first + rest && (first + rest)[|first|..] == rest;
      DecodeOfEncode(s[1..]);
      assert s == [s[0]] + s[1..];
    }
  }

  lemma EncodeOfDecodedChar(b: Bytes)
    requires DecodeChar(b).Some?
    ensures 0 < DecodeChar(b).value.1 <= |b|
    ensures EncodeChar(DecodeChar(b).value.0) == b[..DecodeChar(b).value.1]
  {
    var k := DecodeChar(b).value.1;
    if k >= 2 {
      var high := b[0] - (if k == 2 then 0xC0 else if k == 3 then 0xE0 else 0xF0);
      JoinSplits(high, b[1] - 0x80);
      if k >= 3 {
        JoinSplits(Join(high, b[1] - 0x80), b[2] - 0x80);
      }
      if k == 4 {
        JoinSplits(Join(Join(high, b[1] - 0x80), b[2] - 0x80), b[3] - 0x80);
      }
    }
  }

  /** Decoding accepts exactly the encodings, each as the text it encodes. */
  lemma {:induction false} DecodesExactly(b: Bytes, s: string)
    ensures Decode(b) == Some(s) <==> b == Encode(s)
    decreases |b|
  {
    if b == Encode(s) {
      DecodeOfEncode(s);
    }
    if Decode(b) == Some(s) && b != [] {
      EncodeOfDecodedChar(b);
      var k := DecodeChar(b).value.1;
      DecodesExactly(b[k..], s[1..]);
      assert b == b[..k] + b[k..];
    }
  }
}
