/** UTF-8, with Python's "replace" error handling on decode. */
module Utf8 {

  type byte = b: int | 0 <= b < 256

  const REPLACEMENT: char := 0xFFFD as char

  function EncodeChar(c: char): (b: seq<byte>)
    ensures 1 <= |b| <= 4
    ensures c as int < 128 ==> b == [c as int]
    ensures c as int >= 128 ==> forall i :: 0 <= i < |b| ==> b[i] >= 128
  {
    var u := c as int;
    if u < 0x80 then [u]
    else if u < 0x800 then [0xC0 + u / 64, 0x80 + u % 64]
    else if u < 0x10000 then [0xE0 + u / 4096, 0x80 + u / 64 % 64, 0x80 + u % 64]
    else [0xF0 + u / 262144, 0x80 + u / 4096 % 64, 0x80 + u / 64 % 64, 0x80 + u % 64]
  }

  /** `s.encode("utf-8")`. */
  function Encode(s: string): (b: seq<byte>)
    ensures |b| >= |s|
  {
    if s == "" then [] else EncodeChar(s[0]) + Encode(s[1..])
  }

  predicate Continuation(b: seq<byte>, i: nat) {
    i < |b| && 0x80 <= b[i] < 0xC0
  }

  /** The length a lead byte announces, or 0 for a byte that cannot lead. */
  function LeadLength(b: byte): (n: nat)
    ensures n <= 4
  {
    if b < 0x80 then 1
    else if 0xC2 <= b < 0xE0 then 2
    else if 0xE0 <= b < 0xF0 then 3
    else if 0xF0 <= b < 0xF5 then 4
    else 0
  }

  /** The second byte excludes overlong forms, surrogates and values past U+10FFFF. */
  predicate GoodSecond(b: seq<byte>) {
    Continuation(b, 1)
    && (b[0] == 0xE0 ==> b[1] >= 0xA0)
    && (b[0] == 0xED ==> b[1] < 0xA0)
    && (b[0] == 0xF0 ==> b[1] >= 0x90)
    && (b[0] == 0xF4 ==> b[1] < 0x90)
  }

  /** The scalar value spelt by a lead byte's payload and the continuations after it. */
  function Scalar(payload: int, b: seq<byte>, i: nat, n: nat): (u: int)
    requires i <= n <= |b|
    decreases n - i
  {
    if i == n then payload else Scalar(payload * 64 + (b[i] as int - 0x80), b, i + 1, n)
  }

  /** The next character and how many bytes it takes; an ill-formed sequence gives
      one U+FFFD for its longest valid beginning. */
  function DecodeOne(b: seq<byte>): (r: (char, nat))
    requires b != []
    ensures 1 <= r.1 <= |b|
  {
    var lead := b[0] as int;
    var n := LeadLength(b[0]);
    if n == 1 then (lead as char, 1)
    else if n == 0 || !GoodSecond(b) then (REPLACEMENT, 1)
    else if n == 2 then (Scalar(lead - 0xC0, b, 1, 2) as char, 2)
    else if !Continuation(b, 2) then (REPLACEMENT, 2)
    else if n == 3 then (Scalar(lead - 0xE0, b, 1, 3) as char, 3)
    else if !Continuation(b, 3) then (REPLACEMENT, 3)
    else (Scalar(lead - 0xF0, b, 1, 4) as char, 4)
  }

  /** `b.decode("utf-8", errors="replace")`. */
  function Decode(b: seq<byte>): (s: string)
    ensures |s| <= |b|
    decreases |b|
  {
    if b == [] then "" else
      var (c, n) := DecodeOne(b);
      [c] + Decode(b[n..])
  }

  lemma DecodeTwo(c: char, rest: seq<byte>)
    requires 0x80 <= c as int < 0x800
    ensures DecodeOne(EncodeChar(c) + rest) == (c, 2)
  {
    var u, b := c as int, EncodeChar(c) + rest;
    assert b[0] == 0xC0 + u / 64 && b[1] == 0x80 + u % 64;
    assert Scalar(u / 64, b, 1, 2) == u;
  }

  lemma DecodeThree(c: char, rest: seq<byte>)
    requires 0x800 <= c as int < 0x10000
    ensures DecodeOne(EncodeChar(c) + rest) == (c, 3)
  {
    var u, b := c as int, EncodeChar(c) + rest;
    assert b[0] == 0xE0 + u / 4096 && b[1] == 0x80 + u / 64 % 64 && b[2] == 0x80 + u % 64;
    assert u / 4096 * 64 + u / 64 % 64 == u / 64;
    assert Scalar(u / 64, b, 2, 3) == u;
    assert Scalar(u / 4096, b, 1, 3) == u;
  }

  lemma DecodeFour(c: char, rest: seq<byte>)
    requires 0x10000 <= c as int
    ensures DecodeOne(EncodeChar(c) + rest) == (c, 4)
  {
    var u, b := c as int, EncodeChar(c) + rest;
    assert b[0] == 0xF0 + u / 262144 && b[1] == 0x80 + u / 4096 % 64;
    assert b[2] == 0x80 + u / 64 % 64 && b[3] == 0x80 + u % 64;
    assert u / 262144 * 64 + u / 4096 % 64 == u / 4096;
    assert u / 4096 * 64 + u / 64 % 64 == u / 64;
    assert Scalar(u / 64, b, 3, 4) == u;
    assert Scalar(u / 4096, b, 2, 4) == u;
    assert Scalar(u / 262144, b, 1, 4) == u;
  }

  lemma DecodeChar(c: char, rest: seq<byte>)
    ensures DecodeOne(EncodeChar(c) + rest) == (c, |EncodeChar(c)|)
  {
    hide Scalar;
    var u := c as int;
    if u < 0x80 {
    } else if u < 0x800 {
      DecodeTwo(c, rest);
    } else if u < 0x10000 {
      DecodeThree(c, rest);
    } else {
      DecodeFour(c, rest);
    }
  }

  /** Every text survives encoding: the bytes decode back to it. */
  lemma {:induction false} RoundTrip(s: string)
    ensures Decode(Encode(s)) == s
  {
    if s != "" {
      DecodeChar(s[0], Encode(s[1..]));
      assert Encode(s)[|EncodeChar(s[0])|..] == Encode(s[1..]);
      RoundTrip(s[1..]);
    }
  }

  lemma {:induction false} EncodeConcat(s: string, t: string)
    ensures Encode(s + t) == Encode(s) + Encode(t)
  {
    hide EncodeChar;
    if s == "" {
      assert s + t == t;
    } else {
      EncodeConcat(s[1..], t);
      assert (s + t)[1..] == s[1..] + t;
      assert EncodeChar(s[0]) + (Encode(s[1..]) + Encode(t)) == (EncodeChar(s[0]) + Encode(s[1..])) + Encode(t);
    }
  }

  predicate IsAscii(s: string) {
    forall i :: 0 <= i < |s| ==> s[i] as int < 128
  }

  /** An ASCII text is one byte a character. */
  lemma {:induction false} EncodeAscii(s: string)
    requires IsAscii(s)
    ensures |Encode(s)| == |s| && forall i :: 0 <= i < |s| ==> Encode(s)[i] == s[i] as int
  {
    if s != "" {
      EncodeAscii(s[1..]);
    }
  }

  /** `b.decode("ascii", errors="replace")`. */
  function AsciiText(b: seq<byte>): (s: string)
    ensures |s| == |b|
  {
    seq(|b|, i requires 0 <= i < |b| => if b[i] < 128 then b[i] as char else REPLACEMENT)
  }

  lemma AsciiRoundTrip(s: string)
    requires IsAscii(s)
    ensures AsciiText(Encode(s)) == s
  {
    EncodeAscii(s);
  }

  /** An ASCII byte in an encoding is that very character in the text. */
  lemma {:induction false} AsciiByteIsChar(s: string, c: char)
    requires c as int < 128 && c !in s
    ensures forall i :: 0 <= i < |Encode(s)| ==> Encode(s)[i] != c as int
  {
    if s != "" {
      AsciiByteIsChar(s[1..], c);
    }
  }

  // ---- malformed bytes ----

  function AsciiChars(s: string): string {
    if s == "" then "" else (if s[0] as int < 128 then [s[0]] else []) + AsciiChars(s[1..])
  }

  function AsciiBytes(b: seq<byte>): string {
    if b == [] then "" else (if b[0] < 128 then [b[0] as char] else []) + AsciiBytes(b[1..])
  }

  lemma DecodeOneAscii(b: seq<byte>)
    requires b != []
    ensures var (c, n) := DecodeOne(b);
      if b[0] < 128 then c as int == b[0] && n == 1
      else c as int >= 128 && forall i :: 0 <= i < n ==> b[i] >= 128
  {
    var lead := b[0] as int;
    if b[0] >= 128 && GoodSecond(b) && LeadLength(b[0]) > 1 {
      ScalarGrows(lead - 0xC0, b, 1, 2);
      if LeadLength(b[0]) >= 3 && Continuation(b, 2) {
        ScalarGrows(lead - 0xE0, b, 1, 3);
        if LeadLength(b[0]) == 4 && Continuation(b, 3) {
          ScalarGrows(lead - 0xF0, b, 1, 4);
        }
      }
    }
  }

  lemma ScalarGrows(payload: int, b: seq<byte>, i: nat, n: nat)
    requires i < n <= |b| && payload >= 0 && forall j :: i <= j < n ==> b[j] >= 0x80
    ensures Scalar(payload, b, i, n) >= 64 * payload + (b[i] as int - 0x80)
    decreases n - i
  {
    if i + 1 < n {
      ScalarGrows(payload * 64 + (b[i] as int - 0x80), b, i + 1, n);
    }
  }

  lemma AsciiBytesSkip(b: seq<byte>, n: nat)
    requires n <= |b| && forall i :: 0 <= i < n ==> b[i] >= 128
    ensures AsciiBytes(b) == AsciiBytes(b[n..])
  {
    if n == 0 {
      assert b[0..] == b;
    } else {
      AsciiBytesSkip(b[1..], n - 1);
      assert b[1..][n - 1..] == b[n..];
    }
  }

  /** However malformed the bytes are, no ASCII character of theirs is lost, added or moved. */
  lemma {:induction false} AsciiSurvives(b: seq<byte>)
    ensures AsciiChars(Decode(b)) == AsciiBytes(b)
    decreases |b|
  {
    if b != [] {
      hide DecodeOne;
      var (c, n) := DecodeOne(b);
      DecodeOneAscii(b);
      AsciiSurvives(b[n..]);
      assert Decode(b) == [c] + Decode(b[n..]);
      assert ([c] + Decode(b[n..]))[1..] == Decode(b[n..]);
      if b[0] >= 128 {
        AsciiBytesSkip(b, n);
      }
    }
  }

  /** A byte that can begin no character is one replacement character. */
  lemma StrayByte(b: byte, rest: seq<byte>)
    requires 0x80 <= b < 0xC2 || b >= 0xF5
    ensures Decode([b] + rest) == [REPLACEMENT] + Decode(rest)
  {
    assert ([b] + rest)[1..] == rest;
  }

  /** The ASCII decoding of a tag: every other byte is a replacement character. */
  lemma AsciiTextReplaces(b: seq<byte>, i: nat)
    requires i < |b|
    ensures |AsciiText(b)| == |b|
    ensures AsciiText(b)[i] == REPLACEMENT <==> b[i] >= 128
    ensures AsciiText(b)[i] as int < 128 ==> AsciiText(b)[i] as int == b[i]
  {}
}
