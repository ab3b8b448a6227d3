/** UTF-8, as Node's `Buffer.from(string)` writes it and `buf.toString()`
    reads it back: malformed input decodes with U+FFFD replacement
    characters, following the UTF-8 decoder of the WHATWG Encoding
    Standard (section 9.1.1). */
module Utf8 {
  import opened Bytes

  const REPLACEMENT: char := 0xFFFD as char

  /** The bytes of one character, shortest form. */
  function EncodeChar(c: char): (r: seq<byte>)
    ensures 1 <= |r| <= 4
    ensures (c as int) < 0x80 <==> |r| == 1
    ensures |r| == 1 ==> r[0] == c as int
  {
    var n := c as int;
    if n < 0x80 then [n]
    else if n < 0x800 then [0xC0 + n / 64, 0x80 + n % 64]
    else if n < 0x1_0000 then [0xE0 + n / 4096, 0x80 + (n / 64) % 64, 0x80 + n % 64]
    else [0xF0 + n / 262144, 0x80 + (n / 4096) % 64, 0x80 + (n / 64) % 64, 0x80 + n % 64]
  }

  /** `Buffer.from(s)`: the characters' encodings, in order. */
  function Encode(s: string): (r: seq<byte>)
    ensures |r| >= |s|
    ensures s == [] <==> r == []
  {
    if s == [] then [] else EncodeChar(s[0]) + Encode(s[1..])
  }

  predicate IsAscii(s: string) {
    forall i :: 0 <= i < |s| ==> (s[i] as int) < 0x80
  }

  /** On ASCII text, one byte per character, holding the character's code. */
  lemma {:induction false} EncodeAscii(s: string)
    requires IsAscii(s)
    ensures |Encode(s)| == |s|
    ensures forall i :: 0 <= i < |s| ==> Encode(s)[i] == s[i] as int
  {
    if s != [] {
      assert IsAscii(s[1..]) by {
        forall i | 0 <= i < |s[1..]| ensures (s[1..][i] as int) < 0x80 {
          assert s[1..][i] == s[i + 1];
        }
      }
      EncodeAscii(s[1..]);
      var r := Encode(s);
      assert r == [s[0] as int] + Encode(s[1..]);
      forall i | 0 <= i < |s| ensures r[i] == s[i] as int {
        if i > 0 {
          assert r[i] == Encode(s[1..])[i - 1];
          assert s[1..][i - 1] == s[i];
        }
      }
    }
  }

  predicate IsContinuation(x: byte) {
    0x80 <= x <= 0xBF
  }

  /** `buf.toString('utf8')`. */
  function Decode(b: seq<byte>): (r: string)
    decreases |b|
  {
    if b == [] then ""
    else
      var x := b[0];
      if x < 0x80 then [x as char] + Decode(b[1..])
      else if 0xC2 <= x <= 0xDF then DecodeTwo(b)
      else if 0xE0 <= x <= 0xEF then DecodeThree(b)
      else if 0xF0 <= x <= 0xF4 then DecodeFour(b)
      else [REPLACEMENT] + Decode(b[1..])
  }

  /** A two-byte lead: one continuation byte follows. A missing byte at the
      end of input gives one replacement character; a wrong byte gives one
      and is read again as the start of a new character. */
  function DecodeTwo(b: seq<byte>): (r: string)
    requires |b| >= 1 && 0xC2 <= b[0] <= 0xDF
    decreases |b|, 0
  {
    if |b| < 2 then [REPLACEMENT]
    else if !IsContinuation(b[1]) then [REPLACEMENT] + Decode(b[1..])
    else [((b[0] as int - 0xC0) * 64 + (b[1] as int - 0x80)) as char] + Decode(b[2..])
  }

  /** A three-byte lead. After E0 the second byte is at least A0 (no
      overlong forms); after ED it is at most 9F (no surrogates). */
  function DecodeThree(b: seq<byte>): (r: string)
    requires |b| >= 1 && 0xE0 <= b[0] <= 0xEF
    decreases |b|, 0
  {
    var lower := if b[0] == 0xE0 then 0xA0 else 0x80;
    var upper := if b[0] == 0xED then 0x9F else 0xBF;
    if |b| < 2 then [REPLACEMENT]
    else if !(lower <= b[1] <= upper) then [REPLACEMENT] + Decode(b[1..])
    else if |b| < 3 then [REPLACEMENT]
    else if !IsContinuation(b[2]) then [REPLACEMENT] + Decode(b[2..])
    else [(((b[0] as int - 0xE0) * 64 + (b[1] as int - 0x80)) * 64 + (b[2] as int - 0x80)) as char] + Decode(b[3..])
  }

  /** A four-byte lead. After F0 the second byte is at least 90 (no
      overlong forms); after F4 it is at most 8F (nothing above U+10FFFF). */
  function DecodeFour(b: seq<byte>): (r: string)
    requires |b| >= 1 && 0xF0 <= b[0] <= 0xF4
    decreases |b|, 0
  {
    var lower := if b[0] == 0xF0 then 0x90 else 0x80;
    var upper := if b[0] == 0xF4 then 0x8F else 0xBF;
    if |b| < 2 then [REPLACEMENT]
    else if !(lower <= b[1] <= upper) then [REPLACEMENT] + Decode(b[1..])
    else if |b| < 3 then [REPLACEMENT]
    else if !IsContinuation(b[2]) then [REPLACEMENT] + Decode(b[2..])
    else if |b| < 4 then [REPLACEMENT]
    else if !IsContinuation(b[3]) then [REPLACEMENT] + Decode(b[3..])
    else [((((b[0] as int - 0xF0) * 64 + (b[1] as int - 0x80)) * 64 + (b[2] as int - 0x80)) * 64 + (b[3] as int - 0x80)) as char]
         + Decode(b[4..])
  }

  /** Decoding the encoding of a character followed by anything reads that
      character and goes on with the rest. */
  lemma DecodeEncodeChar(c: char, rest: seq<byte>)
    ensures Decode(EncodeChar(c) + rest) == [c] + Decode(rest)
  {
    var n := c as int;
    if n < 0x80 {
      assert (EncodeChar(c) + rest)[1..] == rest;
    } else if n < 0x800 {
      DecodeTwoBytes(c, rest);
    } else if n < 0x1_0000 {
      DecodeThreeBytes(c, rest);
    } else {
      DecodeFourBytes(c, rest);
    }
  }

  lemma DecodeTwoBytes(c: char, rest: seq<byte>)
    requires 0x80 <= c as int < 0x800
    ensures Decode(EncodeChar(c) + rest) == [c] + Decode(rest)
  {
    var n := c as int;
    var b := EncodeChar(c) + rest;
    assert b[2..] == rest;
    assert (n / 64) * 64 + n % 64 == n;
    assert Decode(b) == DecodeTwo(b);
  }

  lemma DecodeThreeBytes(c: char, rest: seq<byte>)
    requires 0x800 <= c as int < 0x1_0000
    ensures Decode(EncodeChar(c) + rest) == [c] + Decode(rest)
  {
    var n := c as int;
    var b := EncodeChar(c) + rest;
    assert b[3..] == rest;
    var q := n / 64;
    assert q * 64 + n % 64 == n;
    assert (q / 64) * 64 + q % 64 == q;
    assert n / 4096 == q / 64;
    assert Decode(b) == DecodeThree(b);
  }

  lemma DecodeFourBytes(c: char, rest: seq<byte>)
    requires 0x1_0000 <= c as int
    ensures Decode(EncodeChar(c) + rest) == [c] + Decode(rest)
  {
    var n := c as int;
    var b := EncodeChar(c) + rest;
    assert b[4..] == rest;
    var q := n / 64;
    var q2 := q / 64;
    assert q * 64 + n % 64 == n;
    assert q2 * 64 + q % 64 == q;
    assert (q2 / 64) * 64 + q2 % 64 == q2;
    assert n / 4096 == q2;
    assert n / 262144 == q2 / 64;
    assert Decode(b) == DecodeFour(b);
  }

  /** `buf.toString()` reads back every string `Buffer.from` wrote. */
  lemma {:induction false} DecodeEncode(s: string)
    ensures Decode(Encode(s)) == s
  {
    if s != [] {
      DecodeEncodeChar(s[0], Encode(s[1..]));
      DecodeEncode(s[1..]);
    }
  }

  /** Encoding is one-to-one, so distinct strings have distinct encodings. */
  lemma EncodeInjective(s: string, t: string)
    requires Encode(s) == Encode(t)
    ensures s == t
  {
    DecodeEncode(s);
    DecodeEncode(t);
  }

  /** The encoding of a concatenation is the concatenation of the encodings. */
  lemma {:induction false} EncodeAppend(s: string, t: string)
    ensures Encode(s + t) == Encode(s) + Encode(t)
  {
    if s != [] {
      assert (s + t)[1..] == s[1..] + t;
      EncodeAppend(s[1..], t);
    } else {
      assert s + t == t;
    }
  }
}
