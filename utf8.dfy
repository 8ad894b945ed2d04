/**
 * UTF-8, as Node converts between strings and bytes: `cipher.update(text, 'utf8')` encodes the
 * text, and the `'utf8'` output of `decipher.update` / `decipher.final` decodes the plaintext
 * bytes, putting U+FFFD in place of each maximal ill-formed part (the WHATWG decoder).
 */
module Utf8 {
  import opened Bytes

  const Replacement: char := '\U{FFFD}'

  predicate IsContinuation(b: byte)
  {
    0x80 <= b <= 0xBF
  }

  /** The bytes of one character: 1 to 4 of them, by the size of its code point. */
  function EncodeChar(c: char): (bs: seq<byte>)
    ensures 1 <= |bs| <= 4
    ensures (c as int < 0x80) <==> |bs| == 1
  {
    var n := c as int;
    if n < 0x80 then [n]
    else if n < 0x800 then [0xC0 + n / 64, 0x80 + n % 64]
    else if n < 0x10000 then [0xE0 + n / 4096, 0x80 + (n / 64) % 64, 0x80 + n % 64]
    else [0xF0 + n / 262144, 0x80 + (n / 4096) % 64, 0x80 + (n / 64) % 64, 0x80 + n % 64]
  }

  /** `Buffer.from(s, 'utf8')`: the characters' encodings, one after the other. */
  function Encode(s: string): (bs: seq<byte>)
    ensures |bs| >= |s|
  {
    if s == [] then [] else EncodeChar(s[0]) + Encode(s[1..])
  }

  /** How many bytes a sequence starting with `b` has: 0 when `b` cannot start one. */
  function SequenceLength(b: byte): nat
  {
    if b < 0x80 then 1
    else if 0xC2 <= b <= 0xDF then 2
    else if 0xE0 <= b <= 0xEF then 3
    else if 0xF0 <= b <= 0xF4 then 4
    else 0
  }

  /** The bytes allowed right after lead byte `b0` (Table 3-7 of the Unicode Standard). */
  predicate SecondOk(b0: byte, b1: byte)
  {
    if b0 == 0xE0 then 0xA0 <= b1 <= 0xBF
    else if b0 == 0xED then 0x80 <= b1 <= 0x9F
    else if b0 == 0xF0 then 0x90 <= b1 <= 0xBF
    else if b0 == 0xF4 then 0x80 <= b1 <= 0x8F
    else IsContinuation(b1)
  }

  /** The length of the longest prefix of `bs` (at most `n` bytes) that can begin a well-formed
      sequence of `n` bytes led by `bs[0]`. */
  function PrefixLength(bs: seq<byte>, n: nat): (k: nat)
    requires |bs| >= 1 && 2 <= n <= 4
    ensures 1 <= k <= n && k <= |bs|
  {
    if |bs| < 2 || !SecondOk(bs[0], bs[1]) then 1
    else if n == 2 then 2
    else if |bs| < 3 || !IsContinuation(bs[2]) then 2
    else if n == 3 then 3
    else if |bs| < 4 || !IsContinuation(bs[3]) then 3
    else 4
  }

  /** The code point of a well-formed sequence of `n` bytes. */
  function CodePoint(bs: seq<byte>, n: nat): (v: int)
    requires 2 <= n <= 4 && |bs| >= n && SequenceLength(bs[0]) == n && PrefixLength(bs, n) == n
    ensures 0x80 <= v < 0xD800 || 0xE000 <= v < 0x110000
  {
    var b0, b1 := bs[0] as int, bs[1] as int;
    if n == 2 then (b0 - 0xC0) * 64 + (b1 - 0x80)
    else if n == 3 then (b0 - 0xE0) * 4096 + (b1 - 0x80) * 64 + (bs[2] as int - 0x80)
    else (b0 - 0xF0) * 262144 + (b1 - 0x80) * 4096 + (bs[2] as int - 0x80) * 64 + (bs[3] as int - 0x80)
  }

  /** Bytes to text, replacing each maximal ill-formed part by U+FFFD. */
  function Decode(bs: seq<byte>): (s: string)
    ensures |s| <= |bs|
    decreases |bs|
  {
    if bs == [] then []
    else
      var n := SequenceLength(bs[0]);
      if n == 1 then [bs[0] as char] + Decode(bs[1..])
      else if n == 0 then [Replacement] + Decode(bs[1..])
      else
        var k := PrefixLength(bs, n);
        if k == n then [CodePoint(bs, n) as char] + Decode(bs[n..])
        else [Replacement] + Decode(bs[k..])
  }

  /** A well-formed sequence of `n` bytes at the front decodes to its code point. */
  lemma DecodeWellFormed(bs: seq<byte>, n: nat)
    requires 2 <= n <= 4 && |bs| >= n && SequenceLength(bs[0]) == n && PrefixLength(bs, n) == n
    ensures Decode(bs) == [CodePoint(bs, n) as char] + Decode(bs[n..])
  {
  }

  lemma EncodeTwo(c: char, rest: seq<byte>)
    requires 0x80 <= c as int < 0x800
    ensures Decode(EncodeChar(c) + rest) == [c] + Decode(rest)
  {
    var n := c as int;
    var bs := EncodeChar(c) + rest;
    assert bs[0] == 0xC0 + n / 64 && bs[1] == 0x80 + n % 64;
    assert SequenceLength(bs[0]) == 2 && PrefixLength(bs, 2) == 2;
    assert CodePoint(bs, 2) == n;
    DecodeWellFormed(bs, 2);
    assert bs[2..] == rest;
  }

  lemma EncodeThree(c: char, rest: seq<byte>)
    requires 0x800 <= c as int < 0x10000
    ensures Decode(EncodeChar(c) + rest) == [c] + Decode(rest)
  {
    var n := c as int;
    var bs := EncodeChar(c) + rest;
    var q, r := n / 64, n % 64;
    assert n == 64 * q + r;
    assert bs[0] == 0xE0 + q / 64 && bs[1] == 0x80 + q % 64 && bs[2] == 0x80 + r;
    assert SequenceLength(bs[0]) == 3;
    assert SecondOk(bs[0], bs[1]);
    assert PrefixLength(bs, 3) == 3;
    assert CodePoint(bs, 3) == n;
    DecodeWellFormed(bs, 3);
    assert bs[3..] == rest;
  }

  lemma EncodeFour(c: char, rest: seq<byte>)
    requires 0x10000 <= c as int
    ensures Decode(EncodeChar(c) + rest) == [c] + Decode(rest)
  {
    var n := c as int;
    var bs := EncodeChar(c) + rest;
    var q1, r1 := n / 64, n % 64;
    var q2, r2 := q1 / 64, q1 % 64;
    var q3, r3 := q2 / 64, q2 % 64;
    assert n == 64 * q1 + r1 && q1 == 64 * q2 + r2 && q2 == 64 * q3 + r3;
    assert n / 4096 == q2 && n / 262144 == q3;
    assert bs[0] == 0xF0 + q3 && bs[1] == 0x80 + r3 && bs[2] == 0x80 + r2 && bs[3] == 0x80 + r1;
    assert SequenceLength(bs[0]) == 4;
    assert SecondOk(bs[0], bs[1]);
    assert PrefixLength(bs, 4) == 4;
    assert CodePoint(bs, 4) == n;
    DecodeWellFormed(bs, 4);
    assert bs[4..] == rest;
  }

  /** Decoding stops at the end of each character's encoding and yields that character. */
  lemma DecodeChar(c: char, rest: seq<byte>)
    ensures Decode(EncodeChar(c) + rest) == [c] + Decode(rest)
  {
    var n := c as int;
    if n < 0x80 {
      var bs := EncodeChar(c) + rest;
      assert bs[1..] == rest;
    } else if n < 0x800 {
      EncodeTwo(c, rest);
    } else if n < 0x10000 {
      EncodeThree(c, rest);
    } else {
      EncodeFour(c, rest);
    }
  }

  /** Decoding what was encoded gives back the text. */
  lemma {:induction false} DecodeEncode(s: string)
    ensures Decode(Encode(s)) == s
  {
    if s != [] {
      DecodeChar(s[0], Encode(s[1..]));
      DecodeEncode(s[1..]);
      assert Encode(s) == EncodeChar(s[0]) + Encode(s[1..]);
      assert s == [s[0]] + s[1..];
    }
  }
}
