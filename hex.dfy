/**
 * Hexadecimal text as Node's `Buffer` reads and writes it: `toString('hex')` writes two lower-case
 * digits per byte; `Buffer.from(text, 'hex')` reads pairs of digits (either case) from the left
 * and stops silently at the first pair that is not two digits, a lone trailing digit included.
 */
module Hex {
  import opened Wrappers
  import opened Bytes

  const LowerDigits: string := "0123456789abcdef"

  predicate IsLowerHexDigit(c: char)
  {
    '0' <= c <= '9' || 'a' <= c <= 'f'
  }

  predicate IsLowerHex(s: string)
  {
    forall i | 0 <= i < |s| :: IsLowerHexDigit(s[i])
  }

  function DigitChar(n: nat): (c: char)
    requires n < 16
    ensures IsLowerHexDigit(c)
  {
    LowerDigits[n]
  }

  /** The value of one hexadecimal digit, upper or lower case. */
  function DigitValue(c: char): (v: Option<nat>)
    ensures v.Some? ==> v.value < 16
    ensures IsLowerHexDigit(c) ==> v.Some?
  {
    if '0' <= c <= '9' then Some(c as int - '0' as int)
    else if 'a' <= c <= 'f' then Some(c as int - 'a' as int + 10)
    else if 'A' <= c <= 'F' then Some(c as int - 'A' as int + 10)
    else None
  }

  lemma DigitValueOfChar(n: nat)
    requires n < 16
    ensures DigitValue(DigitChar(n)) == Some(n)
  {
  }

  /** The byte that the two digits at `s[i]`, `s[i + 1]` stand for, if both are digits. */
  function PairAt(s: string, i: nat): (b: Option<byte>)
    requires i + 1 < |s|
  {
    match (DigitValue(s[i]), DigitValue(s[i + 1]))
    case (Some(hi), Some(lo)) => Some(hi * 16 + lo)
    case _ => None
  }

  /** `bytes.toString('hex')`. */
  function Encode(bytes: seq<byte>): (s: string)
    ensures |s| == 2 * |bytes|
    ensures IsLowerHex(s)
  {
    if bytes == [] then []
    else [DigitChar(bytes[0] / 16), DigitChar(bytes[0] % 16)] + Encode(bytes[1..])
  }

  /** `Buffer.from(s, 'hex')`: the bytes of the longest prefix made of whole digit pairs. */
  function Decode(s: string): (bytes: seq<byte>)
    ensures 2 * |bytes| <= |s|
    ensures forall k | 0 <= k < |bytes| :: PairAt(s, 2 * k) == Some(bytes[k])
    ensures 2 * |bytes| + 1 < |s| ==> PairAt(s, 2 * |bytes|).None?
  {
    if |s| < 2 then []
    else match PairAt(s, 0)
      case None => []
      case Some(b) =>
        var rest := Decode(s[2..]);
        assert forall k | 0 <= k < |rest| :: PairAt(s, 2 * (k + 1)) == PairAt(s[2..], 2 * k);
        [b] + rest
  }

  lemma {:induction false} EncodeAppend(a: seq<byte>, b: seq<byte>)
    ensures Encode(a + b) == Encode(a) + Encode(b)
  {
    if a == [] {
      assert a + b == b;
    } else {
      var h := [DigitChar(a[0] / 16), DigitChar(a[0] % 16)];
      assert (a + b)[0] == a[0] && (a + b)[1..] == a[1..] + b;
      EncodeAppend(a[1..], b);
      calc {
        Encode(a + b);
        h + Encode(a[1..] + b);
        h + (Encode(a[1..]) + Encode(b));
        (h + Encode(a[1..])) + Encode(b);
      }
    }
  }

  /** Reading back what `toString('hex')` wrote gives the same bytes. */
  lemma {:induction false} DecodeEncode(bytes: seq<byte>)
    ensures Decode(Encode(bytes)) == bytes
  {
    if bytes != [] {
      var s := Encode(bytes);
      DigitValueOfChar(bytes[0] / 16);
      DigitValueOfChar(bytes[0] % 16);
      assert PairAt(s, 0) == Some(bytes[0]);
      assert s[2..] == Encode(bytes[1..]);
      DecodeEncode(bytes[1..]);
    }
  }

  /** Different bytes never share a hexadecimal rendering. */
  lemma EncodeInjective(a: seq<byte>, b: seq<byte>)
    requires Encode(a) == Encode(b)
    ensures a == b
  {
    DecodeEncode(a);
    DecodeEncode(b);
  }

  /** Reading ignores the case of digits: texts whose digits agree one by one in value read alike. */
  lemma {:induction false} DecodeIgnoresCase(s: string, t: string)
    requires |s| == |t|
    requires forall i | 0 <= i < |s| :: DigitValue(s[i]) == DigitValue(t[i])
    ensures Decode(s) == Decode(t)
  {
    if |s| >= 2 {
      assert PairAt(s, 0) == PairAt(t, 0);
      DecodeIgnoresCase(s[2..], t[2..]);
    }
  }

  /** Text with no digit pair at the front reads as no bytes at all. */
  lemma DecodeNonHex(s: string)
    requires |s| >= 1 && DigitValue(s[0]).None?
    ensures Decode(s) == []
  {
  }
}
