/**
 * The field cipher of backend/utils/encryption.js. `Encrypt` renders a field as
 * `<hex of the 16-byte IV>:<hex of the AES-256-CBC ciphertext of its UTF-8 bytes>`; `Decrypt`
 * splits that text on `:`, reads both halves as hexadecimal and deciphers. The key is the
 * hex-decoded `ENC_KEY` setting, the IV the 16 random bytes drawn for the call; both are
 * parameters here, as is the block cipher.
 */
module Encryption {
  import opened Wrappers
  import opened Bytes
  import Hex
  import Utf8
  import JsString
  import opened Cbc

  const IvLength: nat := 16
  const KeyLength: nat := 32
  const Separator: char := ':'

  /** What the cipher calls throw. */
  datatype CipherError =
    | MissingKey              // `ENC_KEY` is not set: `Buffer.from(undefined, 'hex')` throws at load
    | InvalidKeyLength        // the key is not 32 bytes: "Invalid key length"
    | InvalidIvLength         // the IV half does not read as 16 bytes: "Invalid initialization vector"
    | MissingCiphertext       // no second part after the split: `update(undefined)` is a type error
    | OddHexLength            // the ciphertext half has an odd number of characters
    | WrongFinalBlockLength   // the ciphertext is empty or not a whole number of blocks
    | BadDecrypt              // the last block does not end in valid PKCS#7 padding

  /** Every character of `s` is a hexadecimal digit, in either case. */
  predicate IsHexText(s: string)
  {
    forall i | 0 <= i < |s| :: Hex.DigitValue(s[i]).Some?
  }

  /** The key bytes: `Buffer.from(process.env.ENC_KEY, 'hex')`. Only a setting of 64 hex digits
      gives the 32-byte key the cipher needs. */
  function LoadKey(encKey: Option<string>): (r: Result<seq<byte>, CipherError>)
    ensures encKey.None? <==> r == Err(MissingKey)
    ensures encKey.Some? ==> r.Ok? && 2 * |r.value| <= |encKey.value|
    ensures encKey.Some? && |encKey.value| == 2 * KeyLength && IsHexText(encKey.value) ==>
              r == Ok(Hex.Decode(encKey.value)) && |r.value| == KeyLength
  {
    match encKey
    case None => Err(MissingKey)
    case Some(text) => Ok(Hex.Decode(text))
  }

  /** `stored` is an IV rendering, one separator, and the rendering of `blocks` whole blocks. */
  predicate StoredShape(stored: string, iv: Block, blocks: nat)
  {
    && |stored| == 2 * IvLength + 1 + 2 * BlockSize * blocks
    && stored[..2 * IvLength] == Hex.Encode(iv)
    && stored[2 * IvLength] == Separator
    && Hex.IsLowerHex(stored[2 * IvLength + 1..])
  }

  /** The ciphertext bytes for `text`: its UTF-8 bytes, padded, chained under `iv`. */
  function CipherBytes(c: BlockCipher, key: seq<byte>, iv: Block, text: string): (ct: seq<byte>)
    ensures |ct| % BlockSize == 0 && |Utf8.Encode(text)| < |ct| <= |Utf8.Encode(text)| + BlockSize
  {
    Cbc.Encrypt(c, key, iv, Pad(Utf8.Encode(text)))
  }

  /** `encrypt(text)` with `iv` as the random bytes it draws. It fails only for a key of the wrong
      length; otherwise the result is 32 lower-case hex digits of the IV, one ':', and the hex of
      a ciphertext that is a positive number of blocks and longer than the text's UTF-8 bytes. */
  function Encrypt(c: BlockCipher, key: seq<byte>, iv: Block, text: string): (r: Result<string, CipherError>)
    ensures r.Err? <==> |key| != KeyLength
    ensures r.Err? ==> r.error == InvalidKeyLength
    ensures r.Ok? ==> exists blocks: nat ::
                        && StoredShape(r.value, iv, blocks)
                        && blocks >= 1
                        && |Utf8.Encode(text)| < BlockSize * blocks <= |Utf8.Encode(text)| + BlockSize
  {
    if |key| != KeyLength then Err(InvalidKeyLength)
    else
      var ct := CipherBytes(c, key, iv, text);
      var stored := Hex.Encode(iv) + [Separator] + Hex.Encode(ct);
      assert Hex.IsLowerHex(stored[2 * IvLength + 1..]) by {
        assert stored[2 * IvLength + 1..] == Hex.Encode(ct);
      }
      assert StoredShape(stored, iv, |ct| / BlockSize);
      Ok(stored)
  }

  /** `decrypt(stored)`: the first two parts of `stored.split(':')` are the IV and the ciphertext. */
  function Decrypt(c: BlockCipher, key: seq<byte>, stored: string): (r: Result<string, CipherError>)
    ensures Separator !in stored ==> r.Err?
  {
    assert Separator !in stored ==> JsString.Split(stored, Separator) == [stored] by {
      if Separator !in stored {
        JsString.SplitNone(stored, Separator);
      }
    }
    DecryptParts(c, key, JsString.Split(stored, Separator))
  }

  /** The work of `decrypt` once `stored` is split: the checks in the order the calls make them,
      then deciphering and unpadding. */
  function DecryptParts(c: BlockCipher, key: seq<byte>, parts: seq<string>): (r: Result<string, CipherError>)
    requires |parts| >= 1
    ensures |parts| < 2 ==> r.Err?
    ensures |Hex.Decode(parts[0])| != IvLength ==> r == Err(InvalidIvLength)
  {
    var iv := Hex.Decode(parts[0]);
    if |iv| != IvLength then Err(InvalidIvLength)
    else if |key| != KeyLength then Err(InvalidKeyLength)
    else if |parts| < 2 then Err(MissingCiphertext)
    else
      var ctHex := parts[1];
      if |ctHex| % 2 != 0 then Err(OddHexLength)
      else
        var ct := Hex.Decode(ctHex);
        if |ct| == 0 || |ct| % BlockSize != 0 then Err(WrongFinalBlockLength)
        else
          DecipherBlocks(c, key, iv, ct)
  }

  /** `decipher.update(ct) + decipher.final()`: CBC decryption, then the padding check, then the
      bytes read as UTF-8. */
  function DecipherBlocks(c: BlockCipher, key: seq<byte>, iv: Block, ct: seq<byte>): (r: Result<string, CipherError>)
    requires |ct| > 0 && |ct| % BlockSize == 0
    ensures r.Err? ==> r.error == BadDecrypt
  {
    match Unpad(Cbc.Decrypt(c, key, iv, ct))
    case None => Err(BadDecrypt)
    case Some(plain) => Ok(Utf8.Decode(plain))
  }

  /** Only the first two parts matter. */
  lemma PartsBeyondTwoIgnored(c: BlockCipher, key: seq<byte>, parts: seq<string>, parts': seq<string>)
    requires |parts| >= 2 && |parts'| >= 2 && parts[0] == parts'[0] && parts[1] == parts'[1]
    ensures DecryptParts(c, key, parts) == DecryptParts(c, key, parts')
  {
  }

  /** Hex digits never include ':', so splitting what `Encrypt` joined gives back its two halves. */
  lemma SplitStored(ivHex: string, ctHex: string)
    requires Hex.IsLowerHex(ivHex) && Hex.IsLowerHex(ctHex)
    ensures JsString.Split(ivHex + [Separator] + ctHex, Separator) == [ivHex, ctHex]
  {
    assert Separator !in ivHex && Separator !in ctHex by {
      assert forall k | 0 <= k < |ivHex| :: ivHex[k] != Separator;
      assert forall k | 0 <= k < |ctHex| :: ctHex[k] != Separator;
    }
    JsString.SplitAt(ivHex, ctHex, Separator);
    JsString.SplitNone(ctHex, Separator);
  }

  /** Splitting is all `Decrypt` adds to `DecryptParts`. */
  lemma DecryptSplit(c: BlockCipher, key: seq<byte>, stored: string, parts: seq<string>)
    requires JsString.Split(stored, Separator) == parts
    ensures |parts| >= 1 && Decrypt(c, key, stored) == DecryptParts(c, key, parts)
  {
  }

  /** The two halves read as an IV and a ciphertext of whole blocks: what is left is deciphering. */
  lemma DecryptWholeBlocks(c: BlockCipher, key: seq<byte>, ivHex: string, ctHex: string, iv: Block, ct: seq<byte>)
    requires |key| == KeyLength
    requires Hex.Decode(ivHex) == iv && |ctHex| == 2 * |ct| && Hex.Decode(ctHex) == ct
    requires |ct| > 0 && |ct| % BlockSize == 0
    ensures DecryptParts(c, key, [ivHex, ctHex])
         == DecipherBlocks(c, key, iv, ct)
  {
  }

  /** Decrypting a joined IV and ciphertext of whole blocks deciphers exactly that ciphertext. */
  lemma DecryptJoined(c: BlockCipher, key: seq<byte>, iv: Block, ct: seq<byte>)
    requires |key| == KeyLength
    requires |ct| > 0 && |ct| % BlockSize == 0
    ensures Decrypt(c, key, Hex.Encode(iv) + [Separator] + Hex.Encode(ct))
         == DecipherBlocks(c, key, iv, ct)
  {
    var ivHex, ctHex := Hex.Encode(iv), Hex.Encode(ct);
    SplitStored(ivHex, ctHex);
    DecryptSplit(c, key, ivHex + [Separator] + ctHex, [ivHex, ctHex]);
    Hex.DecodeEncode(iv);
    Hex.DecodeEncode(ct);
    DecryptWholeBlocks(c, key, ivHex, ctHex, iv, ct);
  }

  /** Round trip: with a cipher whose decryption undoes its encryption, decrypting what
      `Encrypt` stored gives back the text, for every text, key and IV. */
  lemma DecryptEncrypt(c: BlockCipher, key: seq<byte>, iv: Block, text: string)
    requires Inverts(c)
    requires |key| == KeyLength
    ensures Encrypt(c, key, iv, text).Ok?
    ensures Decrypt(c, key, Encrypt(c, key, iv, text).value) == Ok(text)
  {
    var bytes := Utf8.Encode(text);
    var ct := CipherBytes(c, key, iv, text);
    assert Encrypt(c, key, iv, text).value == Hex.Encode(iv) + [Separator] + Hex.Encode(ct);
    DecryptJoined(c, key, iv, ct);
    Cbc.DecryptEncrypt(c, key, iv, Pad(bytes));
    UnpadPad(bytes);
    Utf8.DecodeEncode(text);
  }

  /** The module as configured: an `ENC_KEY` of 64 hex digits loads a key under which every text
      round-trips through `encrypt` and `decrypt`, for any IV. */
  lemma ConfiguredRoundTrip(c: BlockCipher, encKey: string, iv: Block, text: string)
    requires Inverts(c)
    requires |encKey| == 2 * KeyLength && IsHexText(encKey)
    ensures LoadKey(Some(encKey)).Ok?
    ensures var key := LoadKey(Some(encKey)).value;
            Encrypt(c, key, iv, text).Ok? && Decrypt(c, key, Encrypt(c, key, iv, text).value) == Ok(text)
  {
    DecryptEncrypt(c, LoadKey(Some(encKey)).value, iv, text);
  }

  /** Two encryptions under different IVs never store the same text: their first 32 characters differ. */
  lemma DistinctIvsDistinctStored(c: BlockCipher, key: seq<byte>, iv1: Block, iv2: Block, t1: string, t2: string)
    requires iv1 != iv2
    requires Encrypt(c, key, iv1, t1).Ok? && Encrypt(c, key, iv2, t2).Ok?
    ensures Encrypt(c, key, iv1, t1).value != Encrypt(c, key, iv2, t2).value
  {
    var s1, s2 := Encrypt(c, key, iv1, t1).value, Encrypt(c, key, iv2, t2).value;
    if s1 == s2 {
      var b1: nat :| StoredShape(s1, iv1, b1);
      var b2: nat :| StoredShape(s2, iv2, b2);
      assert Hex.Encode(iv1) == Hex.Encode(iv2);
      Hex.EncodeInjective(iv1, iv2);
    }
  }

  /** Whatever follows a second ':' is ignored: only the first two parts of the split are read. */
  lemma IgnoresThirdPart(c: BlockCipher, key: seq<byte>, ivHex: string, ctHex: string, extra: string)
    requires Separator !in ivHex && Separator !in ctHex
    ensures Decrypt(c, key, ivHex + [Separator] + (ctHex + [Separator] + extra))
         == Decrypt(c, key, ivHex + [Separator] + ctHex)
  {
    var tail := ctHex + [Separator] + extra;
    var long := ivHex + [Separator] + tail;
    var short := ivHex + [Separator] + ctHex;
    JsString.SplitAt(ivHex, tail, Separator);
    JsString.SplitAt(ctHex, extra, Separator);
    var parts := [ivHex] + ([ctHex] + JsString.Split(extra, Separator));
    DecryptSplit(c, key, long, parts);
    JsString.SplitAt(ivHex, ctHex, Separator);
    JsString.SplitNone(ctHex, Separator);
    DecryptSplit(c, key, short, [ivHex, ctHex]);
    PartsBeyondTwoIgnored(c, key, parts, [ivHex, ctHex]);
  }

  /** Decryption reads digit values only: two ciphertext halves whose digits agree one by one in
      value decrypt alike. */
  lemma DecryptByDigitValue(c: BlockCipher, key: seq<byte>, ivHex: string, ctHex: string, ctHex': string)
    requires Separator !in ivHex && Separator !in ctHex && Separator !in ctHex'
    requires |ctHex| == |ctHex'|
    requires forall k | 0 <= k < |ctHex| :: Hex.DigitValue(ctHex[k]) == Hex.DigitValue(ctHex'[k])
    ensures Decrypt(c, key, ivHex + [Separator] + ctHex) == Decrypt(c, key, ivHex + [Separator] + ctHex')
  {
    JsString.SplitAt(ivHex, ctHex', Separator);
    JsString.SplitNone(ctHex', Separator);
    JsString.SplitAt(ivHex, ctHex, Separator);
    JsString.SplitNone(ctHex, Separator);
    Hex.DecodeIgnoresCase(ctHex, ctHex');
  }

  /** Changing the case of a hex letter in the ciphertext half goes unnoticed: decryption reads the
      same bytes and returns the same text, so such an edit is neither detected nor visible. */
  lemma CaseChangeUndetected(c: BlockCipher, key: seq<byte>, iv: Block, text: string, i: nat)
    requires Inverts(c)
    requires |key| == KeyLength
    requires 2 * IvLength < i < |Encrypt(c, key, iv, text).value|
    requires 'a' <= Encrypt(c, key, iv, text).value[i] <= 'f'
    ensures var stored := Encrypt(c, key, iv, text).value;
            var edited := stored[i := (stored[i] as int - 32) as char];
            edited != stored && Decrypt(c, key, edited) == Ok(text)
  {
    var stored := Encrypt(c, key, iv, text).value;
    var edited := stored[i := (stored[i] as int - 32) as char];
    var ct := CipherBytes(c, key, iv, text);
    var ivHex, ctHex := Hex.Encode(iv), Hex.Encode(ct);
    assert stored == ivHex + [Separator] + ctHex;
    var j := i - (2 * IvLength + 1);
    var ctHex' := ctHex[j := edited[i]];
    assert edited == ivHex + [Separator] + ctHex';
    assert Separator !in ctHex && Separator !in ctHex' by {
      assert forall k | 0 <= k < |ctHex| :: Hex.IsLowerHexDigit(ctHex[k]);
    }
    assert Separator !in ivHex by {
      assert forall k | 0 <= k < |ivHex| :: Hex.IsLowerHexDigit(ivHex[k]);
    }
    DecryptByDigitValue(c, key, ivHex, ctHex, ctHex');
    DecryptEncrypt(c, key, iv, text);
  }

  /** An IV half that does not read as exactly 16 bytes makes decryption fail. */
  lemma BadIvFails(c: BlockCipher, key: seq<byte>, ivHex: string, rest: string)
    requires Separator !in ivHex && |Hex.Decode(ivHex)| != IvLength
    ensures Decrypt(c, key, ivHex + [Separator] + rest) == Err(InvalidIvLength)
  {
    JsString.SplitAt(ivHex, rest, Separator);
  }
}
