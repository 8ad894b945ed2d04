/**
 * AES-256-CBC as `crypto.createCipheriv('aes-256-cbc', key, iv)` applies it: PKCS#7 padding
 * (RFC 5652, section 6.3), which `cipher.final()` adds by default, and cipher block chaining
 * (NIST SP 800-38A, section 6.2) over 16-byte blocks. The AES block function itself is not
 * modelled: it is any pair of keyed functions on blocks, the second undoing the first.
 */
module Cbc {
  import opened Wrappers
  import opened Bytes

  const BlockSize: nat := 16

  type Block = s: seq<byte> | |s| == BlockSize witness seq(16, _ => 0)

  /** A block cipher: keyed encryption and decryption of single blocks. */
  datatype BlockCipher = BlockCipher(encrypt: (seq<byte>, Block) -> Block, decrypt: (seq<byte>, Block) -> Block)

  /** Under every key, decryption undoes encryption: a permutation of blocks with its inverse. */
  ghost predicate Inverts(c: BlockCipher)
  {
    forall key, b :: c.decrypt(key, c.encrypt(key, b)) == b
  }

  function XorBlock(a: Block, b: Block): (r: Block)
    ensures forall i | 0 <= i < BlockSize :: Xor(r[i], b[i]) == a[i]
  {
    seq(BlockSize, i requires 0 <= i < BlockSize => XorByte(a[i], b[i]))
  }

  lemma XorBlockCancel(a: Block, b: Block)
    ensures XorBlock(XorBlock(a, b), b) == a
  {
  }

  /** PKCS#7: 1 to 16 bytes, each holding their own count, bring the length to a whole number of blocks. */
  function Pad(p: seq<byte>): (r: seq<byte>)
    ensures |r| % BlockSize == 0 && |p| < |r| <= |p| + BlockSize
    ensures r[..|p|] == p
    ensures forall i | |p| <= i < |r| :: r[i] == |r| - |p|
  {
    var n := BlockSize - |p| % BlockSize;
    p + seq(n, _ => n)
  }

  /** Removing PKCS#7 padding as `decipher.final()` does: the last byte gives the count, which must
      be 1 to 16, and every one of the last count bytes must hold it; otherwise "bad decrypt". */
  function Unpad(r: seq<byte>): (p: Option<seq<byte>>)
    requires |r| > 0 && |r| % BlockSize == 0
    ensures p.Some? ==> |p.value| < |r| && p.value == r[..|p.value|]
  {
    var n := r[|r| - 1];
    if n == 0 || n > BlockSize then None
    else if exists i | |r| - n <= i < |r| :: r[i] != n then None
    else Some(r[..|r| - n])
  }

  /** Unpadding recovers exactly the text that padding came from, and nothing else unpads. */
  lemma UnpadIffPad(r: seq<byte>, p: seq<byte>)
    requires |r| > 0 && |r| % BlockSize == 0
    ensures Unpad(r) == Some(p) <==> Pad(p) == r
  {
    if Pad(p) == r {
      assert r[..|p|] == p;
    }
    if Unpad(r) == Some(p) {
      var n := r[|r| - 1];
      assert |p| == |r| - n;
      assert |p| % BlockSize == (BlockSize - n) % BlockSize;
      var q := Pad(p);
      assert |q| == |r|;
      assert forall i | 0 <= i < |r| :: q[i] == r[i];
    }
  }

  lemma UnpadPad(p: seq<byte>)
    ensures Unpad(Pad(p)) == Some(p)
  {
    UnpadIffPad(Pad(p), p);
  }

  /** CBC encryption: each block is xored with the previous ciphertext block (the IV for the
      first) and then enciphered. */
  function Encrypt(c: BlockCipher, key: seq<byte>, iv: Block, p: seq<byte>): (ct: seq<byte>)
    requires |p| % BlockSize == 0
    ensures |ct| == |p|
    decreases |p|
  {
    if |p| == 0 then []
    else
      var x := c.encrypt(key, XorBlock(p[..BlockSize], iv));
      x + Encrypt(c, key, x, p[BlockSize..])
  }

  /** CBC decryption: each block is deciphered and then xored with the previous ciphertext block. */
  function Decrypt(c: BlockCipher, key: seq<byte>, iv: Block, ct: seq<byte>): (p: seq<byte>)
    requires |ct| % BlockSize == 0
    ensures |p| == |ct|
    decreases |ct|
  {
    if |ct| == 0 then []
    else
      var x: Block := ct[..BlockSize];
      XorBlock(c.decrypt(key, x), iv) + Decrypt(c, key, x, ct[BlockSize..])
  }

  /** CBC decryption under the same key and IV undoes CBC encryption. */
  lemma {:induction false} DecryptEncrypt(c: BlockCipher, key: seq<byte>, iv: Block, p: seq<byte>)
    requires Inverts(c)
    requires |p| % BlockSize == 0
    ensures Decrypt(c, key, iv, Encrypt(c, key, iv, p)) == p
    decreases |p|
  {
    if |p| > 0 {
      var x := c.encrypt(key, XorBlock(p[..BlockSize], iv));
      var ct := Encrypt(c, key, iv, p);
      assert ct[..BlockSize] == x && ct[BlockSize..] == Encrypt(c, key, x, p[BlockSize..]);
      XorBlockCancel(p[..BlockSize], iv);
      DecryptEncrypt(c, key, x, p[BlockSize..]);
      assert p == p[..BlockSize] + p[BlockSize..];
    }
  }
}
