/** Octets and the bitwise exclusive-or that cipher block chaining applies to them. */
module Bytes {

  type byte = x: int | 0 <= x < 256

  /** Bitwise exclusive-or of two naturals, one bit at a time from the lowest. */
  function Xor(a: nat, b: nat): nat
    decreases a + b
  {
    if a == 0 && b == 0 then 0
    else 2 * Xor(a / 2, b / 2) + (if a % 2 == b % 2 then 0 else 1)
  }

  /** Exclusive-or of two values below 2^n stays below 2^n. */
  lemma {:induction false} XorBelow(a: nat, b: nat, bound: nat)
    requires bound in {1, 2, 4, 8, 16, 32, 64, 128, 256}
    requires a < bound && b < bound
    ensures Xor(a, b) < bound
  {
    if a == 0 && b == 0 {
    } else if bound == 1 {
    } else {
      XorBelow(a / 2, b / 2, bound / 2);
    }
  }

  lemma {:induction false} XorZero(a: nat)
    ensures Xor(a, 0) == a
  {
    if a != 0 {
      XorZero(a / 2);
    }
  }

  /** Exclusive-or with the same value twice gives back the original: what CBC decryption relies on. */
  lemma {:induction false} XorCancel(a: nat, b: nat)
    ensures Xor(Xor(a, b), b) == a
    decreases a + b
  {
    if a == 0 && b == 0 {
    } else {
      var c := Xor(a, b);
      XorCancel(a / 2, b / 2);
      assert c / 2 == Xor(a / 2, b / 2) && c % 2 == (if a % 2 == b % 2 then 0 else 1);
      if b == 0 {
        XorZero(c);
        XorZero(a);
      } else {
        assert Xor(c, b) == 2 * Xor(c / 2, b / 2) + (if c % 2 == b % 2 then 0 else 1);
      }
    }
  }

  function XorByte(a: byte, b: byte): (r: byte)
    ensures Xor(r, b) == a
  {
    XorBelow(a, b, 256);
    XorCancel(a, b);
    Xor(a, b)
  }
}
