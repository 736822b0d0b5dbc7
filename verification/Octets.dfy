/** Bytes and their exclusive or, taken bit by bit. */
module Octets {

  newtype Byte = x: int | 0 <= x < 256

  type Bytes = seq<Byte>

  function XorBits(a: nat, b: nat): nat
    decreases a + b
  {
    if a == 0 && b == 0 then 0 else 2 * XorBits(a / 2, b / 2) + (a % 2 + b % 2) % 2
  }

  function Xor(a: Byte, b: Byte): Byte {
    EightBits(a as int, b as int);
    XorBits(a as int, b as int) as Byte
  }

  lemma {:induction false} XorBelow(a: nat, b: nat, bits: nat)
    requires a < Power(bits) && b < Power(bits)
    ensures XorBits(a, b) < Power(bits)
    decreases bits
  {
    if bits > 0 {
      XorBelow(a / 2, b / 2, bits - 1);
    }
  }

  function Power(n: nat): nat { if n == 0 then 1 else 2 * Power(n - 1) }

  lemma EightBits(a: nat, b: nat)
    requires a < 256 && b < 256
    ensures XorBits(a, b) < 256
  {
    assert Power(4) == 16 && Power(8) == 16 * Power(4);
    XorBelow(a, b, 8);
  }

  lemma LastBit(a: nat, b: nat)
    ensures XorBits(a, b) / 2 == XorBits(a / 2, b / 2)
    ensures XorBits(a, b) % 2 == (a % 2 + b % 2) % 2
  {
  }

  lemma {:induction false} BitsCancel(a: nat, b: nat)
    ensures XorBits(XorBits(a, b), b) == a
    decreases a + b
  {
    hide XorBits;
    if a != 0 || b != 0 {
      LastBit(a, b);
      LastBit(XorBits(a, b), b);
      BitsCancel(a / 2, b / 2);
    } else {
      LastBit(0, 0);
    }
  }

  lemma {:induction false} BitsCommute(a: nat, b: nat)
    ensures XorBits(a, b) == XorBits(b, a)
    decreases a + b
  {
    if a != 0 || b != 0 {
      BitsCommute(a / 2, b / 2);
    }
  }

  lemma XorCancels(a: Byte, b: Byte)
    ensures Xor(Xor(a, b), b) == a
  {
    BitsCancel(a as int, b as int);
  }

  /** Mixing in two bytes leaves a byte as it was exactly when the two are the same. */
  lemma XorMoves(x: Byte, a: Byte, b: Byte)
    ensures Xor(Xor(x, a), b) == x <==> a == b
  {
    XorCancels(x, b);
    XorCancels(Xor(x, a), b);
    XorCancels(a, x);
    XorCancels(b, x);
    BitsCommute(x as int, a as int);
    BitsCommute(x as int, b as int);
    hide XorBits;
  }
}
