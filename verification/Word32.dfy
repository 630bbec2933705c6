/**
 Unsigned 32-bit words as integers, with the operators the hash functions use: `^`, `>>>`, the
 rotations written `(x << n) | (x >>> (32 - n))`, and `Math.imul`. Each is shown to lose nothing.
 */
module Word32 {
  import opened Quotients

  const MODULUS := 0x1_0000_0000

  type Word = x: int | 0 <= x < 0x1_0000_0000

  // ---------- exclusive or ----------

  /** Bitwise exclusive or, least significant bit first. */
  function BitXor(a: nat, b: nat): nat {
    if a == 0 then b else if b == 0 then a else (a + b) % 2 + 2 * BitXor(a / 2, b / 2)
  }

  lemma {:induction false} BitXorHalves(a: nat, b: nat)
    ensures BitXor(a, b) % 2 == (a + b) % 2
    ensures BitXor(a, b) / 2 == BitXor(a / 2, b / 2)
  {
    if a != 0 && b != 0 {
      QuotientIsUnique(BitXor(a, b), 2, BitXor(a / 2, b / 2), (a + b) % 2);
    }
  }

  lemma {:induction false} BitXorCancels(a: nat, b: nat)
    ensures BitXor(BitXor(a, b), b) == a
  {
    if a != 0 || b != 0 {
      BitXorHalves(a, b);
      BitXorHalves(BitXor(a, b), b);
      BitXorCancels(a / 2, b / 2);
    }
  }

  lemma {:induction false} BitXorCommutes(a: nat, b: nat)
    ensures BitXor(a, b) == BitXor(b, a)
  {
    if a != 0 && b != 0 {
      BitXorCommutes(a / 2, b / 2);
    }
  }

  function Pow2(n: nat): nat {
    if n == 0 then 1 else 2 * Pow2(n - 1)
  }

  lemma {:induction false} BitXorStaysBelow(a: nat, b: nat, n: nat)
    requires a < Pow2(n) && b < Pow2(n)
    ensures BitXor(a, b) < Pow2(n)
  {
    if n > 0 {
      BitXorStaysBelow(a / 2, b / 2, n - 1);
      BitXorHalves(a, b);
    }
  }

  lemma Pow2Of32()
    ensures Pow2(32) == MODULUS
  {
    assert Pow2(8) == 256;
    assert Pow2(16) == 0x1_0000;
    assert Pow2(24) == 0x100_0000;
  }

  function Xor(a: Word, b: Word): Word {
    Pow2Of32();
    BitXorStaysBelow(a, b, 32);
    BitXor(a, b)
  }

  lemma XorIsInjective(a: Word, b: Word, k: Word)
    ensures Xor(a, k) == Xor(b, k) ==> a == b
    ensures Xor(k, a) == Xor(k, b) ==> a == b
  {
    BitXorCancels(a, k);
    BitXorCancels(b, k);
    BitXorCommutes(a, k);
    BitXorCommutes(b, k);
  }

  // ---------- shifts and rotations ----------

  /** `x >>> n`. */
  function Shr(x: nat, n: nat): nat
    decreases n
  {
    if n == 0 then x else Shr(x / 2, n - 1)
  }

  lemma {:induction false} ShrHalves(x: nat, n: nat)
    ensures Shr(x, n) / 2 == Shr(x / 2, n)
    ensures Shr(x, n) <= x
    decreases n
  {
    if n > 0 {
      ShrHalves(x / 2, n - 1);
    }
  }

  lemma {:induction false} BitXorShiftIsInjective(x: nat, y: nat, n: nat)
    requires n > 0
    requires BitXor(x, Shr(x, n)) == BitXor(y, Shr(y, n))
    ensures x == y
    decreases x + y
  {
    if x != 0 || y != 0 {
      BitXorHalves(x, Shr(x, n));
      BitXorHalves(y, Shr(y, n));
      ShrHalves(x, n);
      ShrHalves(y, n);
      BitXorShiftIsInjective(x / 2, y / 2, n);
      BitXorCancels(x, Shr(x, n));
      BitXorCancels(y, Shr(y, n));
    }
  }

  /** `x ^ (x >>> n)`. */
  function XorShift(x: Word, n: nat): Word {
    ShrHalves(x, n);
    Xor(x, Shr(x, n))
  }

  lemma XorShiftIsInjective(x: Word, y: Word, n: nat)
    requires n > 0
    ensures XorShift(x, n) == XorShift(y, n) ==> x == y
  {
    if XorShift(x, n) == XorShift(y, n) {
      BitXorShiftIsInjective(x, y, n);
    }
  }

  /** `(x << 15) | (x >>> 17)`: the two operands share no bit, so the union is the sum. */
  function Rotl15(x: Word): Word {
    x * 0x8000 % MODULUS + x / 0x2_0000
  }

  /** `(x << 13) | (x >>> 19)`. */
  function Rotl13(x: Word): Word {
    x * 0x2000 % MODULUS + x / 0x8_0000
  }

  lemma Rotl15Halves(x: Word)
    ensures Rotl15(x) / 0x8000 == x % 0x2_0000 && Rotl15(x) % 0x8000 == x / 0x2_0000
  {
    var q, r := x / 0x2_0000, x % 0x2_0000;
    QuotientIsUnique(x * 0x8000, MODULUS, q, 0x8000 * r);
    QuotientIsUnique(Rotl15(x), 0x8000, r, q);
  }

  lemma Rotl13Halves(x: Word)
    ensures Rotl13(x) / 0x2000 == x % 0x8_0000 && Rotl13(x) % 0x2000 == x / 0x8_0000
  {
    var q, r := x / 0x8_0000, x % 0x8_0000;
    QuotientIsUnique(x * 0x2000, MODULUS, q, 0x2000 * r);
    QuotientIsUnique(Rotl13(x), 0x2000, r, q);
  }

  lemma RotationsAreInjective(x: Word, y: Word)
    ensures Rotl15(x) == Rotl15(y) ==> x == y
    ensures Rotl13(x) == Rotl13(y) ==> x == y
  {
    Rotl15Halves(x);
    Rotl15Halves(y);
    Rotl13Halves(x);
    Rotl13Halves(y);
  }

  // ---------- multiplication ----------

  /** `Math.imul`. */
  function Imul(x: Word, m: Word): Word {
    x * m % MODULUS
  }

  lemma ImulIsInvertible(x: Word, m: Word, inverse: Word)
    requires m * inverse % MODULUS == 1
    ensures Imul(Imul(x, m), inverse) == x
  {
    var q, r := x * m / MODULUS, x * m % MODULUS;
    var c := m * inverse / MODULUS;
    assert r * inverse == MODULUS * (x * c - q * inverse) + x by {
      assert r == x * m - MODULUS * q;
      assert r * inverse == x * (m * inverse) - MODULUS * (q * inverse);
      assert m * inverse == MODULUS * c + 1;
      assert x * (m * inverse) == MODULUS * (x * c) + x;
    }
    QuotientIsUnique(r * inverse, MODULUS, x * c - q * inverse, x);
  }

  lemma ImulIsInjective(x: Word, y: Word, m: Word, inverse: Word)
    requires m * inverse % MODULUS == 1
    ensures Imul(x, m) == Imul(y, m) ==> x == y
  {
    ImulIsInvertible(x, m, inverse);
    ImulIsInvertible(y, m, inverse);
  }
}
