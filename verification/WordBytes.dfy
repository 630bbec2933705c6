/**
 Exclusive or of 32-bit words worked out on their bytes.
 */
module WordBytes {
  import opened Word32

  // ---------- bit by bit ----------

  function Unequal(i: nat, j: nat): nat {
    if i != j then 1 else 0
  }

  function Twice(p: nat, i: nat): nat {
    2 * p + i
  }

  lemma TwiceAndBit(p: nat, i: nat)
    requires i < 2
    ensures Twice(p, i) / 2 == p && Twice(p, i) % 2 == i
  {}

  lemma SumParity(p: nat, q: nat, i: nat, j: nat)
    requires i < 2 && j < 2
    ensures (Twice(p, i) + Twice(q, j)) % 2 == Unequal(i, j)
  {
    var s := p + q;
    assert Twice(p, i) + Twice(q, j) == 2 * s + (i + j);
  }

  lemma FromHalf(w: nat, h: nat, b: nat)
    requires w / 2 == h && w % 2 == b
    ensures w == Twice(h, b)
  {}

  /** One more bit under each of two numbers is one more bit under their exclusive or. */
  lemma XorOneMoreBit(p: nat, q: nat, i: nat, j: nat)
    requires i < 2 && j < 2
    ensures BitXor(Twice(p, i), Twice(q, j)) == Twice(BitXor(p, q), Unequal(i, j))
  {
    var u, v := Twice(p, i), Twice(q, j);
    TwiceAndBit(p, i);
    TwiceAndBit(q, j);
    BitXorHalves(u, v);
    SumParity(p, q, i, j);
    FromHalf(BitXor(u, v), BitXor(p, q), Unequal(i, j));
  }

  // ---------- byte by byte ----------

  /** `v` in the lowest `n` bits under `p`. */
  function Under(p: nat, v: bv8, n: nat): nat {
    Pow2(n) * p + v as nat
  }

  lemma LastBit(v: bv8)
    ensures v as int == 2 * ((v >> 1) as int) + (v & 1) as int
    ensures (v & 1) as int < 2
  {}

  lemma LastBitOfXor(v: bv8, w: bv8)
    ensures (v ^ w) >> 1 == (v >> 1) ^ (w >> 1)
    ensures ((v ^ w) & 1) as int == Unequal((v & 1) as nat, (w & 1) as nat)
  {}

  lemma UnderHalves(p: nat, v: bv8, n: nat)
    requires n > 0
    ensures Under(p, v, n) == Twice(Under(p, v >> 1, n - 1), (v & 1) as nat)
  {
    LastBit(v);
    assert Pow2(n) * p == 2 * (Pow2(n - 1) * p);
  }

  /** What `g` makes of two numbers, with `v` and `w` under them. */
  ghost predicate Splits(g: (nat, nat) -> nat, p: nat, q: nat, v: bv8, w: bv8, n: nat) {
    g(Under(p, v, n), Under(q, w, n)) == Under(g(p, q), v ^ w, n)
  }

  lemma SplitsOneBitLower(g: (nat, nat) -> nat, p: nat, q: nat, v: bv8, w: bv8, n: nat)
    requires n > 0 && Splits(g, p, q, v >> 1, w >> 1, n - 1)
    requires var x, y, i, j := Under(p, v >> 1, n - 1), Under(q, w >> 1, n - 1), (v & 1) as nat, (w & 1) as nat;
             g(Twice(x, i), Twice(y, j)) == Twice(g(x, y), Unequal(i, j))
    ensures Splits(g, p, q, v, w, n)
  {
    UnderHalves(p, v, n);
    UnderHalves(q, w, n);
    UnderHalves(g(p, q), v ^ w, n);
    LastBitOfXor(v, w);
  }

  lemma NothingUnder(p: nat)
    ensures Under(p, 0, 0) == p
  {}

  lemma {:induction false} XorSplits(p: nat, q: nat, v: bv8, w: bv8, n: nat)
    requires v as nat < Pow2(n) && w as nat < Pow2(n)
    ensures Splits(BitXor, p, q, v, w, n)
  {
    if n == 0 {
      NothingUnder(p);
      NothingUnder(q);
      NothingUnder(BitXor(p, q));
    } else {
      LastBit(v);
      LastBit(w);
      XorSplits(p, q, v >> 1, w >> 1, n - 1);
      XorOneMoreBit(Under(p, v >> 1, n - 1), Under(q, w >> 1, n - 1), (v & 1) as nat, (w & 1) as nat);
      SplitsOneBitLower(BitXor, p, q, v, w, n);
    }
  }

  function Byte(p: nat, v: nat): nat {
    256 * p + v
  }

  lemma EightBits(p: nat, v: bv8)
    ensures v as nat < Pow2(8) && Under(p, v, 8) == Byte(p, v as nat)
  {
    assert Pow2(8) == 256;
  }

  /** One more byte under each of two numbers is one more byte under their exclusive or. */
  lemma XorOneMoreByte(p: nat, q: nat, r: nat, v: bv8, w: bv8)
    requires BitXor(p, q) == r
    ensures BitXor(Byte(p, v as nat), Byte(q, w as nat)) == Byte(r, (v ^ w) as nat)
  {
    EightBits(p, v);
    EightBits(q, w);
    EightBits(r, v ^ w);
    XorSplits(p, q, v, w, 8);
  }

  function FourBytes(a: nat, b: nat, c: nat, d: nat): nat {
    Byte(Byte(Byte(Byte(0, a), b), c), d)
  }

  lemma FourBytesAreAWord(a: nat, b: nat, c: nat, d: nat)
    requires a < 256 && b < 256 && c < 256 && d < 256
    ensures FourBytes(a, b, c, d) < MODULUS
  {}

  /** A word by its four bytes, the most significant one first. */
  datatype Octets = Octets(a: bv8, b: bv8, c: bv8, d: bv8)
  {
    function Value(): Word {
      FourBytesAreAWord(a as nat, b as nat, c as nat, d as nat);
      FourBytes(a as nat, b as nat, c as nat, d as nat)
    }

    function Xor(o: Octets): Octets {
      Octets(a ^ o.a, b ^ o.b, c ^ o.c, d ^ o.d)
    }
  }

  lemma XorTwoBytes(p: nat, q: nat, r: nat, v: bv8, w: bv8, x: bv8, y: bv8)
    requires BitXor(p, q) == r
    ensures BitXor(Byte(Byte(p, v as nat), x as nat), Byte(Byte(q, w as nat), y as nat)) ==
            Byte(Byte(r, (v ^ w) as nat), (x ^ y) as nat)
  {
    XorOneMoreByte(p, q, r, v, w);
    XorOneMoreByte(Byte(p, v as nat), Byte(q, w as nat), Byte(r, (v ^ w) as nat), x, y);
  }

  lemma XorFourBytes(a: bv8, b: bv8, c: bv8, d: bv8, e: bv8, f: bv8, i: bv8, j: bv8)
    ensures BitXor(FourBytes(a as nat, b as nat, c as nat, d as nat), FourBytes(e as nat, f as nat, i as nat, j as nat)) ==
            FourBytes((a ^ e) as nat, (b ^ f) as nat, (c ^ i) as nat, (d ^ j) as nat)
  {
    XorTwoBytes(0, 0, 0, a, e, b, f);
    XorTwoBytes(Byte(Byte(0, a as nat), b as nat), Byte(Byte(0, e as nat), f as nat),
                Byte(Byte(0, (a ^ e) as nat), (b ^ f) as nat), c, i, d, j);
  }

  lemma XorByBytes(x: Octets, y: Octets)
    ensures Xor(x.Value(), y.Value()) == x.Xor(y).Value()
  {
    XorFourBytes(x.a, x.b, x.c, x.d, y.a, y.b, y.c, y.d);
  }
}
