/**
 Documented test vectors of the two hash functions, worked out from the definitions. They fix every constant,
 every rotation and every step.
 */
module HashVectors {
  import opened Chain
  import opened WordBytes
  import opened Quotients
  import opened Word32
  import opened Hash

  // ---------- the steps of the hashes on bytes ----------

  ghost predicate Xors(x: Octets, y: Octets, z: Octets) {
    z == x.Xor(y)
  }

  lemma XorIs(x: Octets, y: Octets, z: Octets)
    requires Xors(x, y, z)
    ensures Xor(x.Value(), y.Value()) == z.Value()
  {
    XorByBytes(x, y);
  }

  ghost predicate Multiplies(x: Octets, m: Word, y: Octets, q: nat) {
    x.Value() * m == MODULUS * q + y.Value()
  }

  lemma MultiplyIs(x: Octets, m: Word, y: Octets, q: nat)
    requires Multiplies(x, m, y, q)
    ensures Imul(x.Value(), m) == y.Value()
  {
    QuotientIsUnique(x.Value() * m, MODULUS, q, y.Value());
  }

  lemma {:induction false} ShrIsQuotient(x: nat, n: nat)
    ensures Pow2(n) > 0 && Shr(x, n) == x / Pow2(n)
    decreases n
  {
    if n > 0 {
      ShrIsQuotient(x / 2, n - 1);
      HalfFirst(x, Pow2(n - 1));
    }
  }

  lemma HalfFirst(x: nat, m: nat)
    requires m > 0
    ensures x / 2 / m == x / (2 * m)
  {
    var q, r := x / (2 * m), x % (2 * m);
    assert x == 2 * (m * q) + r;
    assert x / 2 == m * q + r / 2;
    QuotientIsUnique(x / 2, m, q, r / 2);
  }

  /** `y` is `x` shifted right by `n`, `p` being 2 to the `n`, and `z` the exclusive or of the two. */
  ghost predicate Shifts(x: Octets, p: nat, y: Octets, z: Octets) {
    Xors(x, y, z) && p * y.Value() <= x.Value() < p * y.Value() + p
  }

  lemma ShiftIs(x: Octets, n: nat, p: nat, y: Octets, z: Octets)
    requires Shifts(x, p, y, z) && p == Pow2(n)
    ensures XorShift(x.Value(), n) == z.Value()
  {
    ShrIsQuotient(x.Value(), n);
    QuotientIsUnique(x.Value(), p, y.Value(), x.Value() - p * y.Value());
    XorIs(x, y, z);
  }

  lemma PowersOfTwo()
    ensures Pow2(13) == 0x2000 && Pow2(16) == 0x1_0000
  {
    assert Pow2(8) == 256;
  }

  /** `y` is `x` rotated left: `top` is what is cut off above `high` and comes back below `low`. */
  ghost predicate Rotates(x: Octets, low: nat, high: nat, top: nat, y: Octets) {
    high * top <= x.Value() < high * top + high && y.Value() == (x.Value() - high * top) * low + top
  }

  lemma Cut(x: Word, low: nat, high: nat, top: nat)
    requires high > 0 && low * high == MODULUS && high * top <= x < high * top + high
    ensures x / high == top && x * low % MODULUS == (x - high * top) * low
  {
    var r := x - high * top;
    QuotientIsUnique(x, high, top, r);
    assert x * low == MODULUS * top + r * low by {
      assert x * low == (high * top) * low + r * low;
      assert (high * top) * low == (low * high) * top;
    }
    assert r * low < high * low;
    QuotientIsUnique(x * low, MODULUS, top, r * low);
  }

  lemma Rotl15Is(x: Octets, top: nat, y: Octets)
    requires Rotates(x, 0x8000, 0x2_0000, top, y)
    ensures Rotl15(x.Value()) == y.Value()
  {
    Cut(x.Value(), 0x8000, 0x2_0000, top);
  }

  lemma Rotl13Is(x: Octets, top: nat, y: Octets)
    requires Rotates(x, 0x2000, 0x8_0000, top, y)
    ensures Rotl13(x.Value()) == y.Value()
  {
    Cut(x.Value(), 0x2000, 0x8_0000, top);
  }

  // ---------- whole computations, with their intermediate words ----------

  /** `k` scrambled to `c`. */
  datatype Scrambling = Scrambling(k: Octets, a: Octets, b: Octets, c: Octets, p: nat, top: nat, q: nat)
  {
    ghost predicate Good() {
      Multiplies(k, 0xcc9e_2d51, a, p) && Rotates(a, 0x8000, 0x2_0000, top, b) && Multiplies(b, 0x1b87_3593, c, q)
    }
  }

  lemma ScramblingIs(s: Scrambling)
    requires s.Good()
    ensures Scramble(s.k.Value()) == s.c.Value()
  {
    MultiplyIs(s.k, C1, s.a, s.p);
    Rotl15Is(s.a, s.top, s.b);
    MultiplyIs(s.b, C2, s.c, s.q);
  }

  /** A block mixed into `h`, which becomes `g`. */
  datatype Mixing = Mixing(h: Octets, block: Scrambling, d: Octets, top: nat, e: Octets, f: Octets, r: nat, g: Octets)
  {
    ghost predicate Good() {
      && Xors(h, block.c, d) && Rotates(d, 0x2000, 0x8_0000, top, e) && Multiplies(e, 5, f, r)
      && (f.Value() + 0xe654_6b64 == g.Value() || f.Value() + 0xe654_6b64 == g.Value() + MODULUS)
    }
  }

  lemma AddStep(f: Word, g: Word)
    requires f + 0xe654_6b64 == g || f + 0xe654_6b64 == g + MODULUS
    ensures (f + 0xe654_6b64) % MODULUS == g
  {}

  lemma XoredAndRotated(m: Mixing)
    requires m.Good()
    ensures Xor(m.h.Value(), m.block.c.Value()) == m.d.Value() && Rotl13(m.d.Value()) == m.e.Value()
  {
    XorIs(m.h, m.block.c, m.d);
    Rotl13Is(m.d, m.top, m.e);
  }

  lemma MultipliedAndAdded(m: Mixing)
    requires m.Good()
    ensures Imul(m.e.Value(), 5) == m.f.Value() && (m.f.Value() + 0xe654_6b64) % MODULUS == m.g.Value()
  {
    MultiplyIs(m.e, 5, m.f, m.r);
    AddStep(m.f.Value(), m.g.Value());
  }

  /** The words of a mixing are what its steps give. */
  ghost predicate Steps(h: Word, k: Word, c: Word, d: Word, e: Word, f: Word, g: Word) {
    Scramble(k) == c && Xor(h, c) == d && Rotl13(d) == e && Imul(e, 5) == f && (f + 0xe654_6b64) % MODULUS == g
  }

  lemma MixingIs(m: Mixing)
    requires m.block.Good() && m.Good()
    ensures Steps(m.h.Value(), m.block.k.Value(), m.block.c.Value(), m.d.Value(), m.e.Value(), m.f.Value(), m.g.Value())
  {
    ScramblingIs(m.block);
    XoredAndRotated(m);
    MultipliedAndAdded(m);
  }

  /** `h` finalised to `e`; `x`, `y` and `z` are the shifted words. */
  datatype Finishing = Finishing(h: Octets, x: Octets, a: Octets, b: Octets, p: nat, y: Octets, c: Octets, d: Octets, q: nat,
                                 z: Octets, e: Octets)
  {
    ghost predicate Good() {
      && Shifts(h, 0x1_0000, x, a) && Multiplies(a, 0x85eb_ca6b, b, p)
      && Shifts(b, 0x2000, y, c) && Multiplies(c, 0xc2b2_ae35, d, q) && Shifts(d, 0x1_0000, z, e)
    }
  }

  lemma FinishingIs(f: Finishing)
    requires f.Good()
    ensures Finalise(f.h.Value()) == f.e.Value()
  {
    PowersOfTwo();
    ShiftIs(f.h, 16, 0x1_0000, f.x, f.a);
    MultiplyIs(f.a, FMIX1, f.b, f.p);
    ShiftIs(f.b, 13, 0x2000, f.y, f.c);
    MultiplyIs(f.c, FMIX2, f.d, f.q);
    ShiftIs(f.d, 16, 0x1_0000, f.z, f.e);
  }

  /** What follows the blocks: the tail, the length and the finaliser. */
  datatype Ending = Ending(h: Octets, tail: Scrambling, d: Octets, length: Octets, finish: Finishing)
  {
    ghost predicate Good() {
      tail.Good() && Xors(h, tail.c, d) && Xors(d, length, finish.h) && finish.Good()
    }
  }

  lemma MurmurEnds(s: CodeUnits, seed: Word, n: nat, h: Word, d: Word, l: Word)
    requires 4 * n < |s| < 4 * n + 4 && |s| < MODULUS && Running(s, seed, n) == h
    requires Xor(h, Scramble(TailWord(s, 4 * n))) == d && Xor(d, |s|) == l
    ensures Murmur3(s, seed) == Finalise(l)
  {
    LastBlock(s, seed, n);
    SmallLength(|s|);
    assert WithTail(h, s, 4 * n) == d;
  }

  lemma SmallLength(n: nat)
    requires n < MODULUS
    ensures n % MODULUS == n
  {}

  lemma EndingIs(s: CodeUnits, seed: Word, n: nat, end: Ending)
    requires 4 * n < |s| < 4 * n + 4 && Running(s, seed, n) == end.h.Value() && end.Good()
    requires TailWord(s, 4 * n) == end.tail.k.Value() && |s| == end.length.Value()
    ensures Murmur3(s, seed) == end.finish.e.Value()
  {
    ScramblingIs(end.tail);
    XorIs(end.h, end.tail.c, end.d);
    XorIs(end.d, end.length, end.finish.h);
    MurmurEnds(s, seed, n, end.h.Value(), end.d.Value(), end.finish.h.Value());
    FinishingIs(end.finish);
  }

  lemma FirstMixing(s: CodeUnits, seed: Word, m: Mixing)
    requires 4 <= |s| && seed == m.h.Value() && BlockWord(s, 0) == m.block.k.Value() && m.block.Good() && m.Good()
    ensures Running(s, seed, 1) == m.g.Value()
  {
    FirstMixed(s, seed, BlockWord(s, 0));
    MixingIs(m);
    StepsMix(m.h.Value(), m.block.k.Value(), m.block.c.Value(), m.d.Value(), m.e.Value(), m.f.Value(), m.g.Value());
  }

  lemma FirstMixed(s: CodeUnits, seed: Word, k: Word)
    requires 4 <= |s| && BlockWord(s, 0) == k
    ensures Running(s, seed, 1) == MixBlock(seed, k)
  {
    FirstBlock(s, seed);
    NextBlock(s, seed, 0);
  }

  lemma StepsMix(h: Word, k: Word, c: Word, d: Word, e: Word, f: Word, g: Word)
    requires Steps(h, k, c, d, e, f, g)
    ensures MixBlock(h, k) == g
  {}

  // ---------- Murmur3 ----------

  /** The code units of an ASCII text. */
  function Ascii(text: string): (s: CodeUnits)
    requires forall i :: 0 <= i < |text| ==> text[i] < 128 as char
    ensures |s| == |text| && forall i :: 0 <= i < |s| ==> s[i] == text[i] as int
  {
    seq(|text|, i requires 0 <= i < |text| => text[i] as int)
  }

  const A_END: Ending := Ending(
    Octets(0x97, 0x47, 0xb2, 0x8c),
    Scrambling(Octets(0x00, 0x00, 0x00, 0x61), Octets(0x87, 0xef, 0x2b, 0xb1), Octets(0x95, 0xd8, 0xc3, 0xf7),
               Octets(0x50, 0x4b, 0xa9, 0xd5), 0x4d, 0x43f7, 0x101d_0156),
    Octets(0xc7, 0x0c, 0x1b, 0x59), Octets(0x00, 0x00, 0x00, 0x01),
    Finishing(Octets(0xc7, 0x0c, 0x1b, 0x58), Octets(0x00, 0x00, 0xc7, 0x0c), Octets(0xc7, 0x0c, 0xdc, 0x54),
              Octets(0x3d, 0x56, 0x5f, 0x1c), 0x6821_04a9,
              Octets(0x00, 0x01, 0xea, 0xb2), Octets(0x3d, 0x57, 0xb5, 0xae),
              Octets(0x7f, 0xa0, 0xe1, 0x06), 0x2ea7_4868,
              Octets(0x00, 0x00, 0x7f, 0xa0), Octets(0x7f, 0xa0, 0x9e, 0xa6)))

  lemma AEndIsGood()
    ensures A_END.Good()
  {}

  const ABC_END: Ending := Ending(
    Octets(0x00, 0x00, 0x00, 0x00),
    Scrambling(Octets(0x00, 0x63, 0x62, 0x61), Octets(0x9b, 0x9b, 0x2d, 0xb1), Octets(0x96, 0xd8, 0xcd, 0xcd),
               Octets(0xa7, 0x34, 0x9d, 0xb7), 0x4f_6fcd, 0x4dcd, 0x1038_899a),
    Octets(0xa7, 0x34, 0x9d, 0xb7), Octets(0x00, 0x00, 0x00, 0x03),
    Finishing(Octets(0xa7, 0x34, 0x9d, 0xb4), Octets(0x00, 0x00, 0xa7, 0x34), Octets(0xa7, 0x34, 0x3a, 0x80),
              Octets(0x4c, 0x7d, 0x73, 0x80), 0x5778_238b,
              Octets(0x00, 0x02, 0x63, 0xeb), Octets(0x4c, 0x7f, 0x10, 0x6b),
              Octets(0xb3, 0xdd, 0x20, 0x27), 0x3a2d_aed8,
              Octets(0x00, 0x00, 0xb3, 0xdd), Octets(0xb3, 0xdd, 0x93, 0xfa)))

  lemma AbcEndIsGood()
    ensures ABC_END.Good()
  {}

  const HELLO_MIXING: Mixing := Mixing(
    Octets(0x00, 0x00, 0x00, 0x00),
    Scrambling(Octets(0x6c, 0x6c, 0x65, 0x68), Octets(0xd2, 0x4f, 0x5d, 0xe8), Octets(0xae, 0xf4, 0x69, 0x27),
               Octets(0xa0, 0xae, 0x74, 0x65), 0x56a9_5ee6, 0x6927, 0x12d0_2e97),
    Octets(0xa0, 0xae, 0x74, 0x65), 0x1415, Octets(0xce, 0x8c, 0xb4, 0x15), Octets(0x08, 0xbf, 0x84, 0x69), 4,
    Octets(0xef, 0x13, 0xef, 0xcd))

  lemma HelloMixingScrambles()
    ensures HELLO_MIXING.block.Good()
  {}

  lemma HelloMixingIsGood()
    ensures HELLO_MIXING.Good()
  {}

  const HELLO_END: Ending := Ending(
    Octets(0xef, 0x13, 0xef, 0xcd),
    Scrambling(Octets(0x00, 0x00, 0x00, 0x6f), Octets(0xb8, 0x95, 0xa6, 0x1f), Octets(0xd3, 0x0f, 0xdc, 0x4a),
               Octets(0x73, 0xbc, 0xd0, 0x7e), 0x58, 0x5c4a, 0x16b2_25c4),
    Octets(0x9c, 0xaf, 0x3f, 0xb3), Octets(0x00, 0x00, 0x00, 0x05),
    Finishing(Octets(0x9c, 0xaf, 0x3f, 0xb6), Octets(0x00, 0x00, 0x9c, 0xaf), Octets(0x9c, 0xaf, 0xa3, 0x19),
              Octets(0xc9, 0x0d, 0xe5, 0x73), 0x51f7_90da,
              Octets(0x00, 0x06, 0x48, 0x6f), Octets(0xc9, 0x0b, 0xad, 0x1c),
              Octets(0x24, 0x8b, 0xde, 0xcc), 0x98e7_2c1d,
              Octets(0x00, 0x00, 0x24, 0x8b), Octets(0x24, 0x8b, 0xfa, 0x47)))

  lemma HelloEndIsGood()
    ensures HELLO_END.Good()
  {}

  lemma AHash(s: CodeUnits)
    requires |s| == 1 && TailWord(s, 0) == A_END.tail.k.Value()
    ensures Murmur3(s, 0x9747_b28c) == 0x7fa0_9ea6
  {
    FirstBlock(s, 0x9747_b28c);
    AEndIsGood();
    EndingIs(s, 0x9747_b28c, 0, A_END);
  }

  lemma VectorA()
    ensures Murmur3(Ascii("a"), 0x9747_b28c) == 0x7fa0_9ea6
  {
    AHash(Ascii("a"));
  }

  lemma AbcHash(s: CodeUnits)
    requires |s| == 3 && TailWord(s, 0) == ABC_END.tail.k.Value()
    ensures Murmur3(s, 0) == 0xb3dd_93fa
  {
    FirstBlock(s, 0);
    AbcEndIsGood();
    EndingIs(s, 0, 0, ABC_END);
  }

  lemma VectorAbc()
    ensures Murmur3(Ascii("abc"), 0) == 0xb3dd_93fa
  {
    AbcHash(Ascii("abc"));
  }

  lemma HelloHash(s: CodeUnits)
    requires |s| == 5 && BlockWord(s, 0) == HELLO_MIXING.block.k.Value() && TailWord(s, 4) == HELLO_END.tail.k.Value()
    ensures Murmur3(s, 0) == 0x248b_fa47
  {
    HelloMixingScrambles();
    HelloMixingIsGood();
    FirstMixing(s, 0, HELLO_MIXING);
    HelloEndIsGood();
    EndingIs(s, 0, 1, HELLO_END);
  }

  lemma VectorHello()
    ensures Murmur3(Ascii("hello"), 0) == 0x248b_fa47
  {
    HelloHash(Ascii("hello"));
  }

  const ZERO_FINISHING: Finishing := Finishing(Octets(0x00, 0x00, 0x00, 0x00), Octets(0x00, 0x00, 0x00, 0x00),
      Octets(0x00, 0x00, 0x00, 0x00), Octets(0x00, 0x00, 0x00, 0x00), 0x0,
              Octets(0x00, 0x00, 0x00, 0x00), Octets(0x00, 0x00, 0x00, 0x00), Octets(0x00, 0x00, 0x00, 0x00), 0x0,
              Octets(0x00, 0x00, 0x00, 0x00), Octets(0x00, 0x00, 0x00, 0x00))

  lemma ZeroFinishingIsGood()
    ensures ZERO_FINISHING.Good()
  {}

  lemma EmptyIs()
    ensures Murmur3([], 0) == Finalise(Xor(0, 0))
  {
    FirstBlock([], 0);
    LastBlock([], 0, 0);
  }

  lemma VectorEmpty()
    ensures Murmur3([], 0) == 0
  {
    var zero := Octets(0, 0, 0, 0);
    EmptyIs();
    XorIs(zero, zero, zero);
    ZeroFinishingIsGood();
    FinishingIs(ZERO_FINISHING);
  }

  // ---------- FNV-1a ----------

  /** The byte `b` folded into `h`, which becomes `g`. */
  datatype Folding = Folding(h: Octets, b: Octets, d: Octets, g: Octets, q: nat)
  {
    ghost predicate Good() {
      Xors(h, b, d) && Multiplies(d, 0x100_0193, g, q)
    }
  }

  lemma FoldingIs(f: Folding)
    requires f.Good()
    ensures FnvStep(f.h.Value(), f.b.Value()) == f.g.Value()
  {
    XorIs(f.h, f.b, f.d);
    MultiplyIs(f.d, FNV_PRIME, f.g, f.q);
  }

  /** The running hash after the first `n` bytes. */
  ghost function Folded(s: CodeUnits, n: nat): Word
    requires n <= |s|
  {
    Run(FnvStep, FNV_OFFSET_BASIS, Bytes(s)[..n])
  }

  lemma OneMoreByteFolded(s: CodeUnits, n: nat, f: Folding)
    requires n < |s| && Folded(s, n) == f.h.Value() && LowByte(s[n]) == f.b.Value() && f.Good()
    ensures Folded(s, n + 1) == f.g.Value()
  {
    ExtendedRun(FnvStep, FNV_OFFSET_BASIS, Bytes(s), n);
    FoldingIs(f);
  }

  lemma AllFolded(s: CodeUnits)
    ensures Folded(s, 0) == 0x811c_9dc5 && Folded(s, |s|) == Fnv1a(s)
  {
    assert Bytes(s)[..|s|] == Bytes(s);
  }

  lemma FnvVectorEmpty()
    ensures Fnv1a([]) == 0x811c_9dc5
  {
    AllFolded([]);
  }

  const A_FOLDING: Folding := Folding(
    Octets(0x81, 0x1c, 0x9d, 0xc5), Octets(0x00, 0x00, 0x00, 0x61), Octets(0x81, 0x1c, 0x9d, 0xa4),
    Octets(0xe4, 0x0c, 0x29, 0x2c), 0x81_1d68)

  lemma AFoldingIsGood()
    ensures A_FOLDING.Good()
  {}

  lemma FnvHashOfA(s: CodeUnits)
    requires |s| == 1 && LowByte(s[0]) == A_FOLDING.b.Value()
    ensures Fnv1a(s) == 0xe40c_292c
  {
    AllFolded(s);
    AFoldingIsGood();
    OneMoreByteFolded(s, 0, A_FOLDING);
  }

  lemma FnvVectorA()
    ensures Fnv1a(Ascii("a")) == 0xe40c_292c
  {
    FnvHashOfA(Ascii("a"));
  }
}
