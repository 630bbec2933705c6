/**
 The two string hashes of the consistent-hash library.

 A JavaScript string is a sequence of 16-bit code units and both functions read only the low byte of
 each. The source's numbers are modelled by their 32-bit patterns; bytes are joined with `|` or `^`
 at disjoint positions, which is their sum.
 */
module Hash {
  import opened Chain
  import opened Quotients
  import opened Word32

  type CodeUnit = c: int | 0 <= c < 0x1_0000
  type CodeUnits = seq<CodeUnit>

  function LowByte(c: CodeUnit): Word {
    c % 0x100
  }

  /** Two strings agree on every low byte in [lo, hi). */
  ghost predicate SameBytes(s: CodeUnits, t: CodeUnits, lo: nat, hi: nat)
    requires hi <= |s| && hi <= |t|
  {
    forall i :: lo <= i < hi ==> LowByte(s[i]) == LowByte(t[i])
  }

  // ---------- FNV-1a ----------

  const FNV_OFFSET_BASIS: Word := 0x811c9dc5
  const FNV_PRIME: Word := 0x01000193

  function FnvStep(h: Word, b: Word): Word {
    Imul(Xor(h, b), FNV_PRIME)
  }

  function Bytes(s: CodeUnits): (b: seq<Word>)
    ensures |b| == |s| && forall i :: 0 <= i < |s| ==> b[i] == LowByte(s[i])
  {
    seq(|s|, i requires 0 <= i < |s| => LowByte(s[i]))
  }

  function Fnv1a(s: CodeUnits): Word {
    Run(FnvStep, FNV_OFFSET_BASIS, Bytes(s))
  }

  method Fnv1a32(input: CodeUnits) returns (hash: Word)
    ensures hash == Fnv1a(input)
  {
    hash := FNV_OFFSET_BASIS;
    for i := 0 to |input|
      invariant hash == Run(FnvStep, FNV_OFFSET_BASIS, Bytes(input)[..i])
    {
      ExtendedRun(FnvStep, FNV_OFFSET_BASIS, Bytes(input), i);
      hash := Xor(hash, LowByte(input[i]));
      hash := Imul(hash, FNV_PRIME);
    }
    assert Bytes(input)[..|input|] == Bytes(input);
  }

  // ---------- Murmur3 ----------

  const C1: Word := 0xcc9e2d51
  const C2: Word := 0x1b873593
  const BLOCK_STEP: Word := 0xe6546b64
  const FMIX1: Word := 0x85ebca6b
  const FMIX2: Word := 0xc2b2ae35

  /** The multiply-rotate-multiply scrambling of one block or tail word. */
  function Scramble(k: Word): Word {
    Imul(Rotl15(Imul(k, C1)), C2)
  }

  function MixBlock(h: Word, k: Word): Word {
    (Imul(Rotl13(Xor(h, Scramble(k))), 5) + BLOCK_STEP) % MODULUS
  }

  function Fmix1(h: Word): Word {
    Imul(XorShift(h, 16), FMIX1)
  }

  function Fmix2(h: Word): Word {
    Imul(XorShift(h, 13), FMIX2)
  }

  function Finalise(h: Word): Word {
    XorShift(Fmix2(Fmix1(h)), 16)
  }

  /** The four low bytes at `i`, little-endian. */
  function BlockWord(s: CodeUnits, i: nat): Word
    requires i + 4 <= |s|
  {
    LowByte(s[i]) + 0x100 * LowByte(s[i + 1]) + 0x1_0000 * LowByte(s[i + 2]) + 0x100_0000 * LowByte(s[i + 3])
  }

  /** The whole blocks, in order. */
  function BlockWords(s: CodeUnits): (w: seq<Word>)
    ensures |w| == |s| / 4 && forall n {:trigger w[n]} :: 0 <= n < |w| ==> w[n] == BlockWord(s, 4 * n)
  {
    seq(|s| / 4, n requires 0 <= n < |s| / 4 => BlockWord(s, 4 * n))
  }

  /** The running hash after all whole blocks. */
  function Blocks(s: CodeUnits, seed: Word): Word {
    Run(MixBlock, seed, BlockWords(s))
  }

  /** The start of the one to three bytes after the last whole block. */
  function TailStart(s: CodeUnits): (i: nat)
    ensures i == 4 * (|s| / 4) == |s| - |s| % 4
  {
    |s| / 4 * 4
  }

  /** The bytes from `i` on, at most three of them, little-endian; 0 when there are none. */
  function TailWord(s: CodeUnits, i: nat): Word
    requires i <= |s| < i + 4
  {
    if |s| == i then 0
    else if |s| == i + 1 then LowByte(s[i])
    else if |s| == i + 2 then LowByte(s[i]) + 0x100 * LowByte(s[i + 1])
    else LowByte(s[i]) + 0x100 * LowByte(s[i + 1]) + 0x1_0000 * LowByte(s[i + 2])
  }

  /** The running hash with the tail mixed in. */
  function WithTail(h: Word, s: CodeUnits, i: nat): Word
    requires i <= |s| < i + 4
  {
    if |s| == i then h else Xor(h, Scramble(TailWord(s, i)))
  }

  function Murmur3(s: CodeUnits, seed: Word): Word {
    Finalise(Xor(WithTail(Blocks(s, seed), s, TailStart(s)), |s| % MODULUS))
  }

  /** The running hash after the first `n` blocks. */
  ghost function Running(s: CodeUnits, seed: Word, n: nat): Word
    requires 4 * n <= |s|
  {
    Run(MixBlock, seed, BlockWords(s)[..n])
  }

  lemma FirstBlock(s: CodeUnits, seed: Word)
    ensures Running(s, seed, 0) == seed
  {}

  lemma NextBlock(s: CodeUnits, seed: Word, n: nat)
    requires 4 * n + 4 <= |s|
    ensures Running(s, seed, n + 1) == MixBlock(Running(s, seed, n), BlockWord(s, 4 * n))
  {
    ExtendedRun(MixBlock, seed, BlockWords(s), n);
  }

  lemma LastBlock(s: CodeUnits, seed: Word, n: nat)
    requires 4 * n <= |s| < 4 * n + 4
    ensures 4 * n == TailStart(s) && Running(s, seed, n) == Blocks(s, seed)
  {
    assert BlockWords(s)[..n] == BlockWords(s);
  }

  /** The falling-through cases of the `switch` on the number of bytes left. */
  method ReadTail(input: CodeUnits, i: nat) returns (k: Word)
    requires i < |input| < i + 4
    ensures k == TailWord(input, i)
  {
    k := 0;
    if |input| - i >= 3 { k := k + 0x1_0000 * LowByte(input[i + 2]); }
    if |input| - i >= 2 { k := k + 0x100 * LowByte(input[i + 1]); }
    k := k + LowByte(input[i]);
  }

  method Murmur3x32(input: CodeUnits, seed: Word) returns (h: Word)
    ensures h == Murmur3(input, seed)
  {
    h := seed;
    var len := |input|;
    var i := 0;
    ghost var n := 0;
    FirstBlock(input, seed);
    while i + 4 <= len
      invariant 0 <= i <= len && i == 4 * n
      invariant h == Running(input, seed, n)
    {
      NextBlock(input, seed, n);
      var k := BlockWord(input, i);
      k := Imul(k, C1);
      k := Rotl15(k);
      k := Imul(k, C2);
      h := Xor(h, k);
      h := Rotl13(h);
      h := (Imul(h, 5) + BLOCK_STEP) % MODULUS;
      i := i + 4;
      n := n + 1;
    }

    LastBlock(input, seed, n);
    if len > i {
      var k := ReadTail(input, i);
      k := Imul(k, C1);
      k := Rotl15(k);
      k := Imul(k, C2);
      h := Xor(h, k);
    }

    h := Xor(h, len % MODULUS);
    h := XorShift(h, 16);
    h := Imul(h, FMIX1);
    h := XorShift(h, 13);
    h := Imul(h, FMIX2);
    h := XorShift(h, 16);
  }

  // ---------- every step loses nothing ----------

  lemma Inverses()
    ensures FNV_PRIME * 0x359c449b % MODULUS == 1
    ensures C1 * 0xdee13bb1 % MODULUS == 1 && C2 * 0x56ed309b % MODULUS == 1
    ensures FMIX1 * 0xa5cb9243 % MODULUS == 1 && FMIX2 * 0x7ed1b41d % MODULUS == 1
  {}

  lemma ScrambleIsInjective(k: Word, l: Word)
    ensures Scramble(k) == Scramble(l) ==> k == l
  {
    Inverses();
    ImulIsInjective(Rotl15(Imul(k, C1)), Rotl15(Imul(l, C1)), C2, 0x56ed309b);
    RotationsAreInjective(Imul(k, C1), Imul(l, C1));
    ImulIsInjective(k, l, C1, 0xdee13bb1);
  }

  lemma AddIsInjective(x: Word, y: Word, c: Word)
    ensures (x + c) % MODULUS == (y + c) % MODULUS ==> x == y
  {}

  /** A block step is injective in the running hash and in the block. */
  lemma MixBlockIsInjective(h: Word, k: Word, g: Word, l: Word)
    ensures MixBlock(h, k) == MixBlock(g, l) && k == l ==> h == g
    ensures MixBlock(h, k) == MixBlock(g, l) && h == g ==> k == l
  {
    var u, v := Scramble(k), Scramble(l);
    MixIsInjective(Xor(h, u), Xor(g, v));
    if k == l {
      XorIsInjective(h, g, u);
    }
    if h == g {
      XorIsInjective(u, v, h);
      ScrambleIsInjective(k, l);
    }
  }

  lemma MixIsInjective(x: Word, y: Word)
    ensures (Imul(Rotl13(x), 5) + BLOCK_STEP) % MODULUS == (Imul(Rotl13(y), 5) + BLOCK_STEP) % MODULUS ==> x == y
  {
    AddIsInjective(Imul(Rotl13(x), 5), Imul(Rotl13(y), 5), BLOCK_STEP);
    ImulIsInjective(Rotl13(x), Rotl13(y), 5, 0xcccccccd);
    RotationsAreInjective(x, y);
  }

  lemma ShiftMultiplyIsInjective(x: Word, y: Word, n: nat, m: Word, inverse: Word)
    requires n > 0 && m * inverse % MODULUS == 1
    ensures Imul(XorShift(x, n), m) == Imul(XorShift(y, n), m) ==> x == y
  {
    ImulIsInjective(XorShift(x, n), XorShift(y, n), m, inverse);
    XorShiftIsInjective(x, y, n);
  }

  lemma Fmix1IsInjective(x: Word, y: Word)
    ensures Fmix1(x) == Fmix1(y) ==> x == y
  {
    Inverses();
    ShiftMultiplyIsInjective(x, y, 16, FMIX1, 0xa5cb9243);
  }

  lemma Fmix2IsInjective(x: Word, y: Word)
    ensures Fmix2(x) == Fmix2(y) ==> x == y
  {
    Inverses();
    ShiftMultiplyIsInjective(x, y, 13, FMIX2, 0x7ed1b41d);
  }

  lemma FinaliseIsInjective(x: Word, y: Word)
    ensures Finalise(x) == Finalise(y) ==> x == y
  {
    XorShiftIsInjective(Fmix2(Fmix1(x)), Fmix2(Fmix1(y)), 16);
    Fmix2IsInjective(Fmix1(x), Fmix1(y));
    Fmix1IsInjective(x, y);
  }

  lemma BytesAreRecoverable(a: Word, b: Word, c: Word, d: Word, x: Word, y: Word, z: Word, w: Word)
    requires a < 0x100 && b < 0x100 && c < 0x100 && d < 0x100
    requires x < 0x100 && y < 0x100 && z < 0x100 && w < 0x100
    requires a + 0x100 * b + 0x1_0000 * c + 0x100_0000 * d == x + 0x100 * y + 0x1_0000 * z + 0x100_0000 * w
    ensures a == x && b == y && c == z && d == w
  {
    var n := a + 0x100 * b + 0x1_0000 * c + 0x100_0000 * d;
    OneByteOff(n, a, b + 0x100 * c + 0x1_0000 * d, x, y + 0x100 * z + 0x1_0000 * w);
    OneByteOff(b + 0x100 * c + 0x1_0000 * d, b, c + 0x100 * d, y, z + 0x100 * w);
    OneByteOff(c + 0x100 * d, c, d, z, w);
  }

  lemma OneByteOff(n: nat, a: Word, m: nat, x: Word, k: nat)
    requires a < 0x100 && x < 0x100 && n == 0x100 * m + a && n == 0x100 * k + x
    ensures a == x && m == k
  {
    QuotientIsUnique(n, 0x100, m, a);
    QuotientIsUnique(n, 0x100, k, x);
  }

  lemma BlockWordIsInjective(s: CodeUnits, t: CodeUnits, i: nat)
    requires i + 4 <= |s| && i + 4 <= |t|
    ensures BlockWord(s, i) == BlockWord(t, i) <==> SameBytes(s, t, i, i + 4)
  {
    FourBytes(s, t, i);
    if BlockWord(s, i) == BlockWord(t, i) {
      BytesAreRecoverable(LowByte(s[i]), LowByte(s[i + 1]), LowByte(s[i + 2]), LowByte(s[i + 3]),
                          LowByte(t[i]), LowByte(t[i + 1]), LowByte(t[i + 2]), LowByte(t[i + 3]));
    }
  }

  lemma FourBytes(s: CodeUnits, t: CodeUnits, i: nat)
    requires i + 4 <= |s| && i + 4 <= |t|
    ensures SameBytes(s, t, i, i + 4) <==>
            && LowByte(s[i]) == LowByte(t[i]) && LowByte(s[i + 1]) == LowByte(t[i + 1])
            && LowByte(s[i + 2]) == LowByte(t[i + 2]) && LowByte(s[i + 3]) == LowByte(t[i + 3])
  {}

  lemma TailWordIsInjective(s: CodeUnits, t: CodeUnits, i: nat)
    requires |s| == |t| && i <= |s| < i + 4
    ensures TailWord(s, i) == TailWord(t, i) <==> SameBytes(s, t, i, |s|)
  {
    if TailWord(s, i) == TailWord(t, i) && |s| > i {
      BytesAreRecoverable(LowByte(s[i]), if |s| > i + 1 then LowByte(s[i + 1]) else 0, if |s| > i + 2 then LowByte(s[i + 2]) else 0, 0,
                          LowByte(t[i]), if |s| > i + 1 then LowByte(t[i + 1]) else 0, if |s| > i + 2 then LowByte(t[i + 2]) else 0, 0);
    }
  }

  /** Neither the tail, nor the length word, nor the finaliser merges two running hashes. */
  lemma EndingIsInjective(s: CodeUnits, t: CodeUnits, seed: Word)
    requires |s| == |t|
    ensures var i := TailStart(s);
            Murmur3(s, seed) == Murmur3(t, seed) ==>
              (TailWord(s, i) == TailWord(t, i) <==> Blocks(s, seed) == Blocks(t, seed))
  {
    var i := TailStart(s);
    var g, h := Blocks(s, seed), Blocks(t, seed);
    var x, y := WithTail(g, s, i), WithTail(h, t, i);
    FinaliseIsInjective(Xor(x, |s| % MODULUS), Xor(y, |s| % MODULUS));
    XorIsInjective(x, y, |s| % MODULUS);
    TailsAreInjective(g, s, h, t, i);
  }

  lemma TailsAreInjective(g: Word, s: CodeUnits, h: Word, t: CodeUnits, i: nat)
    requires |s| == |t| && i <= |s| < i + 4
    ensures WithTail(g, s, i) == WithTail(h, t, i) ==> (TailWord(s, i) == TailWord(t, i) <==> g == h)
  {
    if |s| > i && WithTail(g, s, i) == WithTail(h, t, i) {
      var k, l := TailWord(s, i), TailWord(t, i);
      XorIsInjective(g, h, Scramble(k));
      XorIsInjective(Scramble(k), Scramble(l), g);
      if g == h {
        ScrambleIsInjective(k, l);
      }
    }
  }

  // ---------- main results ----------

  lemma FnvStepNeverMerges()
    ensures NeverMerges(FnvStep)
  {
    forall g, b, h, c | FnvStep(g, b) == FnvStep(h, c)
      ensures (b == c ==> g == h) && (g == h ==> b == c)
    {
      Inverses();
      ImulIsInjective(Xor(g, b), Xor(h, c), FNV_PRIME, 0x359c449b);
      XorIsInjective(g, h, b);
      XorIsInjective(b, c, g);
    }
  }

  lemma MixBlockNeverMerges()
    ensures NeverMerges(MixBlock)
  {
    forall g, k, h, l | MixBlock(g, k) == MixBlock(h, l)
      ensures (k == l ==> g == h) && (g == h ==> k == l)
    {
      MixBlockIsInjective(g, k, h, l);
    }
  }

  /** Inputs of equal length that agree on all low bytes but perhaps the one at `i` collide under
      FNV-1a exactly when they agree there too. */
  lemma FnvSeparatesOneByte(s: CodeUnits, t: CodeUnits, i: nat)
    requires |s| == |t| && i < |s|
    requires SameBytes(s, t, 0, i) && SameBytes(s, t, i + 1, |s|)
    ensures Fnv1a(s) == Fnv1a(t) <==> LowByte(s[i]) == LowByte(t[i])
  {
    FnvStepNeverMerges();
    OneItemDecides(FnvStep, FNV_OFFSET_BASIS, Bytes(s), Bytes(t), i);
  }

  /** Inputs of equal length that agree on all low bytes outside the aligned block `b` collide under
      Murmur3, whatever the seed, exactly when they agree inside it too. */
  lemma Murmur3SeparatesOneBlock(s: CodeUnits, t: CodeUnits, seed: Word, b: nat)
    requires |s| == |t| && 4 * b + 4 <= |s|
    requires SameBytes(s, t, 0, 4 * b) && SameBytes(s, t, 4 * b + 4, |s|)
    ensures Murmur3(s, seed) == Murmur3(t, seed) <==> SameBytes(s, t, 4 * b, 4 * b + 4)
  {
    forall n | 0 <= n < |s| / 4 && n != b
      ensures BlockWords(s)[n] == BlockWords(t)[n]
    {
      BlockWordIsInjective(s, t, 4 * n);
    }
    MixBlockNeverMerges();
    OneItemDecides(MixBlock, seed, BlockWords(s), BlockWords(t), b);
    BlockWordIsInjective(s, t, 4 * b);
    TailWordIsInjective(s, t, TailStart(s));
    SameHashIffSameBlocks(s, t, seed);
  }

  lemma SameHashIffSameBlocks(s: CodeUnits, t: CodeUnits, seed: Word)
    requires |s| == |t| && TailWord(s, TailStart(s)) == TailWord(t, TailStart(t))
    ensures Murmur3(s, seed) == Murmur3(t, seed) <==> Blocks(s, seed) == Blocks(t, seed)
  {
    if Murmur3(s, seed) == Murmur3(t, seed) {
      EndingIsInjective(s, t, seed);
    }
  }

  /** The same when only the one to three bytes after the last whole block may differ. */
  lemma Murmur3SeparatesTails(s: CodeUnits, t: CodeUnits, seed: Word)
    requires |s| == |t| && SameBytes(s, t, 0, TailStart(s))
    ensures Murmur3(s, seed) == Murmur3(t, seed) <==> SameBytes(s, t, TailStart(s), |s|)
  {
    forall n | 0 <= n < |s| / 4
      ensures BlockWords(s)[n] == BlockWords(t)[n]
    {
      BlockWordIsInjective(s, t, 4 * n);
    }
    assert BlockWords(s) == BlockWords(t);
    TailWordIsInjective(s, t, TailStart(s));
    if Murmur3(s, seed) == Murmur3(t, seed) {
      EndingIsInjective(s, t, seed);
    }
  }

  /** The bytes after the last whole block are read like a block filled up with zero bytes. */
  lemma TailIsAPaddedBlock(s: CodeUnits, i: nat)
    requires i <= |s| < i + 4
    ensures TailWord(s, i) == BlockWord(s + [0, 0, 0, 0], i)
  {}

  lemma ScrambleOfZero()
    ensures Scramble(0) == 0
  {}

  lemma XorWithZero(h: Word)
    ensures Xor(h, 0) == h
  {}

  lemma LengthsDiffer(n: nat)
    ensures n % MODULUS != (n + 1) % MODULUS
  {}

  /** A zero byte at the end of the tail adds nothing to the tail's word. */
  lemma TailWithZero(s: CodeUnits, i: nat, h: Word)
    requires i <= |s| < i + 3
    ensures WithTail(h, s + [0], i) == WithTail(h, s, i)
  {
    assert TailWord(s + [0], i) == TailWord(s, i);
    if |s| == i {
      ScrambleOfZero();
      XorWithZero(h);
    }
  }

  /** The length is part of the hash: a zero byte that the blocks and the tail do not notice changes it. */
  lemma Murmur3SeesTheLength(s: CodeUnits, seed: Word)
    requires |s| % 4 <= 2
    ensures Murmur3(s, seed) != Murmur3(s + [0], seed)
  {
    var t := s + [0];
    assert BlockWords(t) == BlockWords(s);
    TailWithZero(s, TailStart(s), Blocks(s, seed));
    var h := WithTail(Blocks(s, seed), s, TailStart(s));
    LengthsDiffer(|s|);
    XorIsInjective(|s| % MODULUS, |t| % MODULUS, h);
    FinaliseIsInjective(Xor(h, |s| % MODULUS), Xor(h, |t| % MODULUS));
  }

  /** Whatever follows them, two inputs collide under FNV-1a exactly when they collide by themselves. */
  lemma FnvCollisionsExtend(s: CodeUnits, t: CodeUnits, u: CodeUnits)
    ensures Fnv1a(s + u) == Fnv1a(t + u) <==> Fnv1a(s) == Fnv1a(t)
  {
    assert Bytes(s + u) == Bytes(s) + Bytes(u) && Bytes(t + u) == Bytes(t) + Bytes(u);
    RunConcat(FnvStep, FNV_OFFSET_BASIS, Bytes(s), Bytes(u));
    RunConcat(FnvStep, FNV_OFFSET_BASIS, Bytes(t), Bytes(u));
    FnvStepNeverMerges();
    SameItemsKeepApart(FnvStep, Fnv1a(s), Fnv1a(t), Bytes(u));
  }

  lemma LaterBlock(s: CodeUnits, u: CodeUnits, i: nat)
    requires i + 4 <= |u|
    ensures BlockWord(s + u, |s| + i) == BlockWord(u, i)
  {}

  lemma EarlierBlock(s: CodeUnits, u: CodeUnits, i: nat)
    requires i + 4 <= |s|
    ensures BlockWord(s + u, i) == BlockWord(s, i)
  {}

  lemma BlockWordsConcat(s: CodeUnits, u: CodeUnits)
    requires |s| % 4 == 0
    ensures BlockWords(s + u) == BlockWords(s) + BlockWords(u)
  {
    var m := |s| / 4;
    assert |BlockWords(s + u)| == m + |u| / 4;
    forall n | 0 <= n < m + |u| / 4
      ensures BlockWords(s + u)[n] == (BlockWords(s) + BlockWords(u))[n]
    {
      if n < m {
        EarlierBlock(s, u, 4 * n);
      } else {
        LaterBlock(s, u, 4 * (n - m));
      }
    }
  }

  lemma LaterTail(s: CodeUnits, u: CodeUnits, i: nat)
    requires i <= |u| < i + 4
    ensures TailWord(s + u, |s| + i) == TailWord(u, i)
  {}

  lemma LaterTailStart(s: CodeUnits, u: CodeUnits)
    requires |s| % 4 == 0
    ensures TailStart(s + u) == |s| + TailStart(u)
  {}

  lemma TailConcat(s: CodeUnits, u: CodeUnits)
    requires |s| % 4 == 0
    ensures TailWord(s + u, TailStart(s + u)) == TailWord(u, TailStart(u))
  {
    LaterTailStart(s, u);
    LaterTail(s, u, TailStart(u));
  }

  lemma BlocksConcat(s: CodeUnits, u: CodeUnits, seed: Word)
    requires |s| % 4 == 0
    ensures Blocks(s + u, seed) == Run(MixBlock, Blocks(s, seed), BlockWords(u))
  {
    BlockWordsConcat(s, u);
    RunConcat(MixBlock, seed, BlockWords(s), BlockWords(u));
  }

  /** Whatever follows them, two inputs of equally many whole blocks collide under Murmur3 exactly when they collide by
      themselves: the blocks are mixed in from the first to the last. */
  lemma Murmur3CollisionsExtend(s: CodeUnits, t: CodeUnits, u: CodeUnits, seed: Word)
    requires |s| == |t| && |s| % 4 == 0
    ensures Murmur3(s + u, seed) == Murmur3(t + u, seed) <==> Murmur3(s, seed) == Murmur3(t, seed)
  {
    BlocksConcat(s, u, seed);
    BlocksConcat(t, u, seed);
    TailConcat(s, u);
    TailConcat(t, u);
    MixBlockNeverMerges();
    SameItemsKeepApart(MixBlock, Blocks(s, seed), Blocks(t, seed), BlockWords(u));
    SameHashIffSameBlocks(s, t, seed);
    SameHashIffSameBlocks(s + u, t + u, seed);
  }
}
