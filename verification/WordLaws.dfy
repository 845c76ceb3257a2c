/** What the shared word primitives compute (libcrypto/bitwise.hpp, libcrypto/kiss99.hpp), bit by bit, as
    equations on numbers, or by what can be read back from their results. */
module WordLaws {
  import opened Arith
  import opened Bits
  import opened Words
  import opened Kiss
  import opened MixRngs
  import opened Programs
  import opened Rounds
  import opened HashMixes

  // ----- arithmetic -----

  /** A sum loses at most one 2^32. */
  lemma AddLaw(a: word, b: word)
    ensures Add32(a, b) == if a + b < 0x1_0000_0000 then a + b else a + b - 0x1_0000_0000
  {
  }

  /** The two halves make up the product. */
  lemma MulLaw(a: word, b: word)
    ensures 0x1_0000_0000 * MulHi32(a, b) + Mul32(a, b) == a * b
  {
    DivMod(a * b, M32);
  }

  lemma MinLaw(a: word, b: word)
    ensures Min32(a, b) <= a && Min32(a, b) <= b && (Min32(a, b) == a || Min32(a, b) == b)
  {
  }

  // ----- bits -----

  lemma BitwiseLaws(a: word, b: word, z: nat)
    ensures BitAt(And32(a, b), z) <==> BitAt(a, z) && BitAt(b, z)
    ensures BitAt(Or32(a, b), z) <==> BitAt(a, z) || BitAt(b, z)
    ensures BitAt(Xor32(a, b), z) <==> BitAt(a, z) != BitAt(b, z)
  {
    BitsOf(a, b, z);
  }

  lemma WordBits(x: word, z: nat)
    ensures z >= 32 ==> !BitAt(x, z)
  {
    Pow2Values();
    if z >= 32 {
      NoBitsFrom(x, 32, z);
    }
  }

  lemma ShlLaw(x: word, k: nat, z: nat)
    ensures BitAt(Shl32(x, k), z) <==> k <= z < 32 && BitAt(x, z - k)
  {
    hide BitAt;
    WordBits(Shl32(x, k), z);
    if z < 32 {
      LowBits(Shl(x, k), z);
      BitsShifted(x, k, z);
    }
  }

  /** The low 32 bits of a number. */
  lemma LowBits(n: nat, z: nat)
    requires z < 32
    ensures BitAt(n % M32, z) <==> BitAt(n, z)
  {
    hide BitAt;
    Shl32Value(n / M32);
    BitsBelow(n / M32, n % M32, 32, z);
  }

  lemma ShrLaw(x: word, k: nat, z: nat)
    ensures BitAt(Shr32(x, k), z) <==> BitAt(x, z + k)
  {
    ShrShr(x, k, z);
  }

  /** Rotating left moves bit `z` to `z + s`, round the end. */
  lemma RotlLaw(x: word, s: word, z: nat)
    requires z < 32
    ensures BitAt(Rotl32(x, s), z) <==> BitAt(x, (z + (32 - s % 32)) % 32)
  {
    hide BitAt, Shl32, Shr32, Or32;
    var k := s % 32;
    BitwiseLaws(Shl32(x, k), Shr32(x, (32 - k) % 32), z);
    ShlLaw(x, k, z);
    ShrLaw(x, (32 - k) % 32, z);
    WordBits(x, z + (32 - k) % 32);
  }

  /** The leading zeros: the highest one bit is bit 31 - r. */
  lemma ClzLaw(v: word)
    ensures v == 0 ==> Clz32(v) == 32
    ensures v > 0 ==> Clz32(v) < 32 && Pow2(31 - Clz32(v)) <= v < Pow2(32 - Clz32(v))
  {
    LengthBounds(v);
  }

  lemma {:induction false} LengthBounds(v: nat)
    ensures v > 0 ==> BitLength(v) > 0 && Pow2(BitLength(v) - 1) <= v
    ensures v < Pow2(BitLength(v))
  {
    if v > 1 {
      LengthBounds(v / 2);
    }
  }

  /** How many of the first `n` bits are set. */
  function CountBits(v: nat, n: nat): nat {
    if n == 0 then 0 else CountBits(v, n - 1) + if BitAt(v, n - 1) then 1 else 0
  }

  lemma PopcntLaw(v: word)
    ensures Popcnt32(v) == CountBits(v, 32)
  {
    Pow2Values();
    OnesAreBits(v, 32);
  }

  lemma {:induction false} OnesAreBits(v: nat, n: nat)
    requires v < Pow2(n)
    ensures Ones(v) == CountBits(v, n)
    decreases n
  {
    if n > 0 {
      OnesAreBits(v / 2, n - 1);
      CountHalf(v, n);
    } else {
      assert Ones(0) == 0;
    }
  }

  lemma {:induction false} CountHalf(v: nat, n: nat)
    requires n > 0
    ensures CountBits(v, n) == v % 2 + CountBits(v / 2, n - 1)
  {
    if n > 1 {
      CountHalf(v, n - 1);
    }
  }

  // ----- FNV -----

  /** The inverse of the FNV prime modulo 2^32. */
  const INVERSE_PRIME: word := 0x359C449B

  lemma PrimeCancels(y: word)
    ensures Mul32(Mul32(y, 0x01000193), 0x359C449B) == y
  {
    var q := (0x01000193 * y) / M32;
    assert 0x01000193 * 0x359C449B == 0x359C99 * M32 + 1;
    DivModIs(((0x01000193 * y) % M32) * 0x359C449B, 0x359C99 * y - q * 0x359C449B, y, M32);
  }

  /** The data of an FNV-1a step can be read back from the hashes before and after it. */
  function Unfnv1a(u: word, h: word): word {
    Xor32(Mul32(h, INVERSE_PRIME), u)
  }

  lemma Fnv1aLaw(u: word, v: word)
    ensures Unfnv1a(u, Fnv1a(u, v)) == v
  {
    hide Mul32;
    PrimeCancels(Xor32(u, v));
    XorCommutes(u, v);
    XorCancels(v, u);
  }

  /** An FNV-1 step is the product with the prime, the data in front. */
  lemma Fnv1Law(u: word, v: word)
    ensures Xor32(Fnv1(u, v), v) == (0x01000193 * u) % 0x1_0000_0000
  {
    XorCancels(Mul32(u, FNV_PRIME), v);
  }

  /** The published hashes of the letter "a" under FNV-1 and FNV-1a. */
  lemma {:induction false} FnvVectors()
    ensures Fnv1(FNV_OFFSET_BASIS, 0x61) == 0x050C5D7E && Fnv1a(FNV_OFFSET_BASIS, 0x61) == 0xE40C292C
  {
    hide BitXor;
    LetterOnBasis(0x0102_393B);
    LetterOnProduct(0x000A_18BA);
  }

  /** The letter meets the low seven bits of the offset basis. */
  lemma {:induction false} LetterOnBasis(h: nat)
    ensures BitXor(128 * h + 0x45, 0x61) == 128 * h + 0x24
  {
    hide BitXor;
    XorZero(h);
    XorPair(h, 0, 1, 1);
    XorPair(2 * h + 1, 1, 0, 1);
    XorPair(4 * h + 2, 3, 0, 0);
    XorPair(8 * h + 4, 6, 0, 0);
    XorPair(16 * h + 8, 12, 1, 0);
    XorPair(32 * h + 17, 24, 0, 0);
    XorPair(64 * h + 34, 48, 1, 1);
  }

  /** And those of its product with the prime. */
  lemma {:induction false} LetterOnProduct(h: nat)
    ensures BitXor(128 * h + 0x1f, 0x61) == 128 * h + 0x7e
  {
    hide BitXor;
    XorZero(h);
    XorPair(h, 0, 0, 1);
    XorPair(2 * h + 0, 1, 0, 1);
    XorPair(4 * h + 0, 3, 1, 0);
    XorPair(8 * h + 1, 6, 1, 0);
    XorPair(16 * h + 3, 12, 1, 0);
    XorPair(32 * h + 7, 24, 1, 0);
    XorPair(64 * h + 15, 48, 1, 1);
  }

  /** One bit more at the bottom. */
  lemma {:induction false} XorPair(x: nat, y: nat, a: nat, b: nat)
    requires a < 2 && b < 2
    ensures BitXor(2 * x + a, 2 * y + b) == 2 * BitXor(x, y) + (if a == b then 0 else 1)
  {
    hide BitXor;
    LowestOfXor(2 * x + a, 2 * y + b);
    assert (2 * x + a) / 2 == x && (2 * y + b) / 2 == y;
  }

  // ----- KISS99 -----

  /** Both multiply-with-carry generators divide by 2^16 modulo their own modulus. */
  lemma MwcLaw(k: KissState)
    ensures 0x1_0000 * Step(k).z == k.z + (k.z % 0x1_0000) * (0x1_0000 * 36969 - 1)
    ensures 0x1_0000 * Step(k).w == k.w + (k.w % 0x1_0000) * (0x1_0000 * 18000 - 1)
  {
    hide Xorshift, Lcg;
  }

  /** The congruential generator: its value at 0 and its difference. */
  lemma LcgLaw(x: word)
    ensures Lcg(0) == 1234567 && (x > 0 ==> (Lcg(x) - Lcg(x - 1)) % 0x1_0000_0000 == 69069)
  {
    if x > 0 {
      var a, b := 69069 * (x - 1) + 1234567, 69069 * x + 1234567;
      DivModIs(b % M32 - a % M32, a / M32 - b / M32, 69069, M32);
    }
  }

  /** The shift register, bit by bit: left by 17, right by 13, left by 5. */
  lemma XorshiftLaw(x: word) returns (a: word, b: word)
    ensures forall z :: 0 <= z < 32 ==>
      && (BitAt(a, z) <==> BitAt(x, z) != (z >= 17 && BitAt(x, z - 17)))
      && (BitAt(b, z) <==> BitAt(a, z) != (z + 13 < 32 && BitAt(a, z + 13)))
      && (BitAt(Xorshift(x), z) <==> BitAt(b, z) != (z >= 5 && BitAt(b, z - 5)))
  {
    hide BitAt, Shl32, Shr32, Xor32;
    a := Xor32(x, Shl32(x, 17));
    b := Xor32(a, Shr32(a, 13));
    forall z | 0 <= z < 32
      ensures BitAt(a, z) <==> BitAt(x, z) != (z >= 17 && BitAt(x, z - 17))
      ensures BitAt(b, z) <==> BitAt(a, z) != (z + 13 < 32 && BitAt(a, z + 13))
      ensures BitAt(Xorshift(x), z) <==> BitAt(b, z) != (z >= 5 && BitAt(b, z - 5))
    {
      BitwiseLaws(x, Shl32(x, 17), z);
      ShlLaw(x, 17, z);
      BitwiseLaws(a, Shr32(a, 13), z);
      ShrLaw(a, 13, z);
      WordBits(a, z + 13);
      BitwiseLaws(b, Shl32(b, 5), z);
      ShlLaw(b, 5, z);
    }
  }

  /** The output gives the two multiply-with-carry numbers back. */
  lemma OutputLaw(k: KissState)
    ensures Xor32((Output(k) - k.jsr) % 0x1_0000_0000, k.jcong) == (0x1_0000 * k.z + k.w) % 0x1_0000_0000
  {
    hide Xor32;
    ShlSixteen(k.z);
    var mwc := Add32(Shl32(k.z, 16), k.w);
    AddSubCancels(Xor32(mwc, k.jcong), k.jsr);
    XorWordCancels(mwc, k.jcong);
  }

  lemma ShlSixteen(x: nat)
    ensures Shl(x, 16) == 0x1_0000 * x
  {
    hide Shl;
    Shl8(x);
    Shl8(Shl(x, 8));
    ShlShl(x, 8, 8);
  }

  // ----- seeding and shuffling -----

  /** Both halves of the seed can be read back from a fresh generator, twice. */
  lemma SeedReadBack(lo: word, hi: word)
    ensures
      var k := SeedKiss(lo, hi);
      && Unfnv1a(0x811C9DC5, k.z) == lo && Unfnv1a(k.z, k.w) == hi
      && Unfnv1a(k.w, k.jsr) == lo && Unfnv1a(k.jsr, k.jcong) == hi
  {
    hide Fnv1a, Unfnv1a;
    Fnv1aLaw(FNV_OFFSET_BASIS, lo);
    Fnv1aLaw(SeedKiss(lo, hi).z, hi);
    Fnv1aLaw(SeedKiss(lo, hi).w, lo);
    Fnv1aLaw(SeedKiss(lo, hi).jsr, hi);
  }

  /** Positions from `i` on are final. */
  lemma {:induction false} ShuffleKeeps(i: nat, s: RngState, p: nat)
    requires i <= REGS && |s.dst| == |s.src| == REGS && i <= p < REGS
    ensures ShuffleFrom(i, s).dst[p] == s.dst[p] && ShuffleFrom(i, s).src[p] == s.src[p]
  {
    hide Step, Output;
    if i > 1 {
      ShuffleKeeps(i - 1, ShuffleStep(i, s), p);
    }
  }

  /** Fisher-Yates: position `i - 1` ends up with the entry that the draw modulo `i` picks, the
      destination with the first of two draws, the source with the second. */
  lemma ShufflePicks(i: nat, s: RngState)
    requires 1 < i <= REGS && |s.dst| == |s.src| == REGS
    ensures ShuffleFrom(i, s).dst[i - 1] == s.dst[Output(Step(s.kiss)) % i]
    ensures ShuffleFrom(i, s).src[i - 1] == s.src[Output(Step(Step(s.kiss))) % i]
  {
    hide Step, Output;
    ShuffleKeeps(i - 1, ShuffleStep(i, s), i - 1);
  }

  // ----- seeds and digests of the mix hash -----

  /** Seed and lane can be read back from the generator of a lane. */
  lemma LaneSeedReadBack(lo: word, hi: word, l: laneIndex)
    ensures
      var k := LaneSeed(lo, hi, l);
      && Unfnv1a(0x811C9DC5, k.z) == lo && Unfnv1a(k.z, k.w) == hi
      && Unfnv1a(k.w, k.jsr) == l && Unfnv1a(k.jsr, k.jcong) == l
  {
    hide Fnv1a, Unfnv1a;
    Fnv1aLaw(FNV_OFFSET_BASIS, lo);
    Fnv1aLaw(LaneSeed(lo, hi, l).z, hi);
    Fnv1aLaw(LaneSeed(lo, hi, l).w, l);
    Fnv1aLaw(LaneSeed(lo, hi, l).jsr, l);
  }

  /** A lane's hash takes the registers in order, from the offset basis. */
  lemma LaneHashReadBack(r: Regs, n: nat)
    requires n < 32
    ensures FoldRegs(r, 0) == 0x811C9DC5 && Unfnv1a(FoldRegs(r, n), FoldRegs(r, n + 1)) == r[n]
    ensures LaneHash(r) == FoldRegs(r, 32)
  {
    hide Fnv1a, Unfnv1a;
    Fnv1aLaw(FoldRegs(r, n), r[n]);
  }

  /** Word `w` of the digest takes lane `w`, then lane `w + 8`, from the offset basis. */
  lemma DigestReadBack(rows: Rows, w: nat) returns (between: word)
    requires w < 8
    ensures Unfnv1a(0x811C9DC5, between) == LaneHash(rows[w])
    ensures Unfnv1a(between, DigestOf(rows)[w]) == LaneHash(rows[w + 8])
  {
    hide Fnv1a, Unfnv1a, LaneHash;
    between := Fnv1a(FNV_OFFSET_BASIS, LaneHash(rows[w]));
    Fnv1aLaw(FNV_OFFSET_BASIS, LaneHash(rows[w]));
    Fnv1aLaw(between, LaneHash(rows[w + 8]));
  }
}
