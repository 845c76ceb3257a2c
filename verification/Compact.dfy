/** The compact ("nBits") form of a 256-bit target: `SetCompact` and `GetCompact`
    (libpoolprotocols/stratum/arith_uint256.cpp). */
module Compact {
  import opened Arith
  import opened Bits
  import opened Words
  import opened Limbs
  import opened Uint256

  /** The exponent byte, the 23-bit mantissa and the sign bit of a compact number. */
  function SizeOf(n: word): nat {
    n / 0x100_0000
  }

  function Mantissa(n: word): nat {
    n % 0x80_0000
  }

  predicate SignBit(n: word) {
    n / 0x80_0000 % 2 == 1
  }

  /** The mantissa once bytes below the binary point are dropped. */
  function CompactWord(n: word): nat {
    if SizeOf(n) <= 3 then Shr(Mantissa(n), 8 * (3 - SizeOf(n))) else Mantissa(n)
  }

  /** The number a compact form stands for, however large: mantissa * 256^(size - 3), rounded
      down. */
  function CompactValue(n: word): nat {
    if SizeOf(n) <= 3 then CompactWord(n) else Shl(Mantissa(n), 8 * (SizeOf(n) - 3))
  }

  lemma {:induction false} ShlLarge(x: nat, a: nat, b: nat)
    requires x > 0
    ensures Shl(x, a + b) >= Pow2(b)
  {
    hide Shl, Pow2;
    ShlShl(x, a, b);
    ShlMonotonic(1, x, a);
    Pow2IsShl(a);
    assert Pow2(a) >= 1;
    ShlMonotonic(1, Shl(x, a), b);
    Pow2IsShl(b);
  }

  /** The overflow test of the code is exactly "the value does not fit 256 bits". */
  lemma OverflowExact(w: nat, size: nat)
    requires w < 0x80_0000 && size > 3
    ensures (w != 0 && (size > 34 || (w > 0xff && size > 33) || (w > 0xffff && size > 32)))
       <==> Shl(w, 8 * (size - 3)) >= Pow2(256)
  {
    hide Shl, Pow2;
    ShlZero(8 * (size - 3));
    CompactPowers();
    if w == 0 {
    } else if size > 34 {
      ShlLarge(w, 8 * (size - 3) - 256, 256);
    } else {
      // compare w with 2^(256 - 8(size - 3))
      var k := 8 * (size - 3);
      Pow2Add(256 - k, k);
      if w < Pow2(256 - k) {
        ShlBelow(w, k, 256 - k);
      } else {
        ShlMonotonic(Pow2(256 - k), w, k);
      }
      Pow2Monotonic(24, 256 - k + 16);
      if size <= 32 {
        Pow2Monotonic(24, 256 - k);
      }
    }
  }

  lemma CompactPowers()
    ensures Pow2(8) == 0x100 && Pow2(16) == 0x1_0000 && Pow2(24) == 0x100_0000
  {
    hide Shl, Pow2;
    Shl8(1);
    Pow2IsShl(8);
    Shl8(Pow2(8));
    Pow2Add(8, 8);
    Shl8(Pow2(16));
    Pow2Add(16, 8);
  }

  class ArithUint256 {
    const n: BaseUint

    ghost predicate Valid() {
      n.Valid()
    }

    ghost function Value(): nat
      reads n.pn
    {
      n.Value()
    }

    constructor ()
      ensures Valid() && fresh(n) && fresh(n.pn) && Value() == 0
    {
      n := new BaseUint(0);
    }

    /** `*this = w`. */
    method Assign(w: word)
      requires Valid()
      modifies n.pn
      ensures Value() == w
    {
      n.Clear();
      n.pn[0] := w;
      TwoLimbs(n.pn[..]);
    }

    /** `SetCompact`. */
    method SetCompact(nCompact: word) returns (negative: bool, overflow: bool)
      requires Valid()
      modifies n.pn
      ensures Value() == CompactValue(nCompact) % Pow2(256)
      ensures overflow <==> CompactValue(nCompact) >= Pow2(256)
      ensures negative <==> CompactWord(nCompact) != 0 && SignBit(nCompact)
    {
      hide Shl, Shr, Pow2, Val;
      var size := SizeOf(nCompact);
      var w: word := Mantissa(nCompact);
      if size <= 3 {
        w := Shr32(w, 8 * (3 - size));
        SmallFits(w);
        Assign(w);
      } else {
        Assign(w);
        n.ShiftLeft(8 * (size - 3));
        OverflowExact(w, size);
      }
      negative := w != 0 && SignBit(nCompact);
      overflow := w != 0 && (size > 34 || (w > 0xff && size > 33) || (w > 0xffff && size > 32));
    }

    /** `GetLow64`. */
    method GetLow64() returns (r: nat)
      requires Valid()
      ensures r == Value() % M64
    {
      hide Shl, Val, Pow2;
      ghost var p := n.pn[..];
      Low64(p);
      r := BitOr(n.pn[0], Shl(n.pn[1], 32));
    }

    /** The three most significant bytes, as `GetCompact` reads them off. */
    method GetTopBytes(size: nat) returns (c: nat)
      requires Valid() && size == ByteSize(Value())
      ensures c == TopBytes(Value()) < 0x100_0000
    {
      hide Shl, Shr, Pow2, Val, BitLength;
      n.ValueBelow();
      ghost var x := Value();
      TopBytesBounds(x);
      if size <= 3 {
        var low := GetLow64();
        LowIsAll(x);
        c := Shl(low, 8 * (3 - size)) % M32;
      } else {
        var bn := new ArithUint256.CopyOf(this);
        bn.n.ShiftRight(8 * (size - 3));
        LowIsAll(Shr(x, 8 * (size - 3)));
        var low := bn.GetLow64();
        c := low % M32;
      }
    }

    /** `GetCompact`. The two assertions of the code are proved, not checked. */
    method GetCompact(fNegative: bool) returns (nCompact: word)
      requires Valid()
      ensures Value() < Pow2(256) && nCompact == Encode(Value(), fNegative)
    {
      hide Shl, Shr, Pow2, Val, BitLength, BitOr, TopBytes;
      n.ValueBelow();
      TopBytesBounds(Value());
      var bits := n.NumBits();
      var size := (bits + 7) / 8;
      var c := GetTopBytes(size);
      if c / 0x80_0000 % 2 == 1 {
        c := c / 256;
        size := size + 1;
      }
      assert c < 0x80_0000 && size < 256;
      PackBits(c, size);
      c := BitOr(c, Shl(size, 24));
      nCompact := if fNegative && c % 0x80_0000 != 0 then BitOr(c, 0x80_0000) else c;
    }

    constructor CopyOf(x: ArithUint256)
      requires x.Valid()
      ensures Valid() && fresh(n) && fresh(n.pn) && n.pn[..] == x.n.pn[..]
    {
      n := new BaseUint.CopyOf(x.n);
    }
  }

  // ----- encoding -----

  /** How many bytes `x` takes. */
  function ByteSize(x: nat): nat {
    (BitLength(x) + 7) / 8
  }

  /** The three most significant bytes of `x`, filled up with zero bytes below. */
  function TopBytes(x: nat): nat {
    if ByteSize(x) <= 3 then Shl(x, 8 * (3 - ByteSize(x))) else Shr(x, 8 * (ByteSize(x) - 3))
  }

  /** The mantissa and size of the encoding: a mantissa whose top bit would read as a sign gives
      up its lowest byte. */
  function EncodedMantissa(x: nat): nat {
    if TopBytes(x) >= 0x80_0000 then TopBytes(x) / 256 else TopBytes(x)
  }

  function EncodedSize(x: nat): nat {
    if TopBytes(x) >= 0x80_0000 then ByteSize(x) + 1 else ByteSize(x)
  }

  function Encode(x: nat, negative: bool): word
    requires x < Pow2(256)
  {
    TopBytesBounds(x);
    EncodedMantissa(x) + EncodedSize(x) * 0x100_0000
    + if negative && EncodedMantissa(x) != 0 then 0x80_0000 else 0
  }

  lemma ShrBelow(x: nat, k: nat, n: nat)
    requires x < Pow2(n + k)
    ensures Shr(x, k) < Pow2(n)
  {
    hide Shl, Shr, Pow2;
    var l := Split(x, k);
    if Shr(x, k) >= Pow2(n) {
      ShlMonotonic(Pow2(n), Shr(x, k), k);
      Pow2Add(n, k);
      assert false;
    }
  }

  lemma TopBytesBounds(x: nat)
    requires x < Pow2(256)
    ensures BitLength(x) <= 256 && ByteSize(x) <= 32
    ensures TopBytes(x) < 0x100_0000
  {
    hide Shl, Shr, Pow2, BitLength;
    CompactPowers();
    BitLengthBounds(x);
    if BitLength(x) > 256 {
      Pow2Monotonic(256, BitLength(x) - 1);
      assert false;
    }
    var size := ByteSize(x);
    Pow2Monotonic(BitLength(x), 8 * size);
    if size <= 3 {
      ShlBelow(x, 8 * (3 - size), 8 * size);
    } else {
      ShrBelow(x, 8 * (size - 3), 24);
    }
  }

  lemma LowIsAll(x: nat)
    ensures x < 0x100_0000 ==> x % M64 == x && x % M32 == x
    ensures BitLength(x) <= 24 ==> x < 0x100_0000
  {
    hide Pow2, BitLength;
    CompactPowers();
    BitLengthBounds(x);
    if BitLength(x) <= 24 {
      Pow2Monotonic(BitLength(x), 24);
    }
  }

  lemma {:induction false} OrSplits(h: nat, l: nat, h': nat, l': nat, k: nat)
    requires l < Pow2(k) && l' < Pow2(k)
    ensures BitOr(Shl(h, k) + l, Shl(h', k) + l') == Shl(BitOr(h, h'), k) + BitOr(l, l')
    decreases k
  {
    if k == 0 {
      assert BitOr(0, 0) == 0;
    } else {
      OrSplits(h, l / 2, h', l' / 2, k - 1);
    }
  }

  lemma Shl24(x: nat)
    ensures Shl(x, 24) == 0x100_0000 * x && Shl(x, 23) == 0x80_0000 * x && Pow2(23) == 0x80_0000
  {
    hide Shl, Pow2;
    Shl8(x);
    Shl8(Shl(x, 8));
    ShlShl(x, 8, 8);
    Shl8(Shl(x, 16));
    ShlShl(x, 16, 8);
    HalfDivisor(x, 23);
    CompactPowers();
    Pow2Double(23);
  }

  /** Size, sign and mantissa share no bit. */
  lemma PackBits(m: nat, size: nat)
    requires m < 0x80_0000
    ensures BitOr(m, Shl(size, 24)) == m + 0x100_0000 * size
    ensures BitOr(m + 0x100_0000 * size, 0x80_0000) == m + 0x100_0000 * size + 0x80_0000
  {
    hide Shl, Pow2, BitOr;
    CompactPowers();
    Shl24(size);
    OrDisjoint(size, m, 24);
    Shl24(2 * size);
    Shl24(1);
    OrSplits(2 * size, m, 1, 0, 23);
    OrOdd(size);
    Shl24(2 * size + 1);
    OrZero(m);
  }

  lemma OrOdd(a: nat)
    ensures BitOr(2 * a, 1) == 2 * a + 1
  {
    OrZero(a);
  }

  lemma SmallFits(w: word)
    ensures w % Pow2(256) == w < Pow2(256)
  {
    hide Pow2;
    Pow2Values();
    Pow2Monotonic(32, 256);
    DivModIs(w, 0, w, Pow2(256));
  }

  lemma Low64(p: seq<word>)
    requires |p| == WIDTH
    ensures BitOr(p[0], Shl(p[1], 32)) == Val(p) % M64
  {
    hide Shl, Val, Pow2, BitOr;
    Pow2Values();
    OrDisjoint(p[1], p[0], 32);
    Shl32Value(p[1]);
    ValUncons(p);
    ValUncons(p[1..]);
    var rest := Val(p[1..][1..]);
    DivModIs(Val(p), rest, p[0] + M32 * p[1], M64);
  }

  // ----- decoding what was encoded -----

  lemma EncodedParts(x: nat, negative: bool)
    requires x < Pow2(256)
    ensures EncodedMantissa(x) < 0x80_0000
    ensures SizeOf(Encode(x, negative)) == EncodedSize(x)
    ensures Mantissa(Encode(x, negative)) == EncodedMantissa(x)
    ensures SignBit(Encode(x, negative)) <==> negative && EncodedMantissa(x) != 0
  {
    hide Shl, Shr, Pow2, BitLength;
    TopBytesBounds(x);
    var m, size := EncodedMantissa(x), EncodedSize(x);
    var sign := if negative && m != 0 then 1 else 0;
    var n := Encode(x, negative);
    assert n == size * 0x100_0000 + (sign * 0x80_0000 + m) == (2 * size + sign) * 0x80_0000 + m;
    DivModIs(n, size, sign * 0x80_0000 + m, 0x100_0000);
    DivModIs(n, 2 * size + sign, m, 0x80_0000);
  }

  /** How many low bits the encoding gives up: the bytes below the mantissa. */
  function ClearedBits(x: nat): nat {
    if EncodedSize(x) > 3 then 8 * (EncodedSize(x) - 3) else 0
  }

  /** `x` with its lowest `k` bits cleared. */
  function Cleared(x: nat, k: nat): nat {
    Shl(Shr(x, k), k)
  }

  lemma ClearedNone(x: nat)
    ensures Cleared(x, 0) == x
  {
  }

  /** `x` moved up by `k` bits and back. */
  lemma ThereAndBack(x: nat, k: nat)
    ensures Shr(Shl(x, k), k) == x
  {
    hide Shl, Shr;
    assert Pow2(k) > 0;
    ShrOfSum(x, 0, k);
  }

  lemma Shr8(x: nat)
    ensures Shr(x, 8) == x / 256
  {
    hide Shl, Shr, Pow2;
    CompactPowers();
    var l := Split(x, 8);
    Shl8(Shr(x, 8));
    DivModIs(x, Shr(x, 8), l, 256);
  }

  /** For every x: decoding its encoding gives x with the bytes below the mantissa cleared. */
  lemma DecodeOfEncode(x: nat, negative: bool)
    requires x < Pow2(256)
    ensures CompactValue(Encode(x, negative)) == Cleared(x, ClearedBits(x))
  {
    hide Shl, Shr, Pow2, BitLength, Cleared;
    EncodedParts(x, negative);
    TopBytesBounds(x);
    var size, c := ByteSize(x), TopBytes(x);
    Shr8(c);
    if size <= 2 {
      ClearedNone(x);
      if c < 0x80_0000 {
        ThereAndBack(x, 8 * (3 - size));
      } else {
        // one byte less of padding
        ShlShl(x, 8 * (2 - size), 8);
        ThereAndBack(Shl(x, 8 * (2 - size)), 8);
        ThereAndBack(x, 8 * (2 - size));
      }
    } else {
      Padding(x, size);
      ShrShr(x, 8 * (size - 3), 8);
      ClearedDef(x, 8 * (size - 3));
      ClearedDef(x, 8 * (size - 2));
      ClearedNone(x);
    }
  }

  lemma ClearedDef(x: nat, k: nat)
    ensures Cleared(x, k) == Shl(Shr(x, k), k)
  {
  }

  lemma Padding(x: nat, size: nat)
    requires size >= 3 && size == ByteSize(x)
    ensures TopBytes(x) == Shr(x, 8 * (size - 3))
    ensures Shr(x, 0) == x && forall y: nat :: Shr(y, 0) == y
  {
  }

  /** Clearing low bits never increases a number, loses less than 2^k, and keeps its length
      unless it clears everything. */
  lemma ClearedFacts(x: nat, k: nat)
    ensures Cleared(x, k) <= x < Cleared(x, k) + Pow2(k)
    ensures Shr(x, k) > 0 ==> BitLength(Cleared(x, k)) == BitLength(x)
    ensures Shr(Cleared(x, k), k) == Shr(x, k)
  {
    hide Shl, Shr, Pow2, BitLength;
    var l := Split(x, k);
    ThereAndBack(Shr(x, k), k);
    if Shr(x, k) > 0 {
      BitLengthOfSum(Shr(x, k), l, k);
      assert Pow2(k) > 0;
      BitLengthOfSum(Shr(x, k), 0, k);
    }
  }

  lemma MantissaSurvives(x: nat)
    requires 0 < x < Pow2(256)
    ensures Shr(x, ClearedBits(x)) > 0
  {
    hide Shl, Shr, Pow2;
    TopBytesBounds(x);
    BitLengthBounds(x);
    var k := ClearedBits(x);
    Pow2Monotonic(k, BitLength(x) - 1);
    var l := Split(x, k);
    if Shr(x, k) == 0 {
      ShlZero(k);
      assert false;
    }
  }

  /** Two numbers of the same length that agree from the cleared bits up encode alike. */
  lemma EncodesAlike(x: nat, v: nat)
    requires x < Pow2(256) && v < Pow2(256)
    requires BitLength(v) == BitLength(x) && Shr(v, ClearedBits(x)) == Shr(x, ClearedBits(x))
    ensures EncodedMantissa(v) == EncodedMantissa(x) && EncodedSize(v) == EncodedSize(x)
  {
    hide Shl, Shr, Pow2, BitLength;
    var size := ByteSize(x);
    Padding0();
    if size >= 3 {
      Padding(x, size);
      Padding(v, size);
      Shr8(TopBytes(x));
      Shr8(TopBytes(v));
      ShrShr(x, 8 * (size - 3), 8);
      ShrShr(v, 8 * (size - 3), 8);
      TopByteDecides(TopBytes(x), TopBytes(v));
    }
  }

  lemma Padding0()
    ensures forall y: nat :: Shr(y, 0) == y
  {
  }

  lemma TopByteDecides(c: nat, d: nat)
    requires c / 256 == d / 256
    ensures c >= 0x80_0000 <==> d >= 0x80_0000
  {
  }

  /** For every 256-bit x and sign: decoding the encoding clears the bytes below the mantissa,
      never exceeds x, keeps its bit length and raises no overflow; and encoding the result again
      changes nothing. */
  lemma CompactRoundTrip(x: nat, negative: bool)
    requires x < Pow2(256)
    ensures var n := Encode(x, negative);
            var v := CompactValue(n);
            && v == Cleared(x, ClearedBits(x)) <= x < v + Pow2(ClearedBits(x))
            && BitLength(v) == BitLength(x)
            && v < Pow2(256) && Encode(v, negative) == n
            && (SignBit(n) <==> negative && Mantissa(n) != 0)
  {
    hide Shl, Shr, Pow2, BitLength, Cleared, ClearedBits;
    EncodedParts(x, negative);
    DecodeOfEncode(x, negative);
    var v, k := CompactValue(Encode(x, negative)), ClearedBits(x);
    ClearedFacts(x, k);
    if x == 0 {
      ClearedFacts(0, k);
    } else {
      MantissaSurvives(x);
    }
    EncodesAlike(x, v);
    EncodedParts(v, negative);
  }

  // ----- encoding what was decoded -----

  /** The compact forms that `GetCompact` produces: unsigned, without overflow, with a full
      mantissa and no bits lost below the binary point. */
  ghost predicate Canonical(n: word) {
    && !SignBit(n) && CompactValue(n) < Pow2(256)
    && (n == 0 || (Mantissa(n) >= 0x8000
                   && (SizeOf(n) < 3 ==> Shl(CompactValue(n), 8 * (3 - SizeOf(n))) == Mantissa(n))))
  }

  lemma ShlDiff(m: nat, a: nat, b: nat)
    requires b <= a
    ensures Shr(Shl(m, a), b) == Shl(m, a - b)
  {
    hide Shl, Shr;
    ShlShl(m, a - b, b);
    ThereAndBack(Shl(m, a - b), b);
  }

  lemma MantissaLength(m: nat)
    requires 0x8000 <= m < 0x80_0000
    ensures BitLength(m) == 16 ==> m < 0x1_0000
    ensures BitLength(m) > 16 ==> m >= 0x1_0000
    ensures 16 <= BitLength(m) <= 23
  {
    hide Pow2, BitLength;
    BitLengthBounds(m);
    CompactPowers();
    Shl24(1);
    Pow2Double(15);
    var b := BitLength(m);
    if b < 16 {
      Pow2Monotonic(b, 15);
      assert false;
    }
    if b > 23 {
      Pow2Monotonic(23, b - 1);
      assert false;
    }
    if b > 16 {
      Pow2Monotonic(16, b - 1);
    }
  }

  /** The top bytes of a canonical number are its mantissa, or the mantissa followed by a zero
      byte when its own top byte is empty. */
  lemma CanonicalTop(n: word)
    requires Canonical(n) && n != 0
    ensures var m, b := Mantissa(n), BitLength(Mantissa(n));
            && b + 8 * SizeOf(n) >= 25
            && BitLength(CompactValue(n)) == b + 8 * SizeOf(n) - 24
            && TopBytes(CompactValue(n)) == if b > 16 then m else Shl(m, 8)
  {
    hide Shl, Shr, Pow2, BitLength;
    var m, s, v := Mantissa(n), SizeOf(n), CompactValue(n);
    MantissaLength(m);
    assert Pow2(0) == 1 by { PowZero(); }
    if s >= 3 {
      assert Pow2(8 * (s - 3)) > 0;
      Padding0();
      ShiftByNone(m);
      BitLengthOfSum(m, 0, 8 * (s - 3));
      if BitLength(m) > 16 {
        ShlDiff(m, 8 * (s - 3), 8 * (s - 3));
        ShiftByNone(v);
      } else if s >= 5 {
        ShlDiff(m, 8 * (s - 3), 8 * (s - 4));
      } else {
        ShiftByNone(v);
      }
    } else {
      if v == 0 {
        ShlZero(8 * (3 - s));
        assert false;
      }
      assert Pow2(8 * (3 - s)) > 0;
      BitLengthOfSum(v, 0, 8 * (3 - s));
      ShlShl(v, 8 * (3 - s), 8);
      BitLengthBounds(v);
    }
  }

  lemma PowZero()
    ensures Pow2(0) == 1
  {
  }

  lemma TopBytesFull(x: nat)
    requires 0 < x < Pow2(256)
    ensures TopBytes(x) >= 0x1_0000
  {
    hide Shl, Shr, Pow2, BitLength;
    TopBytesBounds(x);
    BitLengthBounds(x);
    CompactPowers();
    var b, size := BitLength(x), ByteSize(x);
    Pow2Monotonic(8 * (size - 1), b - 1);
    if size <= 3 {
      ShlMonotonic(Pow2(8 * (size - 1)), x, 8 * (3 - size));
      Pow2Add(8 * (size - 1), 8 * (3 - size));
    } else {
      var k := 8 * (size - 3);
      var l := Split(x, k);
      if Shr(x, k) < 0x1_0000 {
        ShlBelow(Shr(x, k), k, 16);
        assert false;
      }
    }
  }

  lemma EncodeOfZero()
    ensures Encode(0, false) == 0
  {
    hide Shl, Pow2;
    ShlZero(24);
    assert Pow2(256) > 0;
  }

  lemma EncodeIsCanonical(x: nat)
    requires x < Pow2(256)
    ensures Canonical(Encode(x, false))
  {
    hide Shl, Shr, Pow2, BitLength, Cleared;
    CompactRoundTrip(x, false);
    EncodedParts(x, false);
    if x == 0 {
      EncodeOfZero();
    } else {
      TopBytesFull(x);
      TopBytesBounds(x);
      if EncodedSize(x) < 3 {
        ClearedNone(x);
        var size := ByteSize(x);
        ShlShl(x, 8 * (2 - size), 8);
        Shl8(Shl(x, 8 * (2 - size)));
      }
    }
  }

  /** For every compact form whose value fits 256 bits, encoding its value gives it back exactly
      when it is canonical. */
  lemma EncodeOfDecode(n: word)
    requires CompactValue(n) < Pow2(256)
    ensures Encode(CompactValue(n), false) == n <==> Canonical(n)
  {
    hide Shl, Shr, Pow2, BitLength, Canonical;
    EncodeIsCanonical(CompactValue(n));
    if Canonical(n) {
      CanonicalEncodes(n);
    }
  }

  lemma CanonicalEncodes(n: word)
    requires Canonical(n)
    ensures Encode(CompactValue(n), false) == n
  {
    hide Shl, Shr, Pow2, BitLength, TopBytes;
    PartsOfCompact(n);
    if n == 0 {
      ShrZero(24);
      EncodeOfZero();
    } else {
      var m := Mantissa(n);
      CanonicalTop(n);
      MantissaLength(m);
      Shl8(m);
      if BitLength(m) == 16 {
        DivModIs(256 * m, m, 0, 256);
      }
    }
  }

  lemma PartsOfCompact(n: word)
    ensures n == Mantissa(n) + (if SignBit(n) then 0x80_0000 else 0) + SizeOf(n) * 0x100_0000
  {
    DivMod(n, 0x100_0000);
    var r := n % 0x100_0000;
    DivMod(r, 0x80_0000);
    DivModIs(n, 2 * (n / 0x100_0000) + r / 0x80_0000, r % 0x80_0000, 0x80_0000);
  }
}
