/** The second decoder of compact targets, on four big-endian 64-bit words
    (libcrypto/hash_types.hpp, `shiftLeft` and `from_compact`), against `SetCompact`.

    Words are held as `be::uint64` reads them, most significant first; `ByteSwapIsTransparent`
    says why that loses nothing. */
module FromCompact {
  import opened Arith
  import opened Bits
  import opened Words
  import opened Compact

  const M256: nat := 0x1_0000_0000_0000_0000_0000_0000_0000_0000_0000_0000_0000_0000_0000_0000_0000_0000

  /** `bswap64` on the bits of a stored word. */
  function SwapStored(x: bv64): bv64 {
    (x << 56) | ((x & 0xff00) << 40) | ((x & 0xff_0000) << 24) | ((x & 0xff00_0000) << 8)
    | ((x >> 8) & 0xff00_0000) | ((x >> 24) & 0xff_0000) | ((x >> 40) & 0xff00) | (x >> 56)
  }

  /** Storing through `be::uint64` and reading through it again is the identity, also under
      `|=`: the model may hold the words as they are read. */
  lemma ByteSwapIsTransparent(x: bv64, y: bv64)
    ensures SwapStored(SwapStored(x)) == x
    ensures SwapStored(SwapStored(x) | SwapStored(y)) == x | y
  {
  }

  /** The number four words denote. */
  function Value4(s: seq<word64>): nat
    requires |s| == 4
  {
    ((s[0] * M64 + s[1]) * M64 + s[2]) * M64 + s[3]
  }

  lemma Shl64Value(x: nat)
    ensures Shl(x, 64) == 0x1_0000_0000_0000_0000 * x
  {
    hide Shl;
    Shl32Value(x);
    Shl32Value(Shl(x, 32));
    ShlShl(x, 32, 32);
  }

  lemma Pow2Of256()
    ensures Pow2(256) == M256 && Pow2(64) == M64
  {
    hide Pow2, Shl;
    Pow2Values();
    Pow2Add(64, 64);
    Shl64Value(Pow2(64));
    Pow2Add(128, 64);
    Shl64Value(Pow2(128));
    Pow2Add(192, 64);
    Shl64Value(Pow2(192));
  }

  /** `x << b` and `x >> (64 - b)` in 64 bits. */
  function Low(x: word64, b: nat): word64 {
    Shl(x, b) % M64
  }

  function High(x: word64, b: nat): nat
    requires b <= 64
  {
    Shr(x, 64 - b)
  }

  lemma WordShift(x: word64, b: nat, c: nat)
    requires b <= 64 && c < Pow2(b)
    ensures Shl(x, b) == Low(x, b) + M64 * High(x, b)
    ensures High(x, b) < Pow2(b)
    ensures Low(x, b) + c < M64
    ensures BitOr(c, Low(x, b)) == Low(x, b) + c
  {
    hide Shl, Shr, Pow2, BitOr;
    Pow2Of256();
    var lo := Split(x, 64 - b);
    var hi := Shr(x, 64 - b);
    if hi >= Pow2(b) {
      ShlMonotonic(Pow2(b), hi, 64 - b);
      Pow2Add(b, 64 - b);
      assert false;
    }
    ShlAdds(Shl(hi, 64 - b), lo, b);
    ShlShl(hi, 64 - b, b);
    Shl64Value(hi);
    ShlBelow(lo, b, 64 - b);
    DivModIs(Shl(x, b), hi, Shl(lo, b), M64);
    OrDisjoint(lo, c, b);
  }

  /** Word `k` of the shifted number: the low part of the word `j` places down plus what the next
      one carries up. */
  function ShiftedWord(t: seq<word64>, j: nat, b: nat, k: nat): nat
    requires |t| == 4 && b < 64
  {
    (if k + j <= 3 then Low(t[k + j], b) else 0) + (if k + j + 1 <= 3 then High(t[k + j + 1], b) else 0)
  }

  /** Four words moved `j` places up, zeros below. */
  function Moved(s: seq<word64>, j: nat): (r: seq<word64>)
    requires |s| == 4
    ensures |r| == 4
    decreases j
  {
    if j == 0 then s else Moved([s[1], s[2], s[3], 0], j - 1)
  }

  lemma {:induction false} MovedAt(s: seq<word64>, j: nat, k: nat)
    requires |s| == 4 && k < 4
    ensures Moved(s, j)[k] == if k + j <= 3 then s[k + j] else 0
    decreases j
  {
    if j > 0 {
      MovedAt([s[1], s[2], s[3], 0], j - 1, k);
    }
  }

  lemma {:induction false} MovedValue(d: nat, q: nat, s: seq<word64>, j: nat) returns (q': nat)
    requires |s| == 4 && d == q * M256 + Value4(s)
    ensures Shl(d, 64 * j) == q' * M256 + Value4(Moved(s, j))
    decreases j
  {
    hide Shl;
    if j == 0 {
      ShiftByNone(d);
      q' := q;
    } else {
      var up := [s[1], s[2], s[3], 0];
      assert M64 * d == (q * M64 + s[0]) * M256 + Value4(up);
      q' := MovedValue(M64 * d, q * M64 + s[0], up, j - 1);
      Shl64Value(d);
      ShlShl(d, 64, 64 * (j - 1));
    }
  }

  lemma Value4Below(s: seq<word64>)
    requires |s| == 4
    ensures Value4(s) < M256
  {
  }

  /** The words of a left shift denote the product, modulo 2^256. */
  lemma ShiftedWords(t: seq<word64>, j: nat, b: nat, r: seq<word64>)
    requires |t| == |r| == 4 && b < 64
    requires forall k :: 0 <= k < 4 ==> r[k] == ShiftedWord(t, j, b, k)
    ensures Value4(r) == Shl(Value4(t), 64 * j + b) % Pow2(256)
  {
    hide Shl, Shr, Pow2, Low, High, Value4;
    var s := WithinWords(t, b);
    var d := Shl(Value4(t), b);
    var q := MovedValue(d, High(t[0], b), s, j);
    forall k | 0 <= k < 4 ensures r[k] == Moved(s, j)[k] {
      MovedAt(s, j, k);
    }
    assert r == Moved(s, j);
    ShlShl(Value4(t), b, 64 * j);
    Pow2Of256();
    Value4Below(r);
    DivModIs(Shl(d, 64 * j), q, Value4(r), M256);
  }

  /** Shifting by less than a word: what each word becomes, and what leaves at the top. */
  lemma WithinWords(t: seq<word64>, b: nat) returns (s: seq<word64>)
    requires |t| == 4 && b < 64
    ensures |s| == 4 && forall k :: 0 <= k < 4 ==> s[k] == ShiftedWord(t, 0, b, k)
    ensures Shl(Value4(t), b) == High(t[0], b) * M256 + Value4(s)
  {
    hide Shl, Shr, Pow2, Low, High, BitOr;
    assert Pow2(b) > 0;
    WordShift(t[3], b, 0);
    WordShift(t[2], b, High(t[3], b));
    WordShift(t[1], b, High(t[2], b));
    WordShift(t[0], b, High(t[1], b));
    s := [Low(t[0], b) + High(t[1], b), Low(t[1], b) + High(t[2], b), Low(t[2], b) + High(t[3], b), Low(t[3], b)];
    SubWord(t, b);
  }

  lemma SubWord(t: seq<word64>, b: nat)
    requires |t| == 4 && b < 64
    ensures Shl(Value4(t), b)
         == ((Shl(t[0], b) * M64 + Shl(t[1], b)) * M64 + Shl(t[2], b)) * M64 + Shl(t[3], b)
  {
    hide Shl;
    var a := t[0] * M64 + t[1];
    var c := a * M64 + t[2];
    ShlTimesWord(t[0], t[1], b);
    ShlTimesWord(a, t[2], b);
    ShlTimesWord(c, t[3], b);
  }

  lemma ShlTimesWord(x: nat, y: nat, b: nat)
    ensures Shl(x * M64 + y, b) == Shl(x, b) * M64 + Shl(y, b)
  {
    hide Shl;
    Shl64Value(x);
    Shl64Value(Shl(x, b));
    ShlShl(x, 64, b);
    ShlShl(x, b, 64);
    ShlAdds(x * M64, y, b);
  }

  // ----- the code -----

  /** `x >> (64 - b)` as the code writes it. For b == 0 the shift amount is the word's width, which
      C++ leaves undefined: whatever the platform yields is the parameter `shr64`. */
  function CodeHigh(x: word64, b: nat, shr64: word64 -> word64): word64
    requires b < 64
  {
    if b == 0 then shr64(x)
    else
      HighFits(x, b);
      High(x, b)
  }

  lemma HighFits(x: word64, b: nat)
    requires b < 64
    ensures High(x, b) < M64
  {
    hide Shl, Shr, Pow2, BitOr;
    assert Pow2(b) > 0;
    WordShift(x, b, 0);
    Pow2Monotonic(b, 64);
    Pow2Of256();
  }

  lemma Or64Fits(x: word64, y: word64)
    ensures BitOr(x, y) < M64
  {
    hide BitOr, Pow2;
    Pow2Of256();
    BitsBound(x, y, 64);
  }

  function Or64(x: word64, y: word64): word64 {
    Or64Fits(x, y);
    BitOr(x, y)
  }

  /** Word `k` once the words above index `i` of `t` have been shifted: the carry is stored first,
      then the low part is or-ed in. */
  function CodeWord(t: seq<word64>, j: nat, b: nat, shr64: word64 -> word64, i: int, k: nat): word64
    requires |t| == 4 && b < 64
  {
    Or64(if i < k + j + 1 <= 3 then CodeHigh(t[k + j + 1], b, shr64) else 0,
         if i < k + j <= 3 then Low(t[k + j], b) else 0)
  }

  /** `shiftLeft`. */
  method ShiftLeft(h: array<word64>, bits: word, shr64: word64 -> word64)
    requires h.Length == 4
    modifies h
    ensures bits == 0 ==> h[..] == old(h[..])
    ensures bits != 0 ==> forall k :: 0 <= k < 4 ==>
      h[k] == CodeWord(old(h[..]), bits / 64, bits % 64, shr64, -1, k)
  {
    hide Low, CodeHigh, Or64;
    if bits == 0 {
      return;
    }
    var t := h[..];
    var c := 0;
    while c < 4
      invariant 0 <= c <= 4
      invariant forall k :: 0 <= k < c ==> h[k] == 0
    {
      h[c] := 0;
      c := c + 1;
    }
    var j := bits / 64;
    var b := bits % 64;
    OrZero64();
    var i: int := 3;
    while i - j >= 0
      invariant -1 <= i <= 3
      invariant i >= j - 1 || i == 3
      invariant forall k :: 0 <= k < 4 ==> h[k] == CodeWord(t, j, b, shr64, i, k)
      decreases i
    {
      if i - j - 1 >= 0 {
        h[i - j - 1] := CodeHigh(t[i], b, shr64);
      }
      if i - j >= 0 {
        h[i - j] := Or64(h[i - j], Low(t[i], b));
      }
      i := i - 1;
    }
  }

  lemma OrZero64()
    ensures forall x: word64 :: Or64(0, x) == x && Or64(x, 0) == x
  {
    hide BitOr;
    forall x: word64 ensures Or64(0, x) == x && Or64(x, 0) == x {
      OrZero(x);
    }
  }

  /** Unless it shifts by exactly 64 or 128 bits, `shiftLeft` multiplies by the power of two. */
  lemma ShiftLeftExact(t: seq<word64>, bits: word, shr64: word64 -> word64, r: seq<word64>)
    requires |t| == |r| == 4 && bits != 64 && bits != 128
    requires bits == 0 ==> r == t
    requires bits != 0 ==> forall k :: 0 <= k < 4 ==> r[k] == CodeWord(t, bits / 64, bits % 64, shr64, -1, k)
    ensures Value4(r) == Shl(Value4(t), bits) % Pow2(256)
  {
    hide Shl, Shr, Pow2, Low, High, BitOr, Value4;
    if bits == 0 {
      ShiftByNone(Value4(t));
      Value4Below(t);
      Pow2Of256();
      DivModIs(Value4(t), 0, Value4(t), M256);
    } else {
      var j, b := bits / 64, bits % 64;
      OrZero64();
      forall k | 0 <= k < 4 ensures r[k] == ShiftedWord(t, j, b, k) {
        assert Pow2(b) > 0;
        if k + j + 1 <= 3 {
          WordShift(t[k + j + 1], b, 0);
          WordShift(t[k + j], b, High(t[k + j + 1], b));
        }
      }
      ShiftedWords(t, j, b, r);
    }
  }

  /** `from_compact`. */
  method FromCompact(nbits: word, shr64: word64 -> word64)
    returns (res: array<word64>, negative: bool, overflow: bool)
    ensures res.Length == 4 && Result(nbits, shr64, res[..])
    ensures overflow <==> CompactValue(nbits) >= Pow2(256)
    ensures negative <==> CompactWord(nbits) != 0 && SignBit(nbits)
  {
    hide Shl, Shr, Pow2, CodeWord;
    res := new word64[4](i => 0);
    var size := SizeOf(nbits);
    var w: word := Mantissa(nbits);
    if size <= 3 {
      w := Shr32(w, 8 * (3 - size));
      SmallFits(w);
      res[3] := w;
      assert res[..] == [0, 0, 0, w];
    } else {
      res[3] := w;
      assert res[..] == [0, 0, 0, w];
      ShiftLeft(res, 8 * (size - 3), shr64);
      OverflowExact(w, size);
    }
    negative := w != 0 && SignBit(nbits);
    overflow := w != 0 && (size > 34 || (w > 0xff && size > 33) || (w > 0xffff && size > 32));
  }

  /** The words `from_compact` returns. */
  ghost predicate Result(nbits: word, shr64: word64 -> word64, r: seq<word64>)
    requires |r| == 4
  {
    var size := SizeOf(nbits);
    if size <= 3 then r == [0, 0, 0, CompactWord(nbits)]
    else forall k :: 0 <= k < 4 ==>
      r[k] == CodeWord([0, 0, 0, Mantissa(nbits)], (8 * (size - 3)) / 64, (8 * (size - 3)) % 64, shr64, -1, k)
  }

  /** The undefined shift is reached, and what it yields reaches the result. */
  predicate UndefinedShiftShows(nbits: word, shr64: word64 -> word64) {
    || (SizeOf(nbits) == 11 && (shr64(Mantissa(nbits)) != 0 || shr64(0) != 0))
    || (SizeOf(nbits) == 19 && shr64(Mantissa(nbits)) != 0)
  }

  /** Big-endian `from_compact` denotes the number `SetCompact` denotes exactly unless the size byte
      is 11 or 19 and the platform's 64-bit shift by 64 does not yield zero. */
  lemma FromCompactAgrees(nbits: word, shr64: word64 -> word64, r: seq<word64>)
    requires |r| == 4 && Result(nbits, shr64, r)
    ensures Value4(r) == CompactValue(nbits) % Pow2(256) <==> !UndefinedShiftShows(nbits, shr64)
  {
    hide Shl, Shr, Pow2, Low, High, BitOr, CodeWord;
    var size, m := SizeOf(nbits), Mantissa(nbits);
    var t := [0, 0, 0, m];
    assert Value4(t) == m;
    if size <= 3 {
      ShrSmall(m, 8 * (3 - size));
      SmallFits(CompactWord(nbits));
      assert Value4(r) == CompactWord(nbits);
    } else if size != 11 && size != 19 {
      ShiftLeftExact(t, 8 * (size - 3), shr64, r);
    } else {
      WholeWordShift(m, (size - 3) / 8, shr64, r);
      RightWords(m, size);
    }
  }

  lemma ShrSmall(m: nat, k: nat)
    requires m < 0x80_0000
    ensures Shr(m, k) < 0x80_0000
  {
    ShrShrinks(m, k);
  }

  /** What shifting a lone word by 64 or 128 bits leaves. */
  lemma WholeWordShift(m: word, j: nat, shr64: word64 -> word64, r: seq<word64>)
    requires |r| == 4 && (j == 1 || j == 2)
    requires forall k :: 0 <= k < 4 ==> r[k] == CodeWord([0, 0, 0, m], j, 0, shr64, -1, k)
    ensures r == if j == 1 then [shr64(0), shr64(m), m, 0] else [shr64(m), m, 0, 0]
  {
    hide Shl, Shr, BitOr;
    OrZero64();
    ShiftByNone(m);
    ShiftByNone(0);
    assert r[0] == CodeWord([0, 0, 0, m], j, 0, shr64, -1, 0);
    assert r[1] == CodeWord([0, 0, 0, m], j, 0, shr64, -1, 1);
  }

  lemma RightWords(m: word, size: nat)
    requires size == 11 || size == 19
    ensures Shl(m, 8 * (size - 3)) % Pow2(256) == if size == 11 then m * M64 else m * M64 * M64
  {
    hide Shl, Pow2;
    Pow2Of256();
    Shl64Value(m);
    Shl64Value(Shl(m, 64));
    ShlShl(m, 64, 64);
    DivModIs(Shl(m, 8 * (size - 3)), 0, Shl(m, 8 * (size - 3)), M256);
  }
}
