/** 256-bit unsigned arithmetic on eight 32-bit limbs updated in place
    (libpoolprotocols/stratum/arith_uint256.h, libpoolprotocols/stratum/arith_uint256.cpp). */
module Uint256 {
  import opened Arith
  import opened Bits
  import opened Words
  import opened Limbs
  import opened LimbArith

  const WIDTH: nat := 8

  // ----- remainders of powers of two -----

  lemma ModPow2(n: nat, q: nat, r: nat, k: nat)
    requires n == Shl(q, k) + r && r < Pow2(k)
    ensures n % Pow2(k) == r && n / Pow2(k) == q
  {
    ShlIsTimes(q, k);
    DivModIs(n, q, r, Pow2(k));
  }

  // ----- what the shift loops leave in each limb -----

  /** Limb `j` once limbs below `i` of `a` have been shifted left by 32k + s. */
  function LeftLimb(a: seq<word>, k: nat, s: nat, i: nat, j: nat): nat
    requires s < 32 && i <= |a|
  {
    (if k <= j < i + k then Shl32(a[j - k], s) else 0)
    + (if k + 1 <= j <= i + k then Shr(a[j - k - 1], 32 - s) else 0)
  }

  /** Limb `j` once limbs below `i` of `a` have been shifted right by 32k + s. */
  function RightLimb(a: seq<word>, k: nat, s: nat, i: nat, j: nat): nat
    requires s < 32 && i <= |a|
  {
    (if j + k < i then Shr(a[j + k], s) else 0)
    + (if j + k + 1 < i then Shl32(a[j + k + 1], 32 - s) else 0)
  }

  function ShiftedLeft(a: seq<word>, k: nat, s: nat): (r: seq<word>)
    requires s < 32
    ensures |r| == |a|
  {
    (ZeroLimbs(k) + ShlLimbs(a, s, 0))[..|a|]
  }

  function ShiftedRight(a: seq<word>, k: nat, s: nat): (r: seq<word>)
    requires s < 32
    ensures |r| == |a|
  {
    var x := ShrLimbs(a, s);
    if k <= |a| then x[k..] + ZeroLimbs(k) else ZeroLimbs(|a|)
  }

  /** `p` after the passes of a left shift over the limbs below `i`. */
  ghost predicate LeftDone(a: seq<word>, k: nat, s: nat, i: nat, p: seq<word>)
    requires s < 32 && i <= |a|
  {
    |p| == |a| && forall j :: 0 <= j < |p| ==> p[j] == LeftLimb(a, k, s, i, j)
  }

  /** `p` after the passes of a right shift over the limbs below `i`. */
  ghost predicate RightDone(a: seq<word>, k: nat, s: nat, i: nat, p: seq<word>)
    requires s < 32 && i <= |a|
  {
    |p| == |a| && forall j :: 0 <= j < |p| ==> p[j] == RightLimb(a, k, s, i, j)
  }

  lemma LeftLimbs(a: seq<word>, k: nat, s: nat, r: seq<word>)
    requires s < 32 && LeftDone(a, k, s, |a|, r)
    ensures r == ShiftedLeft(a, k, s)
  {
    hide Shl32, Shr, ShlLimbs;
    forall j | 0 <= j < |a| ensures r[j] == ShiftedLeft(a, k, s)[j] {
      assert r[j] == LeftLimb(a, k, s, |a|, j);
      if j >= k {
        ShlLimbsAt(a, s, 0, j - k);
      }
    }
  }

  lemma RightLimbs(a: seq<word>, k: nat, s: nat, r: seq<word>)
    requires s < 32 && RightDone(a, k, s, |a|, r)
    ensures r == ShiftedRight(a, k, s)
  {
    hide Shl, Shr, Shl32, ShrLimbs;
    ShlOfZero(32 - s);
    forall j | 0 <= j < |a| ensures r[j] == ShiftedRight(a, k, s)[j] {
      assert r[j] == RightLimb(a, k, s, |a|, j);
      if j + k < |a| {
        ShrLimbsAt(a, s, j + k);
      }
    }
  }

  lemma ShlOfZero(k: nat)
    ensures Shl32(0, k) == 0
  {
    ShlZero(k);
  }

  /** Shifting left multiplies by the power of two, modulo the width. */
  lemma ShiftedLeftValue(a: seq<word>, k: nat, s: nat)
    requires s < 32
    ensures Val(ShiftedLeft(a, k, s)) == Shl(Val(a), 32 * k + s) % Pow2(32 * |a|)
  {
    hide Shl, Shr, Val, Pow2;
    assert Pow2(s) > 0;
    var x, out, n := ShlLimbs(a, s, 0), ShlOut(a, s, 0), 32 * |a|;
    var full := ZeroLimbs(k) + x;
    ShlLimbsValue(a, s, 0);
    ValConcat(ZeroLimbs(k), x);
    ValZeros(k);
    ValSplit(full, |a|);
    ValBelow(full[..|a|]);
    ShlShl(Val(a), s, 32 * k);
    ShlAdds(Val(x), Shl(out, n), 32 * k);
    ShlShl(out, n, 32 * k);
    ShlShl(out, 32 * k, n);
    ShlAdds(Val(full[|a|..]), Shl(out, 32 * k), n);
    ModPow2(Shl(Val(a), 32 * k + s), Val(full[|a|..]) + Shl(out, 32 * k), Val(full[..|a|]), n);
  }

  /** Shifting right divides by the power of two. */
  lemma ShiftedRightValue(a: seq<word>, k: nat, s: nat)
    requires s < 32
    ensures Val(ShiftedRight(a, k, s)) == Shr(Val(a), 32 * k + s)
  {
    hide Shl, Shr, Val, Pow2;
    var x := ShrLimbs(a, s);
    ShrLimbsValue(a, s);
    ShrShr(Val(a), s, 32 * k);
    if k <= |a| {
      ValSplit(x, k);
      ValConcat(x[k..], ZeroLimbs(k));
      ValZeros(k);
      ShlZero(32 * |x[k..]|);
    } else {
      ValSplit(x, |x|);
      ShrShr(Val(x), 32 * |x|, 32 * (k - |x|));
      assert x[|x|..] == ZeroLimbs(0);
      ValZeros(0);
      ShrZero(32 * (k - |x|));
      ValZeros(|a|);
    }
  }

  class BaseUint {
    const pn: array<word>

    ghost predicate Valid() {
      pn.Length == WIDTH
    }

    /** The number the limbs denote. */
    ghost function Value(): nat
      reads pn
    {
      Val(pn[..])
    }

    lemma ValueBelow()
      requires Valid()
      ensures Value() < Pow2(256)
    {
      ValBelow(pn[..]);
    }

    /** `base_uint(uint64_t)`. */
    constructor (b: nat)
      requires b < M64
      ensures Valid() && fresh(pn) && Value() == b
    {
      pn := new word[WIDTH](i => if i == 0 then b % M32 else if i == 1 then b / M32 else 0);
      new;
      TwoLimbs(pn[..]);
    }

    /** The copy constructor. */
    constructor CopyOf(b: BaseUint)
      requires b.Valid()
      ensures Valid() && fresh(pn) && pn[..] == b.pn[..]
    {
      var from := b.pn;
      pn := new word[WIDTH](i requires 0 <= i < from.Length reads from => from[i]);
      new;
      assert pn[..] == b.pn[..];
    }

    /** Sets every limb to zero. */
    method Clear()
      requires Valid()
      modifies pn
      ensures pn[..] == ZeroLimbs(WIDTH) && Value() == 0
    {
      for i := 0 to WIDTH
        invariant forall j :: 0 <= j < i ==> pn[j] == 0
      {
        pn[i] := 0;
      }
      assert pn[..] == ZeroLimbs(WIDTH);
      ValZeros(WIDTH);
    }

    /** `operator<<=`. */
    method ShiftLeft(shift: word)
      requires Valid()
      modifies pn
      ensures Value() == Shl(old(Value()), shift) % Pow2(256)
    {
      hide Shl, Shr, Val, Pow2, Or32, Shl32, Shr32, LeftDone;
      var a := pn[..];
      Clear();
      var k := shift / 32;
      var s := shift % 32;
      LeftStart(a, k, s, pn[..]);
      for i := 0 to WIDTH
        invariant LeftDone(a, k, s, i, pn[..])
      {
        LeftKeeps(a, k, s, i, pn[..]);
        if i + k + 1 < WIDTH && s != 0 {
          pn[i + k + 1] := Or32(pn[i + k + 1], Shr32(a[i], 32 - s));
        }
        if i + k < WIDTH {
          pn[i + k] := Or32(pn[i + k], Shl32(a[i], s));
        }
      }
      LeftLimbs(a, k, s, pn[..]);
      ShiftedLeftValue(a, k, s);
    }

    /** `operator>>=`. */
    method ShiftRight(shift: word)
      requires Valid()
      modifies pn
      ensures Value() == Shr(old(Value()), shift)
    {
      hide Shl, Shr, Val, Pow2, Or32, Shl32, Shr32, RightDone;
      var a := pn[..];
      Clear();
      var k := shift / 32;
      var s := shift % 32;
      RightStart(a, k, s, pn[..]);
      for i := 0 to WIDTH
        invariant RightDone(a, k, s, i, pn[..])
      {
        RightKeeps(a, k, s, i, pn[..]);
        if i - k - 1 >= 0 && s != 0 {
          pn[i - k - 1] := Or32(pn[i - k - 1], Shl32(a[i], 32 - s));
        }
        if i - k >= 0 {
          pn[i - k] := Or32(pn[i - k], Shr32(a[i], s));
        }
      }
      RightLimbs(a, k, s, pn[..]);
      ShiftedRightValue(a, k, s);
    }

    /** `operator*=(uint32_t)`. */
    method MulWord(b: word)
      requires Valid()
      modifies pn
      ensures pn[..] == MulLimbs(old(pn[..]), b, 0)
      ensures Value() == (b * old(Value())) % Pow2(256)
    {
      hide Shl, Val, Pow2, MulLimbs, MulOut, Accumulate;
      ghost var a := pn[..];
      var carry: word := 0;
      for i := 0 to WIDTH
        invariant pn[i..] == a[i..]
        invariant pn[..i] + MulLimbs(a[i..], b, carry) == MulLimbs(a, b, 0)
      {
        var n := Accumulate(carry, 0, b, pn[i]);
        WordStep(pn[..], a, b, i, carry);
        pn[i] := n % M32;
        carry := n / M32;
      }
      assert pn[..] == MulLimbs(a, b, 0);
      MulLimbsValue(a, b, 0);
      ValueBelow();
      MulMonotonic(0, b, Val(a));
      ModPow2(b * Val(a), MulOut(a, b, 0), Val(pn[..]), 256);
    }

    /** The inner loop of `operator*=`: adds x * b, moved up by `j` limbs, into the limbs. */
    method MulRow(b: BaseUint, x: word, j: nat)
      requires Valid() && b.Valid() && j < WIDTH
      modifies pn
      ensures b.pn != pn ==>
        pn[..] == old(pn[..])[..j] + AddMulLimbs(old(pn[..])[j..], b.pn[..], x, 0)
      ensures b.pn == pn && old(pn[..]) == ZeroLimbs(WIDTH) ==> pn[..] == ZeroLimbs(WIDTH)
    {
      hide AddMulLimbs, Accumulate;
      ghost var p, c := pn[..], b.pn[..];
      var carry: word := 0;
      var i := 0;
      while i + j < WIDTH
        invariant i + j <= WIDTH
        invariant b.pn != pn ==> pn[i + j..] == p[i + j..] && b.pn[..] == c
        invariant b.pn != pn ==>
          pn[..i + j] + AddMulLimbs(p[i + j..], c[i..], x, carry) == p[..j] + AddMulLimbs(p[j..], c, x, 0)
        invariant b.pn == pn && p == ZeroLimbs(WIDTH) ==> pn[..] == p && carry == 0
        decreases WIDTH - i
      {
        var n := Accumulate(carry, pn[i + j], x, b.pn[i]);
        if b.pn != pn {
          RowStep(pn[..], p, c, x, i, j, carry);
        }
        AccumulateZero(x);
        pn[i + j] := n % M32;
        carry := n / M32;
        i := i + 1;
      }
      assert p[WIDTH..] == [];
      NoRow(c[i..], x, carry);
    }

    /** `operator*=`: schoolbook multiplication, limbs past the width dropped. Multiplying a number
        by itself in place gives 0, because the operand is cleared first. */
    method Mul(b: BaseUint)
      requires Valid() && b.Valid()
      modifies pn
      ensures b.pn != pn ==> Value() == (old(Value()) * old(b.Value())) % Pow2(256)
      ensures b.pn == pn ==> Value() == 0
    {
      hide Shl, Val, Pow2, AddMulLimbs;
      var a := pn[..];
      ghost var c := b.pn[..];
      Clear();
      ghost var q := 0;
      ProductStart(a, c);
      for j := 0 to WIDTH
        invariant b.pn != pn ==> b.pn[..] == c && Val(pn[..]) + Shl(q, 256) == Val(a[..j]) * Val(c)
        invariant b.pn == pn ==> pn[..] == ZeroLimbs(WIDTH)
      {
        ghost var p := pn[..];
        MulRow(b, a[j], j);
        if b.pn != pn {
          q := ProductRow(a, c, j, p, q);
        }
      }
      assert a[..WIDTH] == a;
      ValueBelow();
      ValZeros(WIDTH);
      if b.pn != pn {
        ModPow2(Val(a) * Val(c), q, Val(pn[..]), 256);
      }
    }

    /** `operator+=`. */
    method Add(b: BaseUint)
      requires Valid() && b.Valid()
      modifies pn
      ensures Value() == (old(Value()) + old(b.Value())) % Pow2(256)
    {
      hide Shl, Val, Pow2, AddLimbs, AddOut;
      ghost var a, c := pn[..], b.pn[..];
      var carry := 0;
      for i := 0 to WIDTH
        invariant 0 <= carry <= 1
        invariant pn[i..] == a[i..] && b.pn[i..] == c[i..]
        invariant pn[..i] + AddLimbs(a[i..], c[i..], carry) == AddLimbs(a, c, 0)
      {
        AddStep(pn[..], b.pn[..], a, c, i, carry);
        var n := carry + pn[i] + b.pn[i];
        pn[i] := n % M32;
        carry := n / M32;
      }
      assert pn[..] == AddLimbs(a, c, 0);
      AddLimbsValue(a, c, 0);
      ValueBelow();
      ModPow2(Val(a) + Val(c), AddOut(a, c, 0), Val(pn[..]), 256);
    }

    /** `operator++`: the number grows by one, modulo the width. */
    method Increment()
      requires Valid()
      modifies pn
      ensures pn[..] == IncLimbs(old(pn[..]))
      ensures Value() == (old(Value()) + 1) % Pow2(256)
    {
      hide IncLimbs, Val, Pow2;
      IncModulo(pn[..]);
      IncrementLimbs();
    }

    /** Its loop: limbs are incremented until one does not wrap to zero. */
    method IncrementLimbs()
      requires Valid()
      modifies pn
      ensures pn[..] == IncLimbs(old(pn[..]))
    {
      hide IncLimbs;
      ghost var a := pn[..];
      var i := 0;
      while i < WIDTH
        invariant 0 <= i <= WIDTH
        invariant pn[i..] == a[i..]
        invariant pn[..i] + IncLimbs(a[i..]) == IncLimbs(a)
      {
        IncStep(pn[..], a, i);
        if pn[i] < M32 - 1 {
          pn[i] := pn[i] + 1;
          return;
        }
        pn[i] := 0;
        i := i + 1;
      }
    }

    /** Unary `operator-`: complement and increment. */
    method Negated() returns (r: BaseUint)
      requires Valid()
      ensures r.Valid() && fresh(r) && fresh(r.pn)
      ensures r.Value() == if Value() == 0 then 0 else Pow2(256) - Value()
    {
      hide Pow2, Shl;
      r := new BaseUint.CopyOf(this);
      for i := 0 to WIDTH
        invariant forall j :: 0 <= j < i ==> r.pn[j] == M32 - 1 - pn[j]
      {
        r.pn[i] := M32 - 1 - pn[i];
      }
      forall j | 0 <= j < WIDTH ensures r.pn[..][j] == NotLimbs(pn[..])[j] {
        NotLimbsAt(pn[..], j);
      }
      assert r.pn[..] == NotLimbs(pn[..]);
      NotLimbsValue(pn[..]);
      IncLimbsValue(r.pn[..]);
      r.Increment();
    }

    /** `operator-=`: adds the negated operand. */
    method Sub(b: BaseUint)
      requires Valid() && b.Valid()
      modifies pn
      ensures Value() == (old(Value()) - old(b.Value())) % Pow2(256)
    {
      hide Pow2, Val;
      ValueBelow();
      b.ValueBelow();
      var minus := b.Negated();
      ghost var x, y := Value(), b.Value();
      Add(minus);
      SubModulo(x, y, Pow2(256));
    }

    /** `CompareTo`: the sign of the difference. */
    method CompareTo(b: BaseUint) returns (r: int)
      requires Valid() && b.Valid()
      ensures r == if Value() < b.Value() then -1 else if Value() > b.Value() then 1 else 0
    {
      hide Val;
      var i := WIDTH;
      while i > 0
        invariant 0 <= i <= WIDTH
        invariant pn[i..] == b.pn[i..]
      {
        i := i - 1;
        if pn[i] < b.pn[i] {
          ValOrder(pn[..], b.pn[..], i);
          return -1;
        }
        if pn[i] > b.pn[i] {
          ValOrder(b.pn[..], pn[..], i);
          return 1;
        }
      }
      assert pn[..] == b.pn[..];
      return 0;
    }

    /** `bits`: the position of the highest one bit plus one, zero for zero. */
    method NumBits() returns (n: nat)
      requires Valid()
      ensures n == BitLength(Value()) && n <= 256
    {
      hide Val, BitLength, Shr, Pow2;
      var pos := WIDTH;
      while pos > 0
        invariant 0 <= pos <= WIDTH
        invariant forall i :: pos <= i < WIDTH ==> pn[i] == 0
      {
        pos := pos - 1;
        if pn[pos] != 0 {
          BitLengthAtLimb(pn[..], pos);
          n := TopBit(pn[pos]);
          return 32 * pos + n;
        }
      }
      assert pn[..] == ZeroLimbs(WIDTH);
      ValZeros(WIDTH);
      NoBits();
      return 0;
    }

    /** `operator/=`: shift-subtract division. The quotient is cleared before the divisor is
        looked at, so a division by zero leaves 0 behind. */
    method Div(b: BaseUint) returns (r: DivResult)
      requires Valid() && b.Valid()
      modifies pn
      ensures r.DivisionByZero? <==> old(b.Value()) == 0
      ensures Value() == if old(b.Value()) == 0 then 0 else old(Value()) / old(b.Value())
    {
      hide Val, BitLength, Shl, Pow2;
      var div := new BaseUint.CopyOf(b);
      var num := new BaseUint.CopyOf(this);
      ghost var a, d := Value(), b.Value();
      Clear();
      var numBits := num.NumBits();
      var divBits := div.NumBits();
      BitLengthBounds(a);
      BitLengthBounds(d);
      if divBits == 0 {
        return DivisionByZero;
      }
      if divBits > numBits {
        Pow2Monotonic(numBits, divBits - 1);
        DivModIs(a, 0, a, d);
        return Done;
      }
      var shift := numBits - divBits;
      AlignedStart(a, d, shift);
      div.ShiftLeft(shift);
      DivideAligned(div, num, shift, d);
      return Done;
    }

    /** The subtract loop of `operator/=`, started with divisor and dividend aligned. */
    method DivideAligned(div: BaseUint, num: BaseUint, start: nat, ghost d: nat)
      requires Valid() && div.Valid() && num.Valid() && start < 256 && d > 0
      requires pn != div.pn && pn != num.pn && div.pn != num.pn
      requires pn[..] == ZeroLimbs(WIDTH)
      requires div.Value() == Shl(d, start) && num.Value() < 2 * Shl(d, start)
      modifies pn, div.pn, num.pn
      ensures Value() == old(num.Value()) / d
    {
      hide Val, Shl, Shr, Pow2;
      ghost var a := num.Value();
      ghost var t: nat := 0;
      var shift: int := start;
      ShlZero(start + 1);
      ValZeros(WIDTH);
      HalfDivisor(d, start);
      while shift >= 0
        invariant -1 <= shift <= start
        invariant shift >= 0 ==> div.Value() == Shl(d, shift)
        invariant num.Value() < Shl(d, shift + 1)
        invariant Value() == Shl(t, shift + 1)
        invariant num.Value() + Value() * d == a
        decreases shift
      {
        ghost var x, q := num.Value(), Value();
        var c := num.CompareTo(div);
        if c >= 0 {
          num.ValueBelow();
          num.Sub(div);
          SubExact(x, Shl(d, shift));
          SetBit(shift, t);
          BitAdded(x, q, d, shift, a);
          t := 2 * t + 1;
        } else {
          ShlDouble(t, shift);
          HalfDivisor(t, shift);
          t := 2 * t;
        }
        HalfDivisor(d, shift);
        div.ShiftRight(1);
        shift := shift - 1;
      }
      HalfDivisor(d, 0);
      DivModIs(a, Value(), num.Value(), d);
    }

    /** `pn[shift / 32] |= (1 << (shift & 31))`: sets a bit below those already set. */
    method SetBit(shift: nat, ghost t: nat)
      requires Valid() && shift < 256 && Value() == Shl(t, shift + 1)
      modifies pn
      ensures Value() == old(Value()) + Pow2(shift) == Shl(2 * t + 1, shift)
    {
      hide Val, Shl, Pow2, Or32;
      BitPosition(pn[..], shift / 32, shift % 32, t);
      ghost var p := pn[..];
      pn[shift / 32] := Or32(pn[shift / 32], Shl32(1, shift % 32));
      assert pn[..] == p[shift / 32 := pn[shift / 32]];
    }
  }

  datatype DivResult = Done | DivisionByZero

  lemma {:induction false} BitLengthBounds(x: nat)
    ensures x < Pow2(BitLength(x))
    ensures x > 0 ==> BitLength(x) > 0 && Pow2(BitLength(x) - 1) <= x
    ensures x == 0 ==> BitLength(x) == 0
  {
    if x > 0 {
      BitLengthBounds(x / 2);
    }
  }

  /** Aligned at the top bit, the divisor fits and is more than half the dividend. */
  lemma AlignedStart(a: nat, d: nat, shift: nat)
    requires d > 0 && BitLength(a) == BitLength(d) + shift <= 256
    ensures Shl(d, shift) % Pow2(256) == Shl(d, shift) && a < 2 * Shl(d, shift) && shift < 256
  {
    hide Shl, Pow2, BitLength;
    var n := BitLength(d);
    BitLengthBounds(a);
    BitLengthBounds(d);
    ShlBelow(d, shift, n);
    Pow2Monotonic(n + shift, 256);
    ShlZero(256);
    ModPow2(Shl(d, shift), 0, Shl(d, shift), 256);
    ShlMonotonic(Pow2(n - 1), d, shift);
    Pow2Add(n - 1, shift);
    Pow2Double(n - 1 + shift);
  }

  lemma SubExact(x: nat, y: nat)
    requires y <= x < Pow2(256)
    ensures (x - y) % Pow2(256) == x - y
  {
    hide Pow2;
    DivModIs(x - y, 0, x - y, Pow2(256));
  }

  lemma BitAdded(x: nat, q: nat, d: nat, shift: nat, a: nat)
    requires x + q * d == a && x >= Shl(d, shift)
    ensures (x - Shl(d, shift)) + (q + Pow2(shift)) * d == a
  {
    hide Shl, Pow2;
    ShlIsTimes(d, shift);
    MulDistributes(q, Pow2(shift), d);
  }

  lemma HalfDivisor(d: nat, shift: nat)
    ensures Shl(d, shift + 1) == 2 * Shl(d, shift)
    ensures shift > 0 ==> Shr(Shl(d, shift), 1) == Shl(d, shift - 1)
    ensures Shl(d, 0) == d
  {
    if shift > 0 {
      ShrOfSum(Shl(d, shift - 1), 0, 1);
    }
  }

  /** A number whose bits up to 32i + s are clear has a clear bit there in limb `i`. */
  lemma BitPosition(p: seq<word>, i: nat, s: nat, t: nat)
    requires i < |p| && s < 32 && Val(p) == Shl(t, 32 * i + s + 1)
    ensures var limb := Or32(p[i], Shl32(1, s));
            && Val(p[i := limb]) == Val(p) + Pow2(32 * i + s)
            && Val(p) + Pow2(32 * i + s) == Shl(2 * t + 1, 32 * i + s)
  {
    hide Val, Shl, Shr, Pow2, Or32;
    var r := p[i + 1..];
    LowBitsClear(p, i, s, t);
    var u := Shr(p[i], s + 1);
    Pow2Double(s);
    OneShifted(s);
    OrLimb(u, s);
    var limb := p[i] + Pow2(s);
    ChangeLimb(p, i, limb, Pow2(s));
    Pow2Add(s, 32 * i);
    ShlDouble(t, 32 * i + s);
    HalfDivisor(t, 32 * i + s);
    ShlAdds(2 * t, 1, 32 * i + s);
    Pow2IsShl(32 * i + s);
  }

  lemma OneShifted(s: nat)
    requires s < 32
    ensures Shl32(1, s) == Pow2(s)
  {
    hide Shl, Pow2;
    Pow2IsShl(s);
    Pow2Monotonic(s + 1, 32);
    Pow2Double(s);
    Pow2Values();
  }

  lemma OrLimb(u: nat, s: nat)
    requires s < 32 && Shl(u, s + 1) < M32
    ensures Pow2(s) < M32 && Or32(Shl(u, s + 1), Pow2(s)) == Shl(u, s + 1) + Pow2(s)
  {
    hide Shl, Pow2;
    Pow2Double(s);
    Pow2Monotonic(s + 1, 32);
    Pow2Values();
    OrDisjoint(u, Pow2(s), s + 1);
  }

  lemma LowBitsClear(p: seq<word>, i: nat, s: nat, t: nat)
    requires i < |p| && s < 32 && Val(p) == Shl(t, 32 * i + s + 1)
    ensures p[i] == Shl(Shr(p[i], s + 1), s + 1)
  {
    hide Val, Shl, Shr, Pow2;
    var r := Val(p[i..][1..]);
    ValSplit(p, i);
    ValUncons(p[i..]);
    ShlShl(t, s + 1, 32 * i);
    assert Pow2(32 * i) > 0;
    ShrOfSum(Shl(t, s + 1), 0, 32 * i);
    // limb i and those above it denote t shifted left by s + 1
    var l := Split(p[i], s + 1);
    Shl32Value(r);
    ShlShl(r, 31 - s, s + 1);
    var u := Shr(p[i], s + 1);
    ShlAdds(u, Shl(r, 31 - s), s + 1);
    ShrOfSum(u + Shl(r, 31 - s), l, s + 1);
    assert Pow2(s + 1) > 0;
    ShrOfSum(t, 0, s + 1);
  }

  lemma ChangeLimb(p: seq<word>, i: nat, limb: word, inc: nat)
    requires i < |p| && limb == p[i] + inc
    ensures Val(p[i := limb]) == Val(p) + Shl(inc, 32 * i)
  {
    hide Val, Shl;
    var p' := p[i := limb];
    ValSplit(p, i);
    ValSplit(p', i);
    assert p'[..i] == p[..i] && p'[i..][1..] == p[i..][1..];
    ValUncons(p[i..]);
    ValUncons(p'[i..]);
    ShlAdds(Val(p[i..]), inc, 32 * i);
  }

  /** The inner loop of `bits`: tests bits 31 down to 1 of a nonzero limb. */
  method TopBit(x: word) returns (n: nat)
    requires x != 0
    ensures n == BitLength(x) && n <= 32
  {
    hide BitLength, Shr, BitAnd, Pow2;
    ShrWhole(x);
    var nbits := 31;
    while nbits > 0
      invariant 0 <= nbits <= 31
      invariant Shr(x, nbits + 1) == 0
    {
      AndTestsBit(x, nbits);
      ShrStep(x, nbits);
      if BitAnd(x, Pow2(nbits)) != 0 {
        BitLengthIs(x, nbits);
        return nbits + 1;
      }
      nbits := nbits - 1;
    }
    ShrStep(x, 0);
    ShiftByNone(x);
    BitLengthIs(x, 0);
    return 1;
  }

  lemma NoBits()
    ensures BitLength(0) == 0
  {
  }

  lemma SubModulo(x: nat, y: nat, m: nat)
    requires x < m && y < m
    ensures (x + if y == 0 then 0 else m - y) % m == (x - y) % m
  {
    if y == 0 {
    } else if x >= y {
      DivModIs(x + (m - y), 1, x - y, m);
      DivModIs(x - y, 0, x - y, m);
    } else {
      DivModIs(x + (m - y), 0, x + (m - y), m);
      DivModIs(x - y, -1, x + (m - y), m);
    }
  }

  lemma IncModulo(a: seq<word>)
    requires |a| == WIDTH
    ensures Val(IncLimbs(a)) == (Val(a) + 1) % Pow2(256)
  {
    hide IncLimbs, Val, Pow2;
    IncLimbsValue(a);
    ValBelow(a);
    var n := Val(a) + 1;
    if n == Pow2(256) {
      DivModIs(n, 1, 0, Pow2(256));
    } else {
      DivModIs(n, 0, n, Pow2(256));
    }
  }

  /** One step of the increment loop. */
  lemma IncStep(p: seq<word>, a: seq<word>, i: nat)
    requires |p| == |a| == WIDTH && i < WIDTH && p[i..] == a[i..]
    ensures p[i + 1..] == a[i + 1..]
    ensures p[i] == M32 - 1 ==> IncLimbs(a[i..]) == [0] + IncLimbs(a[i + 1..])
    ensures p[i] < M32 - 1 ==> IncLimbs(a[i..]) == [p[i] + 1] + a[i + 1..]
  {
    assert p[i..][0] == p[i] && p[i..][1..] == p[i + 1..] && a[i..][1..] == a[i + 1..];
  }

  /** One step of the addition loop. */
  lemma AddStep(p: seq<word>, r: seq<word>, a: seq<word>, c: seq<word>, i: nat, carry: nat)
    requires |p| == |r| == |a| == |c| == WIDTH && i < WIDTH && carry <= 1
    requires p[i..] == a[i..] && r[i..] == c[i..]
    ensures p[i + 1..] == a[i + 1..] && r[i + 1..] == c[i + 1..]
    ensures var n := carry + p[i] + r[i];
            n / M32 <= 1 && AddLimbs(a[i..], c[i..], carry) == [n % M32] + AddLimbs(a[i + 1..], c[i + 1..], n / M32)
  {
    assert p[i..][0] == p[i] && r[i..][0] == r[i];
    assert p[i..][1..] == p[i + 1..] && r[i..][1..] == r[i + 1..];
    assert a[i..][1..] == a[i + 1..] && c[i..][1..] == c[i + 1..];
  }

  /** `carry + p + x * y` in 64 bits: it never wraps. */
  function Accumulate(c: word, p: word, x: word, y: word): (n: nat)
    ensures n == c + p + x * y
    ensures n < M64 && n / M32 < M32
  {
    ProductFits(x, y, p, c);
    (c + p + x * y) % M64
  }

  lemma AccumulateZero(x: word)
    ensures Accumulate(0, 0, x, 0) == 0
  {
  }

  /** One step of the loop that multiplies by a word. */
  lemma WordStep(now: seq<word>, a: seq<word>, b: word, i: nat, carry: word)
    requires |now| == |a| == WIDTH && i < WIDTH && now[i..] == a[i..]
    ensures now[i] == a[i] && now[i + 1..] == a[i + 1..]
    ensures var n := Accumulate(carry, 0, b, now[i]);
            MulLimbs(a[i..], b, carry) == [n % M32] + MulLimbs(a[i + 1..], b, n / M32)
  {
    assert now[i] == now[i..][0] && now[i..][1..] == now[i + 1..] && a[i..][1..] == a[i + 1..];
  }

  /** One step of the inner multiplication loop. */
  lemma RowStep(now: seq<word>, p: seq<word>, c: seq<word>, x: word, i: nat, j: nat, carry: word)
    requires |now| == |p| == |c| == WIDTH && i + j < WIDTH && now[i + j..] == p[i + j..]
    ensures now[i + j + 1..] == p[i + j + 1..]
    ensures var n := Accumulate(carry, now[i + j], x, c[i]);
            AddMulLimbs(p[i + j..], c[i..], x, carry)
            == [n % M32] + AddMulLimbs(p[i + j + 1..], c[i + 1..], x, n / M32)
  {
    assert now[i + j] == now[i + j..][0] == p[i + j] && now[i + j..][1..] == now[i + j + 1..];
    assert p[i + j..][1..] == p[i + j + 1..] && c[i..][1..] == c[i + 1..];
  }

  lemma NoRow(c: seq<word>, x: word, carry: word)
    ensures AddMulLimbs([], c, x, carry) == []
  {
  }

  lemma ProductStart(a: seq<word>, c: seq<word>)
    ensures 0 + Shl(0, 256) == Val(a[..0]) * Val(c)
  {
    ShlZero(256);
    assert a[..0] == [];
  }

  lemma ShlTimes(x: nat, v: nat, k: nat)
    ensures Shl(x, k) * v == Shl(x * v, k) == v * Shl(x, k)
  {
    hide Shl, Pow2;
    MulMonotonic(0, x, v);
    ShlIsTimes(x, k);
    ShlIsTimes(x * v, k);
    MulAssociates(x, Pow2(k), v);
    MulAssociates(x, v, Pow2(k));
  }

  /** Adding row `j` of the schoolbook product keeps the limbs congruent to it modulo 2^256. */
  lemma ProductRow(a: seq<word>, c: seq<word>, j: nat, p: seq<word>, q: nat) returns (q': nat)
    requires |a| == |c| == |p| == WIDTH && j < WIDTH
    requires Val(p) + Shl(q, 256) == Val(a[..j]) * Val(c)
    ensures Val(p[..j] + AddMulLimbs(p[j..], c, a[j], 0)) + Shl(q', 256) == Val(a[..j + 1]) * Val(c)
  {
    hide Shl, Val, Pow2, AddMulLimbs, AddMulOut;
    var x, n := a[j], WIDTH - j;
    var t, out := AddMulLimbs(p[j..], c, x, 0), AddMulOut(p[j..], c, x, 0);
    var low, high := Val(c[..n]), Val(c[n..]);
    var xlow: nat, xhigh: nat := x * low, x * high;
    AddMulLimbsValue(p[j..], c, x, 0);
    ValConcat(p[..j], t);
    ValSplit(p, j);
    ValSplit(c, n);
    RowValue(x, Val(c), low, high, n);
    assert a[..j + 1] == a[..j] + [x];
    ValConcat(a[..j], [x]);
    OneLimb(x);
    ShlTimes(x, Val(c), 32 * j);
    MulDistributes(Val(a[..j]), Shl(x, 32 * j), Val(c));
    ShlAdds(Val(t), Shl(out, 32 * n), 32 * j);
    ShlAdds(Val(p[j..]), xlow, 32 * j);
    ShlAdds(xlow, Shl(xhigh, 32 * n), 32 * j);
    ShlShl(out, 32 * n, 32 * j);
    ShlShl(xhigh, 32 * n, 32 * j);
    q' := q + out + xhigh;
    ShlAdds(q, out, 256);
    ShlAdds(q + out, xhigh, 256);
  }

  lemma RowValue(x: nat, v: nat, low: nat, high: nat, n: nat)
    requires v == low + Shl(high, 32 * n)
    ensures x * low >= 0 && x * high >= 0 && x * v == x * low + Shl(x * high, 32 * n)
  {
    hide Shl;
    MulMonotonic(0, x, low);
    MulMonotonic(0, x, high);
    ShlTimes(high, x, 32 * n);
    MulDistributes(low, Shl(high, 32 * n), x);
  }

  lemma OneLimb(x: word)
    ensures Val([x]) == x
  {
    assert [x][1..] == [];
  }

  lemma TwoLimbs(s: seq<word>)
    requires |s| == WIDTH && forall i :: 2 <= i < WIDTH ==> s[i] == 0
    ensures Val(s) == s[0] + M32 * s[1]
  {
    assert s[1..][1..] == ZeroLimbs(6);
    ValZeros(6);
    assert Val(s[1..]) == s[1] + M32 * Val(s[1..][1..]);
  }

  lemma LeftStart(a: seq<word>, k: nat, s: nat, p: seq<word>)
    requires s < 32 && p == ZeroLimbs(|a|)
    ensures LeftDone(a, k, s, 0, p)
  {
  }

  lemma RightStart(a: seq<word>, k: nat, s: nat, p: seq<word>)
    requires s < 32 && p == ZeroLimbs(|a|)
    ensures RightDone(a, k, s, 0, p)
  {
  }

  /** The two statements of a left-shift pass. */
  function LeftPass(a: seq<word>, k: nat, s: nat, i: nat, p: seq<word>): seq<word>
    requires s < 32 && i < |a| == |p|
  {
    var q := if i + k + 1 < |p| && s != 0 then p[i + k + 1 := Or32(p[i + k + 1], Shr32(a[i], 32 - s))] else p;
    if i + k < |p| then q[i + k := Or32(q[i + k], Shl32(a[i], s))] else q
  }

  /** The two statements of a right-shift pass. */
  function RightPass(a: seq<word>, k: nat, s: nat, i: nat, p: seq<word>): seq<word>
    requires s < 32 && i < |a| == |p|
  {
    var q := if i >= k + 1 && s != 0 then p[i - k - 1 := Or32(p[i - k - 1], Shl32(a[i], 32 - s))] else p;
    if i >= k then q[i - k := Or32(q[i - k], Shr32(a[i], s))] else q
  }

  lemma LeftKeeps(a: seq<word>, k: nat, s: nat, i: nat, p: seq<word>)
    requires s < 32 && i < |a| && LeftDone(a, k, s, i, p)
    ensures |p| == |a| && LeftDone(a, k, s, i + 1, LeftPass(a, k, s, i, p))
  {
    hide Shl, Shr, Pow2, Or32, Shl32, Shr32;
    LeftStep(a, k, s, i, p);
  }

  lemma RightKeeps(a: seq<word>, k: nat, s: nat, i: nat, p: seq<word>)
    requires s < 32 && i < |a| && RightDone(a, k, s, i, p)
    ensures |p| == |a| && RightDone(a, k, s, i + 1, RightPass(a, k, s, i, p))
  {
    hide Shl, Shr, Pow2, Or32, Shl32, Shr32;
    RightStep(a, k, s, i, p);
  }

  /** What the two statements of a left-shift pass do to limbs i + k and i + k + 1. */
  lemma LeftStep(a: seq<word>, k: nat, s: nat, i: nat, p: seq<word>)
    requires s < 32 && i < |a| == |p|
    requires forall j :: 0 <= j < |p| ==> p[j] == LeftLimb(a, k, s, i, j)
    ensures i + k + 1 < |p| ==> Or32(p[i + k + 1], Shr32(a[i], 32 - s)) == LeftLimb(a, k, s, i + 1, i + k + 1)
    ensures s == 0 && i + k + 1 < |p| ==> p[i + k + 1] == LeftLimb(a, k, s, i + 1, i + k + 1)
    ensures i + k < |p| ==> Or32(p[i + k], Shl32(a[i], s)) == LeftLimb(a, k, s, i + 1, i + k)
  {
    hide Shl, Pow2, Or32, Shl32;
    var c := if i == 0 then 0 else Shr(a[i - 1], 32 - s);
    assert Pow2(s) > 0;
    if i > 0 {
      LimbShift(a[i - 1], s, 0);
    }
    LimbShift(a[i], s, c);
    OrZeroWord(Shr32(a[i], 32 - s));
    if s == 0 {
      ShrWhole(a[i]);
    }
  }

  /** What the two statements of a right-shift pass do to limbs i - k and i - k - 1. */
  lemma RightStep(a: seq<word>, k: nat, s: nat, i: nat, p: seq<word>)
    requires s < 32 && i < |a| == |p|
    requires forall j :: 0 <= j < |p| ==> p[j] == RightLimb(a, k, s, i, j)
    ensures i >= k + 1 ==> Or32(p[i - k - 1], Shl32(a[i], 32 - s)) == RightLimb(a, k, s, i + 1, i - k - 1)
    ensures i >= k + 1 && s == 0 ==> p[i - k - 1] == RightLimb(a, k, s, i + 1, i - k - 1)
    ensures i >= k ==> Or32(p[i - k], Shr32(a[i], s)) == RightLimb(a, k, s, i + 1, i - k)
  {
    hide Shl, Pow2, Or32, Shl32;
    if i >= k + 1 {
      ShrLimbFits(a[i - 1], a[i], s);
    }
    OrZeroWord(Shr32(a[i], s));
    if s == 0 {
      ShlWhole(a[i]);
    }
  }

  lemma ShlWhole(x: word)
    ensures Shl32(x, 32) == 0
  {
    hide Shl;
    Shl32Value(x);
  }

  lemma OrZeroWord(x: word)
    ensures Or32(0, x) == x && Or32(x, 0) == x
  {
    OrZero(x);
  }

  lemma ShrWhole(x: word)
    ensures Shr(x, 32) == 0
  {
    hide Shl, Shr;
    ShlZero(32);
    Pow2Values();
    ShrOfSum(0, x, 32);
  }
}
