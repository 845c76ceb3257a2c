/** 32-bit word primitives (libcrypto/bitwise.hpp) and the device-side spellings of the same
    operations in the generated kernels. A `uint32_t` is a natural number below 2^32; every
    operation that can wrap says so. */
module Words {
  import opened Arith
  import opened Bits

  const M32: nat := 0x1_0000_0000

  const M64: nat := 0x1_0000_0000_0000_0000

  type word = x: int | 0 <= x < M32

  type word64 = x: int | 0 <= x < M64

  const FNV_PRIME: word := 0x01000193
  const FNV_OFFSET_BASIS: word := 0x811c9dc5

  function Add32(a: word, b: word): word {
    (a + b) % M32
  }

  function Mul32(a: word, b: word): word {
    (a * b) % M32
  }

  function MulHi32(a: word, b: word): (r: word) {
    ProductHigh(a, b);
    (a * b) / M32
  }

  lemma ProductHigh(a: word, b: word)
    ensures 0 <= (a * b) / M32 < M32
  {
    MulMonotonic(0, a, b);
    MulMonotonic(a, M32 - 1, b);
    DivBelow(a * b, M32, M32);
  }

  function Or32(a: word, b: word): word {
    WordBound(a, b);
    BitOr(a, b)
  }

  function Xor32(a: word, b: word): word {
    WordBound(a, b);
    BitXor(a, b)
  }

  function And32(a: word, b: word): word {
    WordBound(a, b);
    BitAnd(a, b)
  }

  lemma WordBound(a: word, b: word)
    ensures BitOr(a, b) < M32 && BitXor(a, b) < M32 && BitAnd(a, b) < M32
  {
    Pow2Values();
    BitsBound(a, b, 32);
  }

  /** `x << k`, bits past the top lost. */
  function Shl32(x: word, k: nat): word {
    Shl(x, k) % M32
  }

  function Shr32(x: word, k: nat): (r: word)
    ensures r == Shr(x, k)
  {
    ShrShrinks(x, k);
    Shr(x, k)
  }

  lemma {:induction false} ShrShrinks(x: nat, k: nat)
    ensures Shr(x, k) <= x
  {
    if k > 0 {
      ShrShrinks(x / 2, k - 1);
    }
  }

  /** Only the low five bits of the amount count. */
  function Rotl32(n: word, s: word): word {
    RotlBy(n, s % 32)
  }

  function Rotr32(n: word, s: word): word {
    RotrBy(n, s % 32)
  }

  function RotlBy(n: word, k: nat): word
    requires k < 32
  {
    Or32(Shl32(n, k), Shr32(n, (32 - k) % 32))
  }

  function RotrBy(n: word, k: nat): word
    requires k < 32
  {
    Or32(Shr32(n, k), Shl32(n, (32 - k) % 32))
  }

  /** The number of bits of `v`: the position of its highest one bit plus one. */
  function BitLength(v: nat): nat {
    if v == 0 then 0 else 1 + BitLength(v / 2)
  }

  function Ones(v: nat): nat {
    if v == 0 then 0 else v % 2 + Ones(v / 2)
  }

  lemma {:induction false} CountsFit(v: nat, n: nat)
    requires v < Pow2(n)
    ensures BitLength(v) <= n && Ones(v) <= n
    decreases n
  {
    if v > 0 {
      CountsFit(v / 2, n - 1);
    }
  }

  function Clz32(v: word): (r: word)
    ensures r <= 32
  {
    Pow2Values();
    CountsFit(v, 32);
    32 - BitLength(v)
  }

  function Popcnt32(v: word): (r: word)
    ensures r <= 32
  {
    Pow2Values();
    CountsFit(v, 32);
    Ones(v)
  }

  function Min32(a: word, b: word): word {
    if b < a then b else a
  }

  function Fnv1(u: word, v: word): word {
    Xor32(Mul32(u, FNV_PRIME), v)
  }

  function Fnv1a(u: word, v: word): word {
    Mul32(Xor32(u, v), FNV_PRIME)
  }

  /** How the target of a generated kernel rotates a word: the shift-and-or macros used below
      compute capability 3.5, the funnel shifts used from there on, and OpenCL's `rotate`. The macros
      shift by 32 when the amount is 0 modulo 32, which C++ leaves undefined: what the device yields for
      it to the right and to the left are `shr` and `shl`. */
  datatype Platform = CudaMacro(shr: word -> word, shl: word -> word) | CudaFunnel | OpenClRotate
  {
    /** The undefined shift does not show for `x`. */
    predicate Keeps(x: word) {
      CudaMacro? ==> Or32(x, shr(x)) == x && Or32(x, shl(x)) == x
    }

    /** It never shows; devices that yield zero are such. */
    ghost predicate Harmless() {
      forall x: word :: Keeps(x)
    }
  }

  /** `ROTL32(x, n)` as the kernel's prelude defines it. */
  function DeviceRotl(p: Platform, x: word, n: word): word {
    match p
    case CudaMacro(shr, _) => Or32(Shl32(x, n % 32), if n % 32 == 0 then shr(x) else Shr32(x, 32 - n % 32))
    case CudaFunnel => FunnelShiftLeft(x, x, n)
    case OpenClRotate => ClRotate(x, n)
  }

  /** `ROTR32(x, n)` as the kernel's prelude defines it. */
  function DeviceRotr(p: Platform, x: word, n: word): word {
    match p
    case CudaMacro(_, shl) => Or32(Shr32(x, n % 32), if n % 32 == 0 then shl(x) else Shl32(x, 32 - n % 32))
    case CudaFunnel => FunnelShiftRight(x, x, n)
    case OpenClRotate => ClRotate(x, (32 - n) % M32)
  }

  /** The high word of hi:lo shifted left by n mod 32. */
  function FunnelShiftLeft(lo: word, hi: word, n: word): word {
    (Shl(hi * M32 + lo, n % 32) / M32) % M32
  }

  /** The low word of hi:lo shifted right by n mod 32. */
  function FunnelShiftRight(lo: word, hi: word, n: word): word {
    Shr(hi * M32 + lo, n % 32) % M32
  }

  /** OpenCL `rotate`: the top n mod 32 bits move below the others. */
  function ClRotate(x: word, n: word): word {
    ClRotateBy(x, n % 32)
  }

  function ClRotateBy(x: word, k: nat): word
    requires k < 32
  {
    (Shl(x, k) % M32 + Shr(x, 32 - k)) % M32
  }

  function DeviceMin(a: word, b: word): word {
    if a < b then a else b
  }

  // A word as its top k bits `hi` above its other bits `lo`.

  ghost predicate Parts(k: nat, hi: nat, lo: nat) {
    k <= 32 && hi < Pow2(k) && lo < Pow2(32 - k)
  }

  ghost function Join(k: nat, hi: nat, lo: nat): (x: word)
    requires Parts(k, hi, lo)
  {
    ShlBelow(hi, 32 - k, k);
    Pow2Values();
    Shl(hi, 32 - k) + lo
  }

  lemma PartsOf(x: word, k: nat) returns (hi: nat, lo: nat)
    requires k <= 32
    ensures Parts(k, hi, lo) && x == Join(k, hi, lo)
  {
    lo := Split(x, 32 - k);
    hi := Shr(x, 32 - k);
    if hi >= Pow2(k) {
      Pow2Add(k, 32 - k);
      ShlMonotonic(Pow2(k), hi, 32 - k);
      Pow2Values();
      assert false;
    }
  }

  lemma ShlJoinValue(k: nat, hi: nat, lo: nat)
    requires k <= 32
    ensures Shl(Shl(hi, 32 - k) + lo, k) == M32 * hi + Shl(lo, k)
  {
    ShlAdds(Shl(hi, 32 - k), lo, k);
    ShlShl(hi, 32 - k, k);
    Shl32Value(hi);
  }

  /** Shifting left keeps the low part, shifting right keeps the high part. */
  lemma ShiftsOfJoin(k: nat, hi: nat, lo: nat)
    requires Parts(k, hi, lo)
    ensures Shl(lo, k) < M32 && Shl32(Join(k, hi, lo), k) == Shl(lo, k)
    ensures hi < M32 && Shr(Join(k, hi, lo), 32 - k) == hi
    ensures Or32(Shl(lo, k), hi) == Join(32 - k, lo, hi) == Or32(hi, Shl(lo, k))
  {
    hide Shl, Shr, Pow2, BitOr;
    var r := Join(32 - k, lo, hi);
    ShlJoinValue(k, hi, lo);
    DivModIs(Shl(Join(k, hi, lo), k), hi, Shl(lo, k), M32);
    ShrOfSum(hi, lo, 32 - k);
    OrDisjoint(lo, hi, k);
  }

  lemma NoRotation(x: word)
    ensures RotlBy(x, 0) == x && RotrBy(x, 0) == x
  {
    hide BitOr;
    assert Shl32(x, 0) == x && Shr32(x, 0) == x;
    OrSelf(x);
  }

  lemma WholeJoin(hi: nat, lo: nat)
    requires Parts(0, hi, lo)
    ensures Join(0, hi, lo) == Join(32, lo, hi) == lo && hi == 0
  {
    Shl32Value(0);
  }

  lemma RotlJoin(k: nat, hi: nat, lo: nat)
    requires k < 32 && Parts(k, hi, lo)
    ensures RotlBy(Join(k, hi, lo), k) == Join(32 - k, lo, hi)
  {
    hide Shl, Shr, Pow2, BitOr;
    if k == 0 {
      NoRotation(Join(k, hi, lo));
      WholeJoin(hi, lo);
    } else {
      ShiftsOfJoin(k, hi, lo);
    }
  }

  lemma RotrJoin(k: nat, hi: nat, lo: nat)
    requires k < 32 && Parts(32 - k, hi, lo)
    ensures RotrBy(Join(32 - k, hi, lo), k) == Join(k, lo, hi)
  {
    hide Shl, Shr, Pow2, BitOr;
    if k == 0 {
      NoRotation(Join(32 - k, hi, lo));
      WholeJoin(lo, hi);
    } else {
      ShiftsOfJoin(32 - k, hi, lo);
    }
  }

  lemma RotrUndoesRotl(x: word, s: word)
    ensures Rotr32(Rotl32(x, s), s) == x
  {
    hide Shl, Shr, Pow2, BitOr;
    var hi, lo := PartsOf(x, s % 32);
    RotlJoin(s % 32, hi, lo);
    RotrJoin(s % 32, lo, hi);
  }

  lemma RotlUndoesRotr(x: word, s: word)
    ensures Rotl32(Rotr32(x, s), s) == x
  {
    hide Shl, Shr, Pow2, BitOr;
    var hi, lo := PartsOf(x, 32 - s % 32);
    RotrJoin(s % 32, hi, lo);
    RotlJoin(s % 32, lo, hi);
  }

  lemma FunnelLeftJoin(k: nat, hi: nat, lo: nat)
    requires k < 32 && Parts(k, hi, lo)
    ensures var x := Join(k, hi, lo); (Shl(x * M32 + x, k) / M32) % M32 == Join(32 - k, lo, hi)
  {
    hide Shl, Shr, Pow2, BitOr;
    var x := Join(k, hi, lo);
    var r := Join(32 - k, lo, hi);
    Shl32Value(x);
    ShlAdds(x * M32, x, k);
    ShlShl(x, 32, k);
    ShlShl(x, k, 32);
    Shl32Value(Shl(x, k));
    ShlJoinValue(k, hi, lo);
    DivModIs(Shl(x * M32 + x, k), Shl(x, k) + hi, Shl(lo, k), M32);
    DivModIs(Shl(x, k) + hi, hi, r, M32);
  }

  lemma FunnelRightJoin(k: nat, hi: nat, lo: nat)
    requires k < 32 && Parts(32 - k, hi, lo)
    ensures var x := Join(32 - k, hi, lo); Shr(x * M32 + x, k) % M32 == Join(k, lo, hi)
  {
    hide Shl, Shr, Pow2, BitOr;
    var x := Join(32 - k, hi, lo);
    var r := Join(k, lo, hi);
    // the doubled word is (hi:r) shifted left by k, plus lo
    ShlAdds(Shl(hi, 32), r, k);
    ShlShl(hi, 32, k);
    ShlShl(hi, k, 32);
    ShlJoinValue(k, lo, hi);
    Shl32Value(Shl(hi, k));
    Shl32Value(hi);
    ShrOfSum(hi * M32 + r, lo, k);
    DivModIs(hi * M32 + r, hi, r, M32);
  }

  lemma ClRotateJoin(k: nat, hi: nat, lo: nat)
    requires k < 32 && Parts(k, hi, lo)
    ensures ClRotateBy(Join(k, hi, lo), k) == Join(32 - k, lo, hi)
  {
    hide Shl, Shr, Pow2, BitOr;
    ShiftsOfJoin(k, hi, lo);
  }

  /** Every spelling of ROTL32 is the host's rotation, exactly unless the undefined shift shows. */
  lemma DeviceRotlAgrees(p: Platform, x: word, n: word)
    ensures DeviceRotl(p, x, n) == Rotl32(x, n) <==> (p.CudaMacro? && n % 32 == 0 ==> Or32(x, p.shr(x)) == x)
  {
    hide Shl, Shr, Pow2, BitOr, Or32;
    var hi, lo := PartsOf(x, n % 32);
    RotlJoin(n % 32, hi, lo);
    match p
    case CudaMacro(shr, _) =>
      if n % 32 == 0 {
        NoRotation(x);
        NoShift(x);
      } else {
        ShiftsOfJoin(n % 32, hi, lo);
      }
    case CudaFunnel => FunnelLeftJoin(n % 32, hi, lo);
    case OpenClRotate => ClRotateJoin(n % 32, hi, lo);
  }

  /** Every spelling of ROTR32 is the host's rotation, exactly unless the undefined shift shows. */
  lemma DeviceRotrAgrees(p: Platform, x: word, n: word)
    ensures DeviceRotr(p, x, n) == Rotr32(x, n) <==> (p.CudaMacro? && n % 32 == 0 ==> Or32(x, p.shl(x)) == x)
  {
    hide Shl, Shr, Pow2, BitOr, Or32;
    var hi, lo := PartsOf(x, 32 - n % 32);
    RotrJoin(n % 32, hi, lo);
    match p
    case CudaMacro(_, shl) =>
      if n % 32 == 0 {
        NoRotation(x);
        NoShift(x);
      } else {
        ShiftsOfJoin(32 - n % 32, hi, lo);
      }
    case CudaFunnel => FunnelRightJoin(n % 32, hi, lo);
    case OpenClRotate =>
      BackAmount(n);
      if n % 32 == 0 {
        WholeJoin(lo, hi);
        ClRotateJoin(0, lo, hi);
      } else {
        ClRotateJoin(32 - n % 32, hi, lo);
      }
  }

  lemma NoShift(x: word)
    ensures Shl32(x, 0) == x && Shr32(x, 0) == x
  {
  }

  lemma BackAmount(n: word)
    ensures ((32 - n) % M32) % 32 == (32 - n % 32) % 32
  {
  }
}
