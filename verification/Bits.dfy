/** Shifts, powers of two and bitwise operations on natural numbers, one bit at a time. */
module Bits {

  function Shl(x: nat, k: nat): nat {
    if k == 0 then x else 2 * Shl(x, k - 1)
  }

  function Shr(x: nat, k: nat): nat {
    if k == 0 then x else Shr(x / 2, k - 1)
  }

  function Pow2(k: nat): (p: nat)
    ensures p > 0
  {
    if k == 0 then 1 else 2 * Pow2(k - 1)
  }

  // Shifting left is multiplication, shifting right is division.

  lemma {:induction false} ShlIsTimes(x: nat, k: nat)
    ensures Shl(x, k) == x * Pow2(k)
  {
    if k > 0 {
      ShlIsTimes(x, k - 1);
    }
  }

  lemma {:induction false} ShlAdds(x: nat, y: nat, k: nat)
    ensures Shl(x + y, k) == Shl(x, k) + Shl(y, k)
  {
    if k > 0 {
      ShlAdds(x, y, k - 1);
    }
  }

  lemma {:induction false} ShlShl(x: nat, a: nat, b: nat)
    ensures Shl(Shl(x, a), b) == Shl(x, a + b)
  {
    if b > 0 {
      ShlShl(x, a, b - 1);
    }
  }

  lemma {:induction false} ShrShr(x: nat, a: nat, b: nat)
    ensures Shr(Shr(x, a), b) == Shr(x, a + b)
  {
    if a > 0 {
      ShrShr(x / 2, a - 1, b);
    }
  }

  lemma {:induction false} ShlDouble(x: nat, k: nat)
    ensures Shl(2 * x, k) == 2 * Shl(x, k)
  {
    if k > 0 {
      ShlDouble(x, k - 1);
    }
  }

  lemma {:induction false} ShlBelow(x: nat, k: nat, n: nat)
    requires x < Pow2(n)
    ensures Shl(x, k) + Pow2(k) <= Pow2(n + k)
  {
    if k > 0 {
      ShlBelow(x, k - 1, n);
    }
  }

  lemma {:induction false} ShlMonotonic(x: nat, y: nat, k: nat)
    requires x <= y
    ensures Shl(x, k) <= Shl(y, k)
  {
    if k > 0 {
      ShlMonotonic(x, y, k - 1);
    }
  }

  /** Shifting right keeps what was shifted in above `k` bits. */
  lemma {:induction false} ShrOfSum(h: nat, l: nat, k: nat)
    requires l < Pow2(k)
    ensures Shr(Shl(h, k) + l, k) == h
  {
    if k > 0 {
      ShrOfSum(h, l / 2, k - 1);
    }
  }

  /** Every number splits at bit `k`. */
  lemma {:induction false} Split(x: nat, k: nat) returns (l: nat)
    ensures l < Pow2(k) && x == Shl(Shr(x, k), k) + l
  {
    if k == 0 {
      l := 0;
    } else {
      var l' := Split(x / 2, k - 1);
      l := 2 * l' + x % 2;
    }
  }

  lemma {:induction false} Pow2IsShl(k: nat)
    ensures Pow2(k) == Shl(1, k)
  {
    if k > 0 {
      Pow2IsShl(k - 1);
    }
  }

  lemma Pow2Add(a: nat, b: nat)
    ensures Pow2(a + b) == Shl(Pow2(a), b)
  {
    Pow2IsShl(a);
    Pow2IsShl(a + b);
    ShlShl(1, a, b);
  }

  lemma {:induction false} Pow2Monotonic(a: nat, b: nat)
    requires a <= b
    ensures Pow2(a) <= Pow2(b)
  {
    if a < b {
      Pow2Monotonic(a, b - 1);
    }
  }

  lemma Shl8(x: nat)
    ensures Shl(x, 8) == 256 * x
  {
    assert Shl(x, 2) == 2 * Shl(x, 1) == 4 * x;
    assert Shl(x, 4) == 2 * Shl(x, 3) == 16 * x;
    assert Shl(x, 6) == 2 * Shl(x, 5) == 64 * x;
    assert Shl(x, 8) == 2 * Shl(x, 7) == 256 * x;
  }

  lemma Shl32Value(x: nat)
    ensures Shl(x, 32) == 0x1_0000_0000 * x
  {
    Shl8(x);
    Shl8(Shl(x, 8));
    ShlShl(x, 8, 8);
    Shl8(Shl(x, 16));
    ShlShl(x, 16, 8);
    Shl8(Shl(x, 24));
    ShlShl(x, 24, 8);
  }

  lemma Pow2Values()
    ensures Pow2(5) == 32 && Pow2(8) == 256 && Pow2(32) == 0x1_0000_0000
    ensures Pow2(64) == 0x1_0000_0000_0000_0000
  {
    Shl8(1);
    Pow2IsShl(8);
    Shl32Value(1);
    Pow2IsShl(32);
    Shl32Value(0x1_0000_0000);
    Pow2Add(32, 32);
  }

  function BitOr(x: nat, y: nat): nat
    decreases x + y
  {
    if x == 0 && y == 0 then 0
    else 2 * BitOr(x / 2, y / 2) + (if x % 2 == 1 || y % 2 == 1 then 1 else 0)
  }

  function BitXor(x: nat, y: nat): nat
    decreases x + y
  {
    if x == 0 && y == 0 then 0
    else 2 * BitXor(x / 2, y / 2) + (if x % 2 != y % 2 then 1 else 0)
  }

  function BitAnd(x: nat, y: nat): nat
    decreases x + y
  {
    if x == 0 && y == 0 then 0
    else 2 * BitAnd(x / 2, y / 2) + (if x % 2 == 1 && y % 2 == 1 then 1 else 0)
  }

  /** Bit `z` of a number. */
  predicate BitAt(n: nat, z: nat) {
    Shr(n, z) % 2 == 1
  }

  /** The operations work bit by bit. */
  lemma {:induction false} BitsOf(x: nat, y: nat, z: nat)
    ensures BitAt(BitAnd(x, y), z) <==> BitAt(x, z) && BitAt(y, z)
    ensures BitAt(BitOr(x, y), z) <==> BitAt(x, z) || BitAt(y, z)
    ensures BitAt(BitXor(x, y), z) <==> BitAt(x, z) != BitAt(y, z)
  {
    hide BitAnd, BitOr, BitXor;
    LowestOfAnd(x, y);
    LowestOfOr(x, y);
    LowestOfXor(x, y);
    if z > 0 {
      BitsOf(x / 2, y / 2, z - 1);
    }
  }

  /** The lowest bit and the others. */
  lemma {:induction false} LowestOfAnd(x: nat, y: nat)
    ensures BitAnd(x, y) / 2 == BitAnd(x / 2, y / 2) && BitAnd(x, y) % 2 == (if x % 2 == 1 then y % 2 else 0)
  {
  }

  lemma {:induction false} LowestOfOr(x: nat, y: nat)
    ensures BitOr(x, y) / 2 == BitOr(x / 2, y / 2) && BitOr(x, y) % 2 == (if x % 2 == 1 then 1 else y % 2)
  {
  }

  lemma {:induction false} LowestOfXor(x: nat, y: nat)
    ensures BitXor(x, y) / 2 == BitXor(x / 2, y / 2) && BitXor(x, y) % 2 == (if x % 2 == y % 2 then 0 else 1)
  {
  }

  /** Adding a multiple of 2^k leaves the bits below `k`. */
  lemma {:induction false} BitsBelow(h: nat, l: nat, k: nat, z: nat)
    requires z < k
    ensures BitAt(Shl(h, k) + l, z) <==> BitAt(l, z)
  {
    if z > 0 {
      assert (Shl(h, k) + l) / 2 == Shl(h, k - 1) + l / 2;
      BitsBelow(h, l / 2, k - 1, z - 1);
    }
  }

  /** A number below 2^k has no bit from `k` on. */
  lemma {:induction false} NoBitsFrom(l: nat, k: nat, z: nat)
    requires l < Pow2(k) && k <= z
    ensures !BitAt(l, z)
    decreases z
  {
    if z > 0 {
      NoBitsFrom(l / 2, if k == 0 then 0 else k - 1, z - 1);
    }
  }

  /** Shifting left moves bit `z` to `z + k`. */
  lemma {:induction false} BitsShifted(x: nat, k: nat, z: nat)
    ensures BitAt(Shl(x, k), z) <==> z >= k && BitAt(x, z - k)
  {
    if k > 0 && z > 0 {
      BitsShifted(x, k - 1, z - 1);
    }
  }

  /** No operation sets a bit above those of its operands. */
  lemma {:induction false} BitsBound(x: nat, y: nat, n: nat)
    requires x < Pow2(n) && y < Pow2(n)
    ensures BitOr(x, y) < Pow2(n) && BitXor(x, y) < Pow2(n) && BitAnd(x, y) < Pow2(n)
    decreases n
  {
    if n > 0 {
      BitsBound(x / 2, y / 2, n - 1);
    }
  }

  lemma ShiftByNone(x: nat)
    ensures Shl(x, 0) == x && Shr(x, 0) == x
  {
  }

  lemma {:induction false} ShlZero(k: nat)
    ensures Shl(0, k) == 0
  {
    if k > 0 {
      ShlZero(k - 1);
    }
  }

  lemma Pow2Double(k: nat)
    ensures Pow2(k + 1) == 2 * Pow2(k)
  {
  }

  lemma {:induction false} XorZero(x: nat)
    ensures BitXor(x, 0) == x
  {
    if x > 0 {
      XorZero(x / 2);
    }
  }

  lemma {:induction false} XorCommutes(x: nat, y: nat)
    ensures BitXor(x, y) == BitXor(y, x)
  {
    if x + y > 0 {
      XorCommutes(x / 2, y / 2);
    }
  }

  lemma {:induction false} XorCancels(x: nat, y: nat)
    ensures BitXor(BitXor(x, y), y) == x
    decreases x + y
  {
    if x != 0 || y != 0 {
      XorCancels(x / 2, y / 2);
      var z := BitXor(x, y);
      assert z / 2 == BitXor(x / 2, y / 2);
    }
  }

  lemma {:induction false} OrSelf(x: nat)
    ensures BitOr(x, x) == x
  {
    if x != 0 {
      OrSelf(x / 2);
    }
  }

  lemma {:induction false} OrZero(x: nat)
    ensures BitOr(x, 0) == x && BitOr(0, x) == x
  {
    if x != 0 {
      OrZero(x / 2);
    }
  }

  /** `|` on operands that share no bit is addition. */
  lemma {:induction false} OrDisjoint(h: nat, l: nat, k: nat)
    requires l < Pow2(k)
    ensures BitOr(Shl(h, k), l) == Shl(h, k) + l == BitOr(l, Shl(h, k))
    decreases k
  {
    if k == 0 {
      OrZero(h);
    } else {
      OrDisjoint(h, l / 2, k - 1);
    }
  }
}
