/** Little-endian sequences of 32-bit limbs: the numbers they denote, and what shifting, adding and
    multiplying limb by limb does to those numbers. */
module Limbs {
  import opened Bits
  import opened Words

  function Val(s: seq<word>): nat {
    if |s| == 0 then 0 else s[0] + M32 * Val(s[1..])
  }

  lemma ValCons(x: word, t: seq<word>)
    ensures Val([x] + t) == x + M32 * Val(t)
  {
    assert ([x] + t)[1..] == t;
  }

  lemma NoLimbs(c: nat)
    ensures Val([]) == 0 && Shl(c, 0) == c
  {
  }

  lemma ValUncons(s: seq<word>)
    requires |s| > 0
    ensures Val(s) == s[0] + M32 * Val(s[1..])
  {
  }

  function ZeroLimbs(n: nat): (s: seq<word>)
    ensures |s| == n && forall i :: 0 <= i < n ==> s[i] == 0
  {
    seq(n, _ => 0)
  }

  lemma {:induction false} ValZeros(n: nat)
    ensures Val(ZeroLimbs(n)) == 0
  {
    if n > 0 {
      assert ZeroLimbs(n)[1..] == ZeroLimbs(n - 1);
      ValZeros(n - 1);
    }
  }

  /** Every limb counts 32 bits. */
  lemma {:induction false} ValConcat(s: seq<word>, t: seq<word>)
    ensures Val(s + t) == Val(s) + Shl(Val(t), 32 * |s|)
  {
    if |s| == 0 {
      assert s + t == t;
    } else {
      assert (s + t)[1..] == s[1..] + t;
      ValConcat(s[1..], t);
      ShlShl(Val(t), 32 * |s[1..]|, 32);
      Shl32Value(Shl(Val(t), 32 * |s[1..]|));
    }
  }

  lemma {:induction false} ValBelow(s: seq<word>)
    ensures Val(s) < Pow2(32 * |s|)
  {
    if |s| > 0 {
      ValBelow(s[1..]);
      Pow2Add(32 * |s[1..]|, 32);
      Shl32Value(Pow2(32 * |s[1..]|));
    }
  }

  /** Dropping low limbs shifts right, keeping low limbs keeps the remainder. */
  lemma ValSplit(s: seq<word>, n: nat)
    requires n <= |s|
    ensures Val(s) == Val(s[..n]) + Shl(Val(s[n..]), 32 * n)
    ensures Val(s[n..]) == Shr(Val(s), 32 * n)
  {
    hide Shl, Shr, Val, Pow2;
    assert s == s[..n] + s[n..];
    ValConcat(s[..n], s[n..]);
    ValBelow(s[..n]);
    ShrOfSum(Val(s[n..]), Val(s[..n]), 32 * n);
  }

  // ----- shifting by less than a limb -----

  /** Shift left by `k` bits with `c` coming in below. */
  function ShlLimbs(s: seq<word>, k: nat, c: nat): (r: seq<word>)
    requires k < 32 && c < Pow2(k)
    ensures |r| == |s|
  {
    if |s| == 0 then []
    else
      LimbShift(s[0], k, c);
      [Shl32(s[0], k) + c] + ShlLimbs(s[1..], k, Shr(s[0], 32 - k))
  }

  /** A limb shifted left: what stays, what leaves, and room below for the incoming bits. */
  lemma LimbShift(x: word, k: nat, c: nat)
    requires k <= 32 && c < Pow2(k)
    ensures Shl(x, k) == Shl32(x, k) + M32 * Shr(x, 32 - k)
    ensures Shr(x, 32 - k) < Pow2(k) && c < M32
    ensures Shl32(x, k) + c < M32
    ensures Or32(Shl32(x, k), c) == Shl32(x, k) + c == Or32(c, Shl32(x, k))
  {
    hide Shl, Shr, Pow2, BitOr;
    var hi, lo := PartsOf(x, k);
    ShlJoinValue(k, hi, lo);
    ShiftsOfJoin(k, hi, lo);
    ShiftsOfJoin(k, c, lo);
  }

  lemma {:induction false} ShlLimbsAt(s: seq<word>, k: nat, c: nat, i: nat)
    requires k < 32 && c < Pow2(k) && i < |s|
    ensures ShlLimbs(s, k, c)[i] == Shl32(s[i], k) + if i == 0 then c else Shr(s[i - 1], 32 - k)
  {
    if i > 0 {
      LimbShift(s[0], k, c);
      ShlLimbsAt(s[1..], k, Shr(s[0], 32 - k), i - 1);
    }
  }

  /** The bits that leave at the top. */
  function ShlOut(s: seq<word>, k: nat, c: nat): nat
    requires k < 32 && c < Pow2(k)
  {
    if |s| == 0 then c
    else
      LimbShift(s[0], k, c);
      ShlOut(s[1..], k, Shr(s[0], 32 - k))
  }

  lemma {:induction false} ShlLimbsValue(s: seq<word>, k: nat, c: nat)
    requires k < 32 && c < Pow2(k)
    ensures Val(ShlLimbs(s, k, c)) + Shl(ShlOut(s, k, c), 32 * |s|) == Shl(Val(s), k) + c
  {
    if |s| == 0 {
      ShlZero(k);
    } else {
      LimbShift(s[0], k, c);
      var d := Shr(s[0], 32 - k);
      ShlLimbsValue(s[1..], k, d);
      hide Shl32, Shr;
      var out := ShlOut(s[1..], k, d);
      ShlShl(out, 32 * |s[1..]|, 32);
      Shl32Value(Shl(out, 32 * |s[1..]|));
      ShlAdds(s[0], M32 * Val(s[1..]), k);
      ShlOfLimbMultiple(Val(s[1..]), k);
    }
  }

  lemma ShlOfLimbMultiple(x: nat, k: nat)
    ensures Shl(M32 * x, k) == M32 * Shl(x, k)
  {
    Shl32Value(x);
    Shl32Value(Shl(x, k));
    ShlShl(x, 32, k);
    ShlShl(x, k, 32);
  }

  /** Shift right by `k` bits. */
  function ShrLimbs(s: seq<word>, k: nat): (r: seq<word>)
    requires k < 32
    ensures |r| == |s|
  {
    if |s| == 0 then []
    else
      ShrLimbFits(s[0], if |s| == 1 then 0 else s[1], k);
      [Shr(s[0], k) + Shl32(if |s| == 1 then 0 else s[1], 32 - k)] + ShrLimbs(s[1..], k)
  }

  lemma ShrLimbFits(x: word, next: word, k: nat)
    requires k < 32
    ensures Shr(x, k) + Shl32(next, 32 - k) < M32
    ensures Or32(Shr32(x, k), Shl32(next, 32 - k)) == Shr(x, k) + Shl32(next, 32 - k)
    ensures Or32(Shl32(next, 32 - k), Shr32(x, k)) == Shr(x, k) + Shl32(next, 32 - k)
    ensures Shr(x, k) < Pow2(32 - k)
  {
    hide Shl, Shr, Pow2, BitOr;
    LimbShift(x, 32 - k, 0);
    LimbShift(next, 32 - k, Shr(x, k));
  }

  lemma {:induction false} ShrLimbsAt(s: seq<word>, k: nat, i: nat)
    requires k < 32 && i < |s|
    ensures ShrLimbs(s, k)[i] == Shr(s[i], k) + Shl32(if i + 1 == |s| then 0 else s[i + 1], 32 - k)
  {
    if i > 0 {
      ShrLimbsAt(s[1..], k, i - 1);
    }
  }

  lemma ShrOfLimbAbove(x: word, r: nat, k: nat)
    requires k < 32
    ensures Shr(x + M32 * r, k) == Shr(x, k) + Shl(r, 32 - k)
  {
    hide Shl, Shr, Pow2;
    var l := Split(x, k);
    Shl32Value(r);
    ShlShl(r, 32 - k, k);
    ShlAdds(Shr(x, k), Shl(r, 32 - k), k);
    ShrOfSum(Shr(x, k) + Shl(r, 32 - k), l, k);
  }

  lemma ShlIntoLimb(x: word, r: nat, k: nat)
    requires k < 32
    ensures Shl(x + M32 * r, 32 - k) == Shl32(x, 32 - k) + M32 * Shr(x + M32 * r, k)
  {
    hide Shl, Shr, Pow2;
    ShrOfLimbAbove(x, r, k);
    ShlAdds(x, M32 * r, 32 - k);
    ShlOfLimbMultiple(r, 32 - k);
    LimbShift(x, 32 - k, 0);
  }

  lemma {:induction false} ShrZero(k: nat)
    ensures Shr(0, k) == 0
  {
    if k > 0 {
      ShrZero(k - 1);
    }
  }

  lemma {:induction false} ShrLimbsValue(s: seq<word>, k: nat)
    requires k < 32
    ensures Val(ShrLimbs(s, k)) == Shr(Val(s), k)
  {
    if |s| == 0 {
      ShrZero(k);
    } else {
      ShrLimbsValue(s[1..], k);
      ShrOfLimbAbove(s[0], Val(s[1..]), k);
      if |s| == 1 {
        ShlIntoLimb(0, 0, k);
      } else {
        ShlIntoLimb(s[1], Val(s[1..][1..]), k);
      }
      hide Shl, Shr, Shl32;
    }
  }

  // ----- order and length -----

  /** The highest differing limb decides. */
  lemma {:induction false} ValOrder(a: seq<word>, b: seq<word>, i: nat)
    requires |a| == |b| && i < |a| && a[i + 1..] == b[i + 1..] && a[i] < b[i]
    ensures Val(a) < Val(b)
  {
    if i > 0 {
      assert a[1..][i..] == a[i + 1..] && b[1..][i..] == b[i + 1..];
      ValOrder(a[1..], b[1..], i - 1);
    }
  }

  lemma {:induction false} BitLengthOfSum(t: nat, l: nat, k: nat)
    requires t > 0 && l < Pow2(k)
    ensures BitLength(Shl(t, k) + l) == k + BitLength(t)
  {
    if k > 0 {
      BitLengthOfSum(t, l / 2, k - 1);
      assert Shl(t, k) > 0 by { ShlMonotonic(1, t, k); Pow2IsShl(k); }
    }
  }

  lemma BitLengthAtLimb(s: seq<word>, p: nat)
    requires p < |s| && s[p] != 0 && forall i :: p < i < |s| ==> s[i] == 0
    ensures BitLength(Val(s)) == 32 * p + BitLength(s[p])
  {
    hide Shl, Shr, Pow2, BitLength;
    ValSplit(s, p);
    assert s[p..][1..] == ZeroLimbs(|s| - p - 1);
    ValZeros(|s| - p - 1);
    assert Val(s[p..]) == s[p];
    ValBelow(s[..p]);
    BitLengthOfSum(s[p], Val(s[..p]), 32 * p);
  }

  lemma {:induction false} BitLengthIs(x: nat, n: nat)
    requires Shr(x, n) == 1
    ensures BitLength(x) == n + 1
  {
    if n > 0 {
      BitLengthIs(x / 2, n - 1);
      assert x > 0 by { ShrZero(n); }
    }
  }

  /** `x & (1 << n)` tests bit `n`. */
  lemma {:induction false} AndTestsBit(x: nat, n: nat)
    ensures BitAnd(x, Pow2(n)) != 0 <==> Shr(x, n) % 2 == 1
    decreases n
  {
    if n == 0 {
      AndZero(x / 2);
    } else {
      AndTestsBit(x / 2, n - 1);
    }
  }

  lemma {:induction false} AndZero(x: nat)
    ensures BitAnd(x, 0) == 0
  {
    if x != 0 {
      AndZero(x / 2);
    }
  }

  lemma {:induction false} ShrStep(x: nat, n: nat)
    ensures Shr(x, n + 1) == Shr(x, n) / 2
  {
    if n > 0 {
      ShrStep(x / 2, n - 1);
    }
  }
}
