/** Addition, negation and multiplication limb by limb, with the numbers they denote. */
module LimbArith {
  import opened Arith
  import opened Bits
  import opened Words
  import opened Limbs

  // ----- addition -----

  function AddLimbs(a: seq<word>, b: seq<word>, c: nat): (r: seq<word>)
    requires |a| == |b| && c <= 1
    ensures |r| == |a|
  {
    if |a| == 0 then []
    else [(c + a[0] + b[0]) % M32] + AddLimbs(a[1..], b[1..], (c + a[0] + b[0]) / M32)
  }

  function AddOut(a: seq<word>, b: seq<word>, c: nat): (r: nat)
    requires |a| == |b| && c <= 1
    ensures r <= 1
  {
    if |a| == 0 then c else AddOut(a[1..], b[1..], (c + a[0] + b[0]) / M32)
  }

  /** One limb of a carry chain: what stays plus the carry out, the latter worth 2^(32(n+1)). */
  lemma CarryUp(out: nat, n: nat)
    ensures Shl(out, 32 * (n + 1)) == M32 * Shl(out, 32 * n)
  {
    ShlShl(out, 32 * n, 32);
    Shl32Value(Shl(out, 32 * n));
  }

  lemma {:induction false} AddLimbsValue(a: seq<word>, b: seq<word>, c: nat)
    requires |a| == |b| && c <= 1
    ensures Val(AddLimbs(a, b, c)) + Shl(AddOut(a, b, c), 32 * |a|) == Val(a) + Val(b) + c
  {
    hide Shl, Val;
    if |a| == 0 {
      NoLimbs(c);
    } else {
      var n := c + a[0] + b[0];
      AddLimbsValue(a[1..], b[1..], n / M32);
      var t, out := AddLimbs(a[1..], b[1..], n / M32), AddOut(a[1..], b[1..], n / M32);
      CarryUp(out, |a| - 1);
      ValCons(n % M32, t);
      ValUncons(a);
      ValUncons(b);
      ProductStep(n - c, Val(a[1..]) + Val(b[1..]), c, Val(t), Shl(out, 32 * (|a| - 1)));
    }
  }

  // ----- negation -----

  function NotLimbs(a: seq<word>): (r: seq<word>)
    ensures |r| == |a|
  {
    if |a| == 0 then [] else [M32 - 1 - a[0]] + NotLimbs(a[1..])
  }

  lemma {:induction false} NotLimbsAt(a: seq<word>, i: nat)
    requires i < |a|
    ensures NotLimbs(a)[i] == M32 - 1 - a[i]
  {
    if i > 0 {
      NotLimbsAt(a[1..], i - 1);
    }
  }

  lemma {:induction false} NotLimbsValue(a: seq<word>)
    ensures Val(NotLimbs(a)) + Val(a) + 1 == Pow2(32 * |a|)
  {
    if |a| > 0 {
      NotLimbsValue(a[1..]);
      Pow2IsShl(32 * |a|);
      Pow2IsShl(32 * |a[1..]|);
      CarryUp(1, |a| - 1);
    }
  }

  function IncLimbs(a: seq<word>): (r: seq<word>)
    ensures |r| == |a|
  {
    if |a| == 0 then []
    else if a[0] == M32 - 1 then [0] + IncLimbs(a[1..])
    else [a[0] + 1] + a[1..]
  }

  lemma {:induction false} IncLimbsValue(a: seq<word>)
    ensures Val(IncLimbs(a)) == if Val(a) + 1 == Pow2(32 * |a|) then 0 else Val(a) + 1
  {
    if |a| > 0 {
      IncLimbsValue(a[1..]);
      Pow2IsShl(32 * |a|);
      Pow2IsShl(32 * |a[1..]|);
      CarryUp(1, |a| - 1);
      hide Pow2, Shl;
      assert a[0] < M32 - 1 ==> IncLimbs(a)[1..] == a[1..];
    }
  }

  // ----- multiplication -----

  /** 64 bits hold a product of two words plus two more words. */
  lemma ProductFits(x: word, y: word, p: word, c: word)
    ensures 0 <= c + p + x * y < M64 && (c + p + x * y) / M32 < M32
  {
    MulMonotonic(0, x, y);
    MulMonotonic(x, M32 - 1, y);
    DivBelow(c + p + x * y, M32, M32);
  }

  function MulLimbs(a: seq<word>, b: word, c: word): (r: seq<word>)
    ensures |r| == |a|
  {
    if |a| == 0 then []
    else
      ProductFits(b, a[0], 0, c);
      [(c + b * a[0]) % M32] + MulLimbs(a[1..], b, (c + b * a[0]) / M32)
  }

  function MulOut(a: seq<word>, b: word, c: word): word {
    if |a| == 0 then c
    else
      ProductFits(b, a[0], 0, c);
      MulOut(a[1..], b, (c + b * a[0]) / M32)
  }

  lemma Distribute(b: int, x: int, r: int)
    ensures b * (x + M32 * r) == b * x + M32 * (b * r)
  {
  }

  /** One limb of a product: `p` is the limb's own product, `q` that of the limbs above. */
  lemma ProductStep(p: nat, q: nat, c: nat, v: nat, s: nat)
    requires v + s == q + (c + p) / M32
    ensures (c + p) % M32 + M32 * v + M32 * s == p + M32 * q + c
  {
  }

  lemma {:induction false} MulLimbsValue(a: seq<word>, b: word, c: word)
    ensures Val(MulLimbs(a, b, c)) + Shl(MulOut(a, b, c), 32 * |a|) == b * Val(a) + c
  {
    hide Shl, Val;
    if |a| == 0 {
      NoLimbs(c);
    } else {
      ProductFits(b, a[0], 0, c);
      var p: nat := b * a[0];
      MulLimbsValue(a[1..], b, (c + p) / M32);
      var t, out := MulLimbs(a[1..], b, (c + p) / M32), MulOut(a[1..], b, (c + p) / M32);
      CarryUp(out, |a| - 1);
      ValCons((c + p) % M32, t);
      ValUncons(a);
      Distribute(b, a[0], Val(a[1..]));
      MulMonotonic(0, b, Val(a[1..]));
      ProductStep(p, b * Val(a[1..]), c, Val(t), Shl(out, 32 * (|a| - 1)));
    }
  }

  /** Add `x` times the low limbs of `b` into `p`. */
  function AddMulLimbs(p: seq<word>, b: seq<word>, x: word, c: word): (r: seq<word>)
    requires |p| <= |b|
    ensures |r| == |p|
  {
    if |p| == 0 then []
    else
      ProductFits(x, b[0], p[0], c);
      [(c + p[0] + x * b[0]) % M32] + AddMulLimbs(p[1..], b[1..], x, (c + p[0] + x * b[0]) / M32)
  }

  function AddMulOut(p: seq<word>, b: seq<word>, x: word, c: word): word
    requires |p| <= |b|
  {
    if |p| == 0 then c
    else
      ProductFits(x, b[0], p[0], c);
      AddMulOut(p[1..], b[1..], x, (c + p[0] + x * b[0]) / M32)
  }

  lemma {:induction false} AddMulLimbsValue(p: seq<word>, b: seq<word>, x: word, c: word)
    requires |p| <= |b|
    ensures Val(AddMulLimbs(p, b, x, c)) + Shl(AddMulOut(p, b, x, c), 32 * |p|)
         == Val(p) + x * Val(b[..|p|]) + c
  {
    hide Shl, Val;
    if |p| == 0 {
      NoLimbs(c);
      assert b[..0] == [] && p == [];
    } else {
      ProductFits(x, b[0], p[0], c);
      var own: nat := p[0] + x * b[0];
      AddMulLimbsValue(p[1..], b[1..], x, (c + own) / M32);
      var t, out := AddMulLimbs(p[1..], b[1..], x, (c + own) / M32), AddMulOut(p[1..], b[1..], x, (c + own) / M32);
      CarryUp(out, |p| - 1);
      ValCons((c + own) % M32, t);
      ValUncons(p);
      ValUncons(b[..|p|]);
      assert b[..|p|][1..] == b[1..][..|p| - 1];
      var r := Val(b[1..][..|p| - 1]);
      Distribute(x, b[0], r);
      MulMonotonic(0, x, r);
      ProductStep(own, Val(p[1..]) + x * r, c, Val(t), Shl(out, 32 * (|p| - 1)));
    }
  }
}
