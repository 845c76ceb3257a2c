/** The nonce segments a farm gives its miners (libethcore/Farm.cpp, `setWork`; libethcore/Farm.h;
    the clamp in libapicore/ApiServer.cpp). The base-two logarithm of the residual space per miner is
    taken exactly. */
module Farm {
  import opened Bits
  import opened Words

  const DEFAULT_WIDTH: nat := 32

  /** The part of a work package that matters here; `job` stands for the rest. */
  datatype WorkPackage = WorkPackage(hasEpoch: bool, startNonce: word64, exSize: nat, job: nat)

  /** The widest segments of which `n` fit into `2^residual` nonces, from width `w` down. */
  function WidthFrom(residual: nat, n: nat, w: nat): (r: nat)
    requires n <= Pow2(residual)
    ensures r <= w
  {
    if w == 0 || Shl(n, w) <= Pow2(residual) then w else WidthFrom(residual, n, w - 1)
  }

  /** The integer part of the base-two logarithm of `2^residual / n`. */
  function Width(residual: nat, n: nat): nat
    requires n <= Pow2(residual)
  {
    WidthFrom(residual, n, residual)
  }

  lemma {:induction false} WidthFromIs(residual: nat, n: nat, w: nat)
    requires n <= Pow2(residual)
    ensures Shl(n, WidthFrom(residual, n, w)) <= Pow2(residual)
    ensures WidthFrom(residual, n, w) < w ==> Pow2(residual) < Shl(n, WidthFrom(residual, n, w) + 1)
  {
    hide Pow2;
    if w > 0 && Shl(n, w) > Pow2(residual) {
      WidthFromIs(residual, n, w - 1);
    }
  }

  /** It is that logarithm: `n * 2^w <= 2^residual < n * 2^(w + 1)`. */
  lemma WidthIsFloorLog(residual: nat, n: nat)
    requires 1 <= n <= Pow2(residual)
    ensures Shl(n, Width(residual, n)) <= Pow2(residual) < Shl(n, Width(residual, n) + 1)
  {
    hide Shl, Pow2;
    WidthFromIs(residual, n, residual);
    Pow2IsShl(residual + 1);
    ShlMonotonic(1, n, residual + 1);
    Pow2Double(residual);
  }

  /** The first nonce of segment `i`. */
  function SegmentStart(start: word64, width: nat, i: nat): word64 {
    (start + Shl(i, width) % M64) % M64
  }

  // ----- the farm -----

  class Farm {
    const miners: array<WorkPackage>    // the work each miner was given last
    var current: WorkPackage
    var width: nat
    var scrambler: word64

    /** All segments fit side by side into the 64-bit nonces. */
    ghost predicate Fits()
      reads this
    {
      width < 64 && Shl(miners.Length, width) <= M64
    }

    constructor (miners: array<WorkPackage>, scrambler: word64)
      ensures this.miners == miners && this.scrambler == scrambler && width == DEFAULT_WIDTH
      ensures current.exSize == 0
      ensures Fits() <==> miners.Length <= M32
    {
      this.miners, this.scrambler := miners, scrambler;
      current, width := WorkPackage(false, 0, 0, 0), DEFAULT_WIDTH;
      Shl32Value(miners.Length);
    }

    /** `setWork`; `shuffled` is the new scrambler when one is drawn per work. The residual space left
        by an extranonce of `exSize` hexadecimal digits must have room for every miner, and without one
        the width must be a shift that C++ defines. */
    method SetWork(wp: WorkPackage, ergodicity: nat, shuffled: word64)
      requires miners.Length > 0
      requires wp.hasEpoch && wp.exSize > 0 ==> wp.exSize <= 16 && miners.Length <= Pow2(64 - 4 * wp.exSize)
      requires wp.hasEpoch && wp.exSize == 0 ==> width < 64
      modifies this, miners
      ensures old(Fits()) || (wp.hasEpoch && wp.exSize > 0) ==> Fits()
      ensures !wp.hasEpoch ==>
        && miners[..] == old(miners[..]) && current == old(current)
        && width == old(width) && scrambler == old(scrambler)
      ensures wp.hasEpoch ==>
        && scrambler == (if ergodicity == 2 && wp.exSize == 0 then shuffled else old(scrambler))
        && width == (if wp.exSize > 0 then Width(64 - 4 * wp.exSize, miners.Length) else old(width))
        && (forall i :: 0 <= i < miners.Length ==>
              miners[i] == wp.(startNonce :=
                SegmentStart(if wp.exSize > 0 then wp.startNonce else scrambler, width, i)))
        && current == miners[miners.Length - 1]
    {
      hide Shl, Pow2, Width;
      if !wp.hasEpoch {
        return;
      }
      current := wp;
      if ergodicity == 2 && current.exSize == 0 {
        scrambler := shuffled;
      }
      var start: word64;
      if current.exSize > 0 {
        start := current.startNonce;
        width := Width(64 - 4 * current.exSize, miners.Length);
        WidthFits(64 - 4 * wp.exSize, miners.Length);
      } else {
        start := scrambler;
      }
      ghost var w, n := width, scrambler;
      for i := 0 to miners.Length
        invariant width == w && scrambler == n
        invariant forall j :: 0 <= j < i ==> miners[j] == wp.(startNonce := SegmentStart(start, width, j))
        invariant current == if i == 0 then wp else miners[i - 1]
      {
        current := current.(startNonce := SegmentStart(start, width, i));
        miners[i] := current;
      }
    }

    /** `set_nonce_segment_width`. */
    method SetSegmentWidth(w: nat)
      modifies this`width
      ensures width == if current.exSize == 0 then w else old(width)
      ensures current.exSize == 0 ==> (Fits() <==> w < 64 && Shl(miners.Length, w) <= M64)
      ensures current.exSize > 0 ==> (Fits() <==> old(Fits()))
    {
      if current.exSize == 0 {
        width := w;
      }
    }

    /** The API request that sets scrambler and width. */
    method SetScramblerInfo(nonce: word64, exp: nat)
      modifies this`width, this`scrambler
      ensures scrambler == nonce && width == if current.exSize == 0 then Clamped(exp) else old(width)
      ensures old(Fits()) && miners.Length <= 16384 ==> Fits()
    {
      hide Shl;
      var e := exp;
      if e < 10 {
        e := 10;
      }
      if e > 50 {
        e := 40;
      }
      scrambler := nonce;
      SetSegmentWidth(e);
      if miners.Length <= 16384 {
        ClampedFits(miners.Length, e);
      }
    }
  }

  function Clamped(exp: nat): nat {
    if exp < 10 then 10 else if exp > 50 then 40 else exp
  }

  lemma WidthFits(residual: nat, n: nat)
    requires 1 <= n <= Pow2(residual) && residual < 64
    ensures Shl(n, Width(residual, n)) <= M64 && Width(residual, n) < 64
  {
    hide Shl, Pow2;
    WidthIsFloorLog(residual, n);
    Pow2Monotonic(residual, 64);
    Pow2Values();
  }

  lemma ClampedFits(n: nat, w: nat)
    requires n <= 16384 && w <= 50
    ensures Shl(n, w) <= M64
  {
    hide Shl, Pow2;
    ShlMonotonic(n, 16384, w);
    Fourteen();
    ShlShl(1, 14, w);
    Pow2IsShl(14 + w);
    Pow2Monotonic(14 + w, 64);
    Pow2Values();
  }

  lemma Fourteen()
    ensures Shl(1, 14) == 16384
  {
    ShlShl(1, 8, 6);
    Shl8(1);
  }

  /** An extranonce of at most eight digits, as the stratum client accepts, leaves room for as many
      miners as a farm can number. */
  lemma ClientExtranonceFits(exSize: nat, n: nat)
    requires exSize <= 8 && n <= M32
    ensures n <= Pow2(64 - 4 * exSize)
  {
    hide Pow2;
    Pow2Values();
    Pow2Monotonic(32, 64 - 4 * exSize);
  }

  // ----- segments -----

  /** Nonce `a` of segment `i`. */
  function NonceOf(start: word64, width: nat, i: nat, a: nat): word64 {
    (SegmentStart(start, width, i) + a) % M64
  }

  lemma NonceIs(start: word64, width: nat, i: nat, a: nat)
    ensures NonceOf(start, width, i, a) == (start + (Shl(i, width) + a)) % M64
  {
    hide Shl;
    Wrapped(start, Shl(i, width), a);
  }

  lemma Wrapped(s: nat, x: nat, a: nat)
    ensures ((s + x % M64) % M64 + a) % M64 == (s + (x + a)) % M64
  {
  }

  /** No two of `n` segments share a nonce. */
  ghost predicate Disjoint(start: word64, width: nat, n: nat) {
    forall i: nat, a: nat, j: nat, b: nat | i < n && j < n && a < Pow2(width) && b < Pow2(width) ::
      NonceOf(start, width, i, a) == NonceOf(start, width, j, b) ==> i == j
  }

  lemma SameSegment(start: word64, width: nat, n: nat, i: nat, a: nat, j: nat, b: nat)
    requires Shl(n, width) <= M64 && i < n && j < n && a < Pow2(width) && b < Pow2(width)
    requires NonceOf(start, width, i, a) == NonceOf(start, width, j, b)
    ensures i == j && a == b
  {
    hide Shl, Pow2, NonceOf;
    NonceIs(start, width, i, a);
    NonceIs(start, width, j, b);
    InSpace(width, n, i, a);
    InSpace(width, n, j, b);
    Unshifted(start, Shl(i, width) + a, Shl(j, width) + b);
    ShrOfSum(i, a, width);
    ShrOfSum(j, b, width);
  }

  lemma InSpace(width: nat, n: nat, i: nat, a: nat)
    requires i < n && a < Pow2(width)
    ensures Shl(i, width) + a < Shl(n, width)
  {
    hide Shl, Pow2;
    Pow2IsShl(width);
    ShlAdds(i, 1, width);
    ShlMonotonic(i + 1, n, width);
  }

  lemma Unshifted(s: nat, x: nat, y: nat)
    requires x < M64 && y < M64 && (s + x) % M64 == (s + y) % M64
    ensures x == y
  {
  }

  /** The segments of `n` miners are disjoint exactly when all of them together fit. */
  lemma DisjointExactly(start: word64, width: nat, n: nat)
    requires width < 64
    ensures Disjoint(start, width, n) <==> Shl(n, width) <= M64
  {
    hide Shl, Pow2, NonceOf;
    if Shl(n, width) <= M64 {
      forall i: nat, a: nat, j: nat, b: nat |
        i < n && j < n && a < Pow2(width) && b < Pow2(width)
        && NonceOf(start, width, i, a) == NonceOf(start, width, j, b)
        ensures i == j
      {
        SameSegment(start, width, n, i, a, j, b);
      }
    } else {
      var k := Pow2(64 - width);
      Pow2Add(64 - width, width);
      Pow2Values();
      if n <= k {
        ShlMonotonic(n, k, width);
        assert false;
      }
      NonceIs(start, width, 0, 0);
      NonceIs(start, width, k, 0);
      ShlZero(width);
      assert NonceOf(start, width, 0, 0) == NonceOf(start, width, k, 0) by {
        OneTurn(start);
      }
    }
  }

  lemma OneTurn(s: nat)
    ensures (s + M64) % M64 == s % M64
  {
  }

  /** With an extranonce (`e`, in the upper digits) every nonce of every segment keeps it, so that the
      segments stay inside the space the pool left. */
  lemma ExtranonceKept(e: nat, exSize: nat, n: nat, i: nat, a: nat)
    requires 1 <= exSize <= 16 && e < Pow2(4 * exSize) && i < n <= Pow2(64 - 4 * exSize)
    requires a < Pow2(Width(64 - 4 * exSize, n))
    ensures Shl(e, 64 - 4 * exSize) < M64
    ensures Shr(NonceOf(Shl(e, 64 - 4 * exSize), Width(64 - 4 * exSize, n), i, a), 64 - 4 * exSize) == e
  {
    hide Shl, Shr, Pow2, NonceOf, Width;
    var residual, w := 64 - 4 * exSize, Width(64 - 4 * exSize, n);
    var start, low := Shl(e, residual), Shl(i, w) + a;
    ShlBelow(e, residual, 4 * exSize);
    Pow2Values();
    NonceIs(start, w, i, a);
    InSpace(w, n, i, a);
    WidthIsFloorLog(residual, n);
    assert (start + low) % M64 == start + low;
    ShrOfSum(e, low, residual);
  }
}
