/** The ProgPoW program generator's randomness (libcrypto/progpow.cpp, libcrypto/progpow.hpp):
    a KISS99 generator seeded from the period and two shuffled register orders. */
module MixRngs {
  import opened Words
  import opened Kiss

  const REGS: nat := 32

  /** A register of a lane. */
  type reg = r: int | 0 <= r < 32

  /** The registers 0, 1, ..., 31 in order. */
  function Iota(n: nat): (s: seq<reg>)
    requires n <= REGS
    ensures |s| == n && forall k :: 0 <= k < n ==> s[k] == k
  {
    seq(n, (k: int) requires 0 <= k < n <= REGS => k)
  }

  ghost predicate IsPermutation(s: seq<reg>) {
    |s| == REGS && multiset(s) == multiset(Iota(REGS))
  }

  function Swap(s: seq<reg>, i: nat, j: nat): (t: seq<reg>)
    requires i < |s| && j < |s|
    ensures |t| == |s|
    ensures multiset(t) == multiset(s)
  {
    s[i := s[j]][j := s[i]]
  }

  /** The generator together with the orders in which registers are handed out. The counters
      are `size_t`: their wrap at 2^64 is invisible because 32 divides 2^64. */
  datatype RngState = RngState(
    kiss: KissState, dstCounter: nat, srcCounter: nat, dst: seq<reg>, src: seq<reg>)
  {
    ghost predicate Valid() {
      IsPermutation(dst) && IsPermutation(src)
    }

    /** The register handed out next as a destination. */
    function Dst(): reg
      requires |dst| == REGS
    {
      dst[dstCounter % REGS]
    }

    function Src(): reg
      requires |src| == REGS
    {
      src[srcCounter % REGS]
    }

    function AfterDst(): RngState {
      this.(dstCounter := dstCounter + 1)
    }

    function AfterSrc(): RngState {
      this.(srcCounter := srcCounter + 1)
    }

    /** The next random word. */
    function Word(): word {
      Output(Step(kiss))
    }

    function AfterWord(): RngState {
      this.(kiss := Step(kiss))
    }
  }

  /** One Fisher-Yates exchange at position `i - 1` in each order. */
  function ShuffleStep(i: nat, s: RngState): (t: RngState)
    requires 1 < i <= REGS && |s.dst| == |s.src| == REGS
    ensures |t.dst| == |t.src| == REGS
    ensures multiset(t.dst) == multiset(s.dst) && multiset(t.src) == multiset(s.src)
  {
    var a := s.AfterWord().(dst := Swap(s.dst, i - 1, s.Word() % i));
    a.AfterWord().(src := Swap(a.src, i - 1, a.Word() % i))
  }

  /** The Fisher-Yates pass from position `i` down, both orders drawing from one generator. */
  function ShuffleFrom(i: nat, s: RngState): (t: RngState)
    requires i <= REGS && |s.dst| == |s.src| == REGS
    ensures |t.dst| == |t.src| == REGS
    ensures multiset(t.dst) == multiset(s.dst) && multiset(t.src) == multiset(s.src)
    ensures t.dstCounter == s.dstCounter && t.srcCounter == s.srcCounter
  {
    if i <= 1 then s else ShuffleFrom(i - 1, ShuffleStep(i, s))
  }

  /** A 64-bit seed, low word first. */
  function SeedKiss(lo: word, hi: word): KissState {
    var z := Fnv1a(FNV_OFFSET_BASIS, lo);
    var w := Fnv1a(z, hi);
    var jsr := Fnv1a(w, lo);
    var jcong := Fnv1a(jsr, hi);
    KissState(z, w, jsr, jcong)
  }

  /** The state `mix_rng_state{seed}` starts in: for every seed both orders are permutations. */
  function Seeded(lo: word, hi: word): (s: RngState)
    ensures s.Valid()
    ensures s.dstCounter == 0 && s.srcCounter == 0
  {
    ShuffleFrom(REGS, RngState(SeedKiss(lo, hi), 0, 0, Iota(REGS), Iota(REGS)))
  }

  /** A permutation hands out every register, each exactly once. */
  lemma PermutationOnce(s: seq<reg>)
    requires IsPermutation(s)
    ensures forall v: reg :: multiset(s)[v] == 1
    ensures forall j, k :: 0 <= j < k < REGS ==> s[j] != s[k]
  {
    IotaOnce(REGS);
    forall j, k | 0 <= j < k < REGS ensures s[j] != s[k] {
      if s[j] == s[k] {
        RepeatCountsTwice(s, j, k);
        assert false;
      }
    }
  }

  lemma RepeatCountsTwice(s: seq<reg>, j: nat, k: nat)
    requires j < k < |s| && s[j] == s[k]
    ensures multiset(s)[s[k]] >= 2
  {
    assert s == s[..k] + s[k..];
    assert s[..k][j] in multiset(s[..k]);
    assert s[k..][0] in multiset(s[k..]);
  }

  lemma {:induction false} IotaOnce(n: nat)
    requires n <= REGS
    ensures forall v: reg :: multiset(Iota(n))[v] == if v < n then 1 else 0
  {
    if n > 0 {
      IotaOnce(n - 1);
      assert Iota(n) == Iota(n - 1) + [n - 1];
    }
  }

  /** `std::swap` on two cells. */
  method SwapCells(a: array<reg>, i: nat, j: nat)
    requires i < a.Length && j < a.Length
    modifies a
    ensures a[..] == Swap(old(a[..]), i, j)
  {
    a[i], a[j] := a[j], a[i];
  }

  class MixRng {
    const rng: Kiss99
    var dstCounter: nat
    var srcCounter: nat
    const dst: array<reg>
    const src: array<reg>

    ghost predicate Valid()
      reads this, rng, dst, src
    {
      dst != src && dst.Length == src.Length == REGS && State().Valid()
    }

    ghost function State(): RngState
      reads this, rng, dst, src
    {
      RngState(rng.State(), dstCounter, srcCounter, dst[..], src[..])
    }

    /** `mix_rng_state(uint64_t seed)`: seeds the generator and shuffles both orders in place. */
    constructor (lo: word, hi: word)
      ensures Valid() && State() == Seeded(lo, hi)
      ensures fresh(rng) && fresh(dst) && fresh(src)
    {
      hide Fnv1a, ShuffleFrom;
      var z := Fnv1a(FNV_OFFSET_BASIS, lo);
      var w := Fnv1a(z, hi);
      var jsr := Fnv1a(w, lo);
      var jcong := Fnv1a(jsr, hi);
      rng := new Kiss99(KissState(z, w, jsr, jcong));
      dstCounter, srcCounter := 0, 0;
      dst := new reg[REGS]((k: int) requires 0 <= k < REGS => k);
      src := new reg[REGS]((k: int) requires 0 <= k < REGS => k);
      new;
      assert dst[..] == Iota(REGS) && src[..] == Iota(REGS);
      Shuffle();
    }

    /** The Fisher-Yates loop of the constructor. */
    method Shuffle()
      requires dst != src && dst.Length == src.Length == REGS
      modifies rng, dst, src
      ensures State() == ShuffleFrom(REGS, old(State()))
    {
      hide ShuffleStep;
      var i := REGS;
      while i > 1
        invariant 1 <= i <= REGS
        invariant ShuffleFrom(i, State()) == ShuffleFrom(REGS, old(State()))
      {
        Exchange(i);
        i := i - 1;
      }
    }

    method Exchange(i: nat)
      requires dst != src && dst.Length == src.Length == REGS
      requires 1 < i <= REGS
      modifies rng, dst, src
      ensures State() == ShuffleStep(i, old(State()))
    {
      hide Step, Output;
      var r := rng.Next();
      SwapCells(dst, i - 1, r % i);
      r := rng.Next();
      SwapCells(src, i - 1, r % i);
    }

    /** The copy made when the state is passed by value. */
    constructor CopyOf(other: MixRng)
      requires other.Valid()
      ensures Valid() && State() == other.State()
      ensures fresh(rng) && fresh(dst) && fresh(src)
    {
      rng := new Kiss99(KissState(other.rng.z, other.rng.w, other.rng.jsr, other.rng.jcong));
      dstCounter, srcCounter := other.dstCounter, other.srcCounter;
      var from, into := other.dst, other.src;
      dst := new reg[REGS](k requires 0 <= k < from.Length reads from => from[k]);
      src := new reg[REGS](k requires 0 <= k < into.Length reads into => into[k]);
      new;
      assert dst[..] == other.dst[..] && src[..] == other.src[..];
    }

    method NextDst() returns (r: reg)
      requires Valid()
      modifies this
      ensures Valid() && State() == old(State()).AfterDst()
      ensures r == old(State()).Dst()
    {
      r := dst[dstCounter % REGS];
      dstCounter := dstCounter + 1;
    }

    method NextSrc() returns (r: reg)
      requires Valid()
      modifies this
      ensures Valid() && State() == old(State()).AfterSrc()
      ensures r == old(State()).Src()
    {
      r := src[srcCounter % REGS];
      srcCounter := srcCounter + 1;
    }

    /** `rng()` on the state's generator. */
    method NextWord() returns (r: word)
      requires Valid()
      modifies rng
      ensures Valid() && State() == old(State()).AfterWord()
      ensures r == old(State()).Word()
    {
      hide Step, Output;
      r := rng.Next();
    }
  }
}
