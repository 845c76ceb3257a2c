/** The mix hash of one nonce on the host (libcrypto/progpow.cpp, `init_mix` and `hash_mix`). */
module HashMixes {
  import opened Words
  import opened Kiss
  import opened MixRngs
  import opened Programs
  import opened Rounds
  import opened Groups

  const DAG_COUNT: nat := 64

  /** Eight 32-bit words of a 256-bit hash. */
  type Digest = s: seq<word> | |s| == 8 witness seq(8, _ => 0)

  // ----- filling the registers -----

  function LaneSeed(lo: word, hi: word, l: laneIndex): KissState {
    var z := Fnv1a(FNV_OFFSET_BASIS, lo);
    var w := Fnv1a(z, hi);
    var jsr := Fnv1a(w, l);
    KissState(z, w, jsr, Fnv1a(jsr, l))
  }

  /** The generator after `n` calls. */
  function Steps(n: nat, k: KissState): KissState {
    if n == 0 then k else Step(Steps(n - 1, k))
  }

  function InitRow(lo: word, hi: word, l: laneIndex): Regs {
    seq(32, i requires 0 <= i < 32 => Output(Steps(i + 1, LaneSeed(lo, hi, l))))
  }

  function InitRows(lo: word, hi: word): Rows {
    seq(16, (l: int) requires 0 <= l < 16 => InitRow(lo, hi, l))
  }

  /** `init_mix`. */
  method InitMix(lo: word, hi: word) returns (mix: array2<word>)
    ensures fresh(mix) && mix.Length0 == 16 && mix.Length1 == 32
    ensures AllRows(mix) == InitRows(lo, hi)
  {
    hide Step, Output, LaneSeed;
    mix := new word[16, 32];
    for l := 0 to 16
      invariant forall k: laneIndex :: k < l ==> Row(mix, k) == InitRow(lo, hi, k)
    {
      FillLane(mix, l, lo, hi);
    }
  }

  method FillLane(mix: array2<word>, l: laneIndex, lo: word, hi: word)
    requires mix.Length0 == 16 && mix.Length1 == 32
    modifies mix
    ensures Row(mix, l) == InitRow(lo, hi, l)
    ensures forall k: laneIndex :: k != l ==> Row(mix, k) == old(Row(mix, k))
  {
    hide Step, Output, LaneSeed;
    var rng := new Kiss99(LaneSeed(lo, hi, l));
    for i := 0 to 32
      invariant rng.State() == Steps(i, LaneSeed(lo, hi, l))
      invariant forall j :: 0 <= j < i ==> mix[l, j] == Output(Steps(j + 1, LaneSeed(lo, hi, l)))
      invariant forall k: laneIndex, j :: k != l && 0 <= j < 32 ==> mix[k, j] == old(mix[k, j])
    {
      var r := rng.Next();
      mix[l, i] := r;
    }
  }

  // ----- reducing them -----

  /** The FNV-1a hash of a lane's first `n` registers. */
  function FoldRegs(r: Regs, n: nat): word
    requires n <= 32
  {
    if n == 0 then FNV_OFFSET_BASIS else Fnv1a(FoldRegs(r, n - 1), r[n - 1])
  }

  function LaneHash(r: Regs): word {
    FoldRegs(r, 32)
  }

  /** Word `w` of the digest gathers lanes `w` and `w + 8`, in that order. */
  function DigestOf(rows: Rows): Digest {
    seq(8, w requires 0 <= w < 8 => Fnv1a(Fnv1a(FNV_OFFSET_BASIS, LaneHash(rows[w])), LaneHash(rows[w + 8])))
  }

  /** The first reduction of `hash_mix`: registers to one word per lane. */
  method LaneHashes(mix: array2<word>) returns (laneHash: seq<word>)
    requires mix.Length0 == 16 && mix.Length1 == 32
    ensures |laneHash| == 16
    ensures forall l: laneIndex :: laneHash[l] == LaneHash(Row(mix, l))
  {
    hide Fnv1a;
    laneHash := [];
    for l := 0 to 16
      invariant |laneHash| == l
      invariant forall k: laneIndex :: k < l ==> laneHash[k] == LaneHash(Row(mix, k))
    {
      var h := FNV_OFFSET_BASIS;
      for i := 0 to 32
        invariant h == FoldRegs(Row(mix, l), i)
      {
        assert mix[l, i] == Row(mix, l)[i];
        h := Fnv1a(h, mix[l, i]);
      }
      laneHash := laneHash + [h];
    }
  }

  /** What digest word `w` holds once the lanes below `n` have been folded in. */
  function Gathered(laneHash: seq<word>, n: nat, w: nat): word
    requires |laneHash| == 16 && w < 8
  {
    var a := if w < n then Fnv1a(FNV_OFFSET_BASIS, laneHash[w]) else FNV_OFFSET_BASIS;
    if w + 8 < n then Fnv1a(a, laneHash[w + 8]) else a
  }

  /** The whole digest of sixteen lane hashes. */
  function Gather(laneHash: seq<word>): Digest
    requires |laneHash| == 16
  {
    seq(8, w requires 0 <= w < 8 => Gathered(laneHash, 16, w))
  }

  /** The second reduction on the host: lane `l` goes to word `l % 8`. */
  method ReduceHost(laneHash: seq<word>) returns (digest: Digest)
    requires |laneHash| == 16
    ensures digest == Gather(laneHash)
  {
    hide Fnv1a;
    digest := seq(8, _ => FNV_OFFSET_BASIS);
    for l := 0 to 16
      invariant forall w :: 0 <= w < 8 ==> digest[w] == Gathered(laneHash, l, w)
    {
      digest := digest[l % 8 := Fnv1a(digest[l % 8], laneHash[l])];
    }
  }

  /** The mix hash of a seed in a period. */
  function MixHash(e: Epoch, period: word, lo: word, hi: word): Digest
    requires e.numItems > 0
  {
    DigestOf(HostRounds(DAG_COUNT, e, Seeded(period, 0), InitRows(lo, hi)))
  }

  /** `hash_mix`. */
  method HashMix(e: Epoch, period: word, lo: word, hi: word) returns (digest: Digest)
    requires e.numItems > 0
    ensures digest == MixHash(e, period, lo, hi)
  {
    hide Seeded, RoundRows, InitRows, Fnv1a, LaneHash;
    var mix := InitMix(lo, hi);
    var state := new MixRng(period, 0);
    for i := 0 to DAG_COUNT
      invariant state.Valid() && state.State() == Seeded(period, 0)
      invariant AllRows(mix) == HostRounds(i, e, Seeded(period, 0), InitRows(lo, hi))
    {
      Round(e, i, mix, state);
    }
    var laneHash := LaneHashes(mix);
    digest := ReduceHost(laneHash);
    forall w | 0 <= w < 8 ensures digest[w] == DigestOf(AllRows(mix))[w] {
      assert Row(mix, w) == AllRows(mix)[w] && Row(mix, w + 8) == AllRows(mix)[w + 8];
    }
  }
}
