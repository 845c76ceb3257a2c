/** A nonce on the GPU (libethash-cuda/CUDAMiner_kernel.cu, libethash-cl/CLMiner_kernel.cl) and the
    farm's check of it on the host (libcrypto/progpow.cpp, `verify_full`). The Keccak-f[800]
    permutation is a parameter. */
module Verify {
  import opened Words
  import opened Kernels
  import opened Rounds
  import opened Interleavings
  import opened HashMixes
  import opened HashTypes
  import opened SearchKernels
  import NoncePipeline

  type State800 = s: seq<word> | |s| == 25 witness seq(25, _ => 0)

  /** The input block of the first Keccak call: header, nonce and padding words 10 and 18. */
  function SeedBlock(header: Digest, nonceLo: word, nonceHi: word): State800 {
    header + [nonceLo, nonceHi, 0x00000001] + seq(7, _ => 0) + [0x80008081] + seq(6, _ => 0)
  }

  /** The input block of the last Keccak call: seed, mix and padding words 17 and 24. */
  function FinalBlock(seed: Digest, mix: Digest): State800 {
    seed + mix + [0, 0x00000001] + seq(6, _ => 0) + [0x80008081]
  }

  /** Word by word: the header, the nonce in words 8 and 9, the two padding words. */
  lemma SeedBlockIs(header: Digest, nonceLo: word, nonceHi: word)
    ensures
      var b := SeedBlock(header, nonceLo, nonceHi);
      && b[..8] == header && b[8] == nonceLo && b[9] == nonceHi && b[10] == 1 && b[18] == 0x8000_8081
      && forall i :: 11 <= i < 25 && i != 18 ==> b[i] == 0
  {
  }

  lemma FinalBlockIs(seed: Digest, mix: Digest)
    ensures
      var b := FinalBlock(seed, mix);
      && b[..8] == seed && b[8..16] == mix && b[17] == 1 && b[24] == 0x8000_8081
      && forall i :: 16 <= i < 24 && i != 17 ==> b[i] == 0
  {
  }

  function HashSeed(f: State800 -> State800, header: Digest, nonceLo: word, nonceHi: word): Digest {
    f(SeedBlock(header, nonceLo, nonceHi))[..8]
  }

  function HashFinal(f: State800 -> State800, seed: Digest, mix: Digest): Digest {
    f(FinalBlock(seed, mix))[..8]
  }

  /** A unit of work: what is hashed, and against which boundary. */
  datatype Work = Work(header: Digest, period: word, boundary: Digest)

  function WorkMix(f: State800 -> State800, e: Epoch, w: Work, nonceLo: word, nonceHi: word): Digest
    requires e.numItems > 0
  {
    var seed := HashSeed(f, w.header, nonceLo, nonceHi);
    MixHash(e, w.period, seed[0], seed[1])
  }

  function WorkHash(f: State800 -> State800, e: Epoch, w: Work, nonceLo: word, nonceHi: word): Digest
    requires e.numItems > 0
  {
    HashFinal(f, HashSeed(f, w.header, nonceLo, nonceHi), WorkMix(f, e, w, nonceLo, nonceHi))
  }

  datatype VerificationResult = Ok | InvalidNonce | InvalidMixHash

  /** `verify_full`: the boundary is checked first, then the claimed mix. */
  method VerifyFull(f: State800 -> State800, e: Epoch, w: Work, mix: Digest, nonceLo: word, nonceHi: word)
    returns (v: VerificationResult)
    requires e.numItems > 0
    ensures v == VerdictOn(f, e, w, mix, nonceLo, nonceHi)
  {
    hide MixHash, BigEndian;
    var seed := HashSeed(f, w.header, nonceLo, nonceHi);
    var expected := HashMix(e, w.period, seed[0], seed[1]);
    var final := HashFinal(f, seed, expected);
    var below := IsLessOrEqual(final, w.boundary);
    if !below {
      return InvalidNonce;
    }
    if mix != expected {
      return InvalidMixHash;
    }
    return Ok;
  }

  ghost function VerdictOn(f: State800 -> State800, e: Epoch, w: Work, mix: Digest, nonceLo: word, nonceHi: word)
    : VerificationResult
    requires e.numItems > 0
  {
    if BigEndian(WorkHash(f, e, w, nonceLo, nonceHi)) > BigEndian(w.boundary) then InvalidNonce
    else if mix != WorkMix(f, e, w, nonceLo, nonceHi) then InvalidMixHash
    else Ok
  }

  /** A hash above the boundary is an invalid nonce whatever mix is claimed; otherwise exactly one mix is
      accepted and every other one is an invalid mix. */
  lemma VerdictsAre(f: State800 -> State800, e: Epoch, w: Work, mix: Digest, nonceLo: word, nonceHi: word)
    requires e.numItems > 0
    ensures
      var above := BigEndian(WorkHash(f, e, w, nonceLo, nonceHi)) > BigEndian(w.boundary);
      var v := VerdictOn(f, e, w, mix, nonceLo, nonceHi);
      && (v == InvalidNonce <==> above)
      && (v == Ok <==> !above && mix == WorkMix(f, e, w, nonceLo, nonceHi))
  {
    hide BigEndian, WorkHash, WorkMix;
  }

  /** The hash a search kernel computes for a nonce whose lanes end with `digest`. */
  function DeviceHash(f: State800 -> State800, w: Work, nonceLo: word, nonceHi: word, digest: Digest): Digest {
    HashFinal(f, HashSeed(f, w.header, nonceLo, nonceHi), digest)
  }

  /** The test it has to pass: its top 64 bits are below those of the boundary on CUDA, at most those of
      the boundary on OpenCL. */
  predicate PassesTest(kind: KernelType, hash: Digest, boundary: Digest) {
    match kind
    case Cuda => Be64(hash, 0) < Be64(boundary, 0)
    case OpenCL => Be64(hash, 0) <= Be64(boundary, 0)
  }

  /** How many hits the result buffer of a launch holds. */
  function Slots(kind: KernelType): nat {
    match kind
    case Cuda => NoncePipeline.MAX_SEARCH_RESULTS
    case OpenCL => 15
  }

  /** A nonce is reported when its hash passes and the slot it then draws is still in the buffer. */
  predicate Reports(kind: KernelType, slot: nat, hash: Digest, boundary: Digest) {
    PassesTest(kind, hash, boundary) && slot < Slots(kind)
  }

  /** How the two tests relate, for any hash and boundary: what passes on CUDA is below the boundary; what
      is not above the boundary passes on OpenCL. */
  lemma TestsCompared(hash: Digest, boundary: Digest)
    ensures PassesTest(Cuda, hash, boundary) ==> BigEndian(hash) <= BigEndian(boundary)
    ensures BigEndian(hash) <= BigEndian(boundary) ==> PassesTest(OpenCL, hash, boundary)
  {
    hide BigEndian, Be64;
    if Be64(hash, 0) < Be64(boundary, 0) {
      OrderedByFirstDifference(hash, boundary, 0);
    }
    if Be64(boundary, 0) < Be64(hash, 0) {
      OrderedByFirstDifference(boundary, hash, 0);
    }
  }

  /** A launch of a search kernel for the nonce, one that has finished with no lane overtaken by a
      word for another item and no item out of reach. */
  ghost predicate Searched(f: State800 -> State800, e: Epoch, w: Work, nonceLo: word, nonceHi: word, k: Launch,
                           run: seq<Group>)
  {
    var seed := HashSeed(f, w.header, nonceLo, nonceHi);
    && LaunchedFor(k, e, w.period, seed[0], seed[1])
    && IsRun(k, run) && Finished(k, run[|run| - 1])
    && (k.kind.OpenCL? ==> AlwaysInTime(k, run))
    && Reachable(e, w.period, seed[0], seed[1])
  }

  /** The device computes the host's mix and hash. */
  lemma SearchedIsHost(
    f: State800 -> State800, e: Epoch, w: Work, nonceLo: word, nonceHi: word, k: Launch, run: seq<Group>)
    requires Searched(f, e, w, nonceLo, nonceHi, k, run)
    ensures |run| > 0 && e.numItems > 0
    ensures
      var digest := DeviceDigest(k.kind, run[|run| - 1].lanes);
      && digest == WorkMix(f, e, w, nonceLo, nonceHi)
      && DeviceHash(f, w, nonceLo, nonceHi, digest) == WorkHash(f, e, w, nonceLo, nonceHi)
  {
    hide Advance, Finished, InTime, DeviceDigest, MixHash, Reachable, LaunchedFor;
    var seed := HashSeed(f, w.header, nonceLo, nonceHi);
    DeviceDigestIsMixHash(k, e, w.period, seed[0], seed[1], run);
  }

  /** What the GPU finds against what the farm accepts, for every nonce, dataset, schedule and slot drawn.
      A nonce is reported exactly when the top 64 bits of the host's hash are below the boundary's, on
      OpenCL also when they tie, and its slot is in the buffer. What CUDA reports verifies as Ok. What
      verifies as Ok and draws a slot in the buffer, OpenCL reports. What OpenCL reports verifies as Ok
      exactly when the top 64 bits are below, or tie and the whole hash is not above the boundary. */
  lemma ReportedSolutionsVerify(f: State800 -> State800, e: Epoch, w: Work, nonceLo: word, nonceHi: word, k: Launch,
                                run: seq<Group>, slot: nat)
    requires Searched(f, e, w, nonceLo, nonceHi, k, run)
    ensures |run| > 0 && e.numItems > 0
    ensures
      var digest := DeviceDigest(k.kind, run[|run| - 1].lanes);
      var reported := Reports(k.kind, slot, DeviceHash(f, w, nonceLo, nonceHi, digest), w.boundary);
      var ok := VerdictOn(f, e, w, digest, nonceLo, nonceHi) == Ok;
      var hash := WorkHash(f, e, w, nonceLo, nonceHi);
      var (mine, theirs) := (Be64(hash, 0), Be64(w.boundary, 0));
      && (k.kind.Cuda? ==>
            && (reported <==> mine < theirs && slot < 4)
            && (reported ==> ok))
      && (k.kind.OpenCL? ==>
            && (reported <==> mine <= theirs && slot < 15)
            && (ok && slot < 15 ==> reported)
            && (reported ==> (ok <==> mine < theirs || BigEndian(hash) <= BigEndian(w.boundary))))
  {
    hide Searched, DeviceDigest, WorkMix, WorkHash, DeviceHash, BigEndian, Be64;
    SearchedIsHost(f, e, w, nonceLo, nonceHi, k, run);
    TestsCompared(WorkHash(f, e, w, nonceLo, nonceHi), w.boundary);
  }

  /** Of the nonces the farm would accept, CUDA drops exactly those whose hash ties with the boundary in
      the top 64 bits and those whose slot is past the buffer, OpenCL only the latter. */
  lemma DroppedExactly(f: State800 -> State800, e: Epoch, w: Work, nonceLo: word, nonceHi: word, slot: nat)
    requires e.numItems > 0
    requires VerdictOn(f, e, w, WorkMix(f, e, w, nonceLo, nonceHi), nonceLo, nonceHi) == Ok
    ensures
      var hash := WorkHash(f, e, w, nonceLo, nonceHi);
      && (!Reports(Cuda, slot, hash, w.boundary) <==> Be64(hash, 0) == Be64(w.boundary, 0) || slot >= 4)
      && (!Reports(OpenCL, slot, hash, w.boundary) <==> slot >= 15)
  {
    hide WorkMix, WorkHash, BigEndian, Be64;
    TestsCompared(WorkHash(f, e, w, nonceLo, nonceHi), w.boundary);
  }

  /** Such a tie: for every nonce, the boundary that is its own hash. The farm accepts it, CUDA does not
      see it. */
  lemma TieIsDropped(f: State800 -> State800, e: Epoch, w0: Work, nonceLo: word, nonceHi: word)
    requires e.numItems > 0
    ensures
      var w := w0.(boundary := WorkHash(f, e, w0, nonceLo, nonceHi));
      && VerdictOn(f, e, w, WorkMix(f, e, w, nonceLo, nonceHi), nonceLo, nonceHi) == Ok
      && !PassesTest(Cuda, WorkHash(f, e, w, nonceLo, nonceHi), w.boundary)
  {
    hide MixHash, BigEndian, Be64;
  }

  /** The boundary that agrees with a hash in the top 64 bits and is zero from there on. */
  function TopOf(hash: Digest): Digest {
    hash[..2] + seq(6, _ => 0)
  }

  /** For every nonce whose hash is not zero from there on, against this boundary: OpenCL lets it pass,
      the farm refuses it. */
  lemma TieIsRefused(f: State800 -> State800, e: Epoch, w0: Work, nonceLo: word, nonceHi: word)
    requires e.numItems > 0
    requires var hash := WorkHash(f, e, w0, nonceLo, nonceHi); hash != TopOf(hash)
    ensures
      var w := w0.(boundary := TopOf(WorkHash(f, e, w0, nonceLo, nonceHi)));
      && PassesTest(OpenCL, WorkHash(f, e, w, nonceLo, nonceHi), w.boundary)
      && VerdictOn(f, e, w, WorkMix(f, e, w, nonceLo, nonceHi), nonceLo, nonceHi) == InvalidNonce
  {
    hide MixHash, BigEndian, Be64, TopOf;
    AboveItsTop(WorkHash(f, e, w0, nonceLo, nonceHi));
  }

  lemma AboveItsTop(h: Digest)
    requires h != TopOf(h)
    ensures Be64(TopOf(h), 0) == Be64(h, 0) && BigEndian(TopOf(h)) < BigEndian(h)
  {
    hide Be64, BigEndian;
    var b := TopOf(h);
    Be64Is(b, 0);
    Be64Is(h, 0);
    assert Be64(b, 1) == Be64(b, 2) == Be64(b, 3) == 0 by {
      Be64Zero(b, 1);
      Be64Zero(b, 2);
      Be64Zero(b, 3);
    }
    var i := if Be64(h, 1) > 0 then 1 else if Be64(h, 2) > 0 then 2 else 3;
    if Be64(h, i) == 0 {
      ZeroBelow(h);
    }
    OrderedByFirstDifference(b, h, i);
  }

  lemma ZeroBelow(h: Digest)
    requires Be64(h, 1) == Be64(h, 2) == Be64(h, 3) == 0
    ensures h == TopOf(h)
  {
    hide Be64;
    Be64Zero(h, 1);
    Be64Zero(h, 2);
    Be64Zero(h, 3);
  }

  /** Two words read as zero exactly when they are zero. */
  lemma Be64Zero(h: Digest, i: nat)
    requires i < 4
    ensures Be64(h, i) == 0 <==> h[2 * i] == 0 && h[2 * i + 1] == 0
  {
    Be64Is(h, i);
    SwapZero(h[2 * i]);
    SwapZero(h[2 * i + 1]);
    hide Be64, Bswap32;
  }

  lemma SwapZero(x: word)
    ensures Bswap32(x) == 0 <==> x == 0
  {
  }
}
