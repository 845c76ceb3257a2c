/** The search kernels around the generated function (libethash-cuda/CUDAMiner_kernel.cu,
    libethash-cl/CLMiner_kernel.cl): filling the cache and the registers, reducing the lanes to a
    digest, and what comes out for a nonce. */
module SearchKernels {
  import opened Arith
  import opened Words
  import opened Kiss
  import opened MixRngs
  import opened Programs
  import opened Kernels
  import opened Device
  import opened Rounds
  import opened Groups
  import opened Interleavings
  import opened HashMixes

  // ----- the cache -----

  /** The words of the first elements of the dataset. */
  function CacheOf(dag: word -> Loads): Cache {
    seq(4096, j requires 0 <= j < 4096 => dag(j / 4)[j % 4])
  }

  /** Element `q` has been copied once the threads below `tid` are done and thread `tid` has come to
      element `at`. */
  predicate Copied(q: nat, tid: nat, at: nat, threads: nat)
    requires threads > 0
  {
    q % threads < tid || (q % threads == tid && q < at)
  }

  lemma NextElement(q: nat, tid: nat, at: nat, threads: nat)
    requires threads > 0 && tid < threads && at % threads == tid
    ensures Copied(q, tid, at + threads, threads) <==> Copied(q, tid, at, threads) || q == at
    ensures (at + threads) % threads == tid
  {
    DivMod(at, threads);
    DivModIs(at + threads, at / threads + 1, tid, threads);
    if q % threads == tid && at <= q < at + threads {
      DivMod(q, threads);
      MulDistributes(q / threads, at / threads, threads);
      EuclidUnique(q / threads - at / threads, 0, 0, q - at, threads);
    }
  }

  lemma FirstElement(q: nat, tid: nat, threads: nat)
    requires threads > 0 && tid < threads
    ensures tid % threads == tid && (Copied(q, tid, tid, threads) <==> q % threads < tid)
  {
    DivModIs(tid, 0, tid, threads);
    DivMod(q, threads);
    if q % threads == tid && q < tid {
      assert q / threads * threads < 0;
      MulMonotonic(0, q / threads, threads);
      assert false;
    }
  }

  /** The loop that fills the shared cache, run by every thread of a block. */
  method FillCache(dag: word -> Loads, threads: nat) returns (cache: array<word>)
    requires threads > 0
    ensures fresh(cache) && cache.Length == 4096 && cache[..] == CacheOf(dag)
  {
    hide Copied;
    cache := new word[4096];
    NoneCopied(threads);
    for tid := 0 to threads
      invariant forall j :: 0 <= j < 4096 && (j / 4) % threads < tid ==> cache[j] == dag(j / 4)[j % 4]
    {
      FillShare(dag, tid, threads, cache);
    }
    forall j | 0 <= j < 4096 ensures cache[j] == dag(j / 4)[j % 4] {
      DivMod(j / 4, threads);
    }
  }

  lemma NoneCopied(threads: nat)
    requires threads > 0
    ensures forall q: nat :: !(q % threads < 0)
  {
  }

  /** One thread's share of it. */
  method FillShare(dag: word -> Loads, tid: nat, threads: nat, cache: array<word>)
    requires tid < threads && cache.Length == 4096
    requires forall j :: 0 <= j < 4096 && (j / 4) % threads < tid ==> cache[j] == dag(j / 4)[j % 4]
    modifies cache
    ensures forall j :: 0 <= j < 4096 && (j / 4) % threads < tid + 1 ==> cache[j] == dag(j / 4)[j % 4]
  {
    hide Copied;
    var at: nat := tid;
    forall q: nat ensures Copied(q, tid, tid, threads) <==> q % threads < tid {
      FirstElement(q, tid, threads);
    }
    FirstElement(0, tid, threads);
    while 4 * at < 4096
      invariant at % threads == tid
      invariant forall j :: 0 <= j < 4096 && Copied(j / 4, tid, at, threads) ==> cache[j] == dag(j / 4)[j % 4]
      decreases 1024 - at
    {
      var load := dag(at);
      cache[4 * at] := load[0];
      cache[4 * at + 1] := load[1];
      cache[4 * at + 2] := load[2];
      cache[4 * at + 3] := load[3];
      forall q: nat ensures Copied(q, tid, at + threads, threads) <==> Copied(q, tid, at, threads) || q == at {
        NextElement(q, tid, at, threads);
      }
      NextElement(0, tid, at, threads);
      at := at + threads;
    }
    forall j | 0 <= j < 4096 && (j / 4) % threads < tid + 1 ensures cache[j] == dag(j / 4)[j % 4] {
      CopiedAll(j / 4, tid, at, threads);
    }
  }

  lemma CopiedAll(q: nat, tid: nat, at: nat, threads: nat)
    requires threads > 0 && q % threads <= tid && q < at
    ensures Copied(q, tid, at, threads)
  {
  }

  /** The host's cache: the words of the first 64 items. */
  ghost predicate HostCache(e: Epoch) {
    forall j :: 0 <= j < 4096 ==> e.l1[j] == e.item(j / 64)[j % 64]
  }

  /** What the device holds of an epoch: the dataset in chunks, and the cache filled from it. */
  ghost predicate Uploaded(gpu: Gpu, e: Epoch) {
    && gpu.elements == e.numItems >= 64
    && gpu.cache == CacheOf(gpu.dag) && gpu.platform.Harmless()
    && forall i: word, c: laneIndex ::
         i < e.numItems && i * 16 + c < M32 ==> gpu.dag(i * 16 + c) == Chunk(e.item(i), c)
  }

  /** The shared cache is the host's. */
  lemma UploadedServes(gpu: Gpu, e: Epoch)
    requires Uploaded(gpu, e) && HostCache(e)
    ensures Serves(gpu, e)
  {
    forall j | 0 <= j < 4096 ensures gpu.cache[j] == e.l1[j] {
      var i: word, c: laneIndex := j / 64, (j / 4) % 16;
      assert i * 16 + c == j / 4;
      assert gpu.dag(i * 16 + c) == Chunk(e.item(i), c);
    }
  }

  // ----- the registers -----

  /** `kiss99` of the kernels. */
  function DeviceKiss(st: KissState): (KissState, word) {
    var z := (36969 * (st.z % 0x1_0000) + st.z / 0x1_0000) % M32;
    var w := (18000 * (st.w % 0x1_0000) + st.w / 0x1_0000) % M32;
    var mwc := Add32(Shl32(z, 16), w);
    var a := Xor32(st.jsr, Shl32(st.jsr, 17));
    var b := Xor32(a, Shr32(a, 13));
    var jsr := Xor32(b, Shl32(b, 5));
    var jcong := (69069 * st.jcong + 1234567) % M32;
    (KissState(z, w, jsr, jcong), Add32(Xor32(mwc, jcong), jsr))
  }

  lemma DeviceKissIs(st: KissState)
    ensures DeviceKiss(st) == (Step(st), Output(Step(st)))
  {
    hide Xor32, Shl32, Shr32, Add32;
  }

  /** The next `n` numbers of the kernels' generator. */
  function Filled(st: KissState, n: nat): (r: seq<word>)
    ensures |r| == n
    decreases n
  {
    if n == 0 then [] else [DeviceKiss(st).1] + Filled(DeviceKiss(st).0, n - 1)
  }

  /** `fill_mix`. */
  method FillMix(lo: word, hi: word, lane: laneIndex) returns (mix: seq<word>)
    ensures mix == FilledRow(lo, hi, lane) == InitRow(lo, hi, lane)
  {
    hide Fnv1a, DeviceKiss, InitRow;
    FilledIsInit(lo, hi, lane);
    var h := FNV_OFFSET_BASIS;
    h := Fnv1a(h, lo);
    var z := h;
    h := Fnv1a(h, hi);
    var w := h;
    h := Fnv1a(h, lane);
    var jsr := h;
    h := Fnv1a(h, lane);
    var st := KissState(z, w, jsr, h);
    ghost var start := st;
    mix := [];
    for i := 0 to 32
      invariant |mix| == i && Filled(start, 32) == mix + Filled(st, 32 - i)
    {
      var next := DeviceKiss(st);
      st := next.0;
      mix := mix + [next.1];
    }
  }

  function FilledRow(lo: word, hi: word, lane: laneIndex): Regs {
    Filled(LaneSeed(lo, hi, lane), 32)
  }

  lemma {:induction false} StepsShift(n: nat, st: KissState)
    ensures Steps(n, Step(st)) == Steps(n + 1, st)
  {
    hide Step;
    if n > 0 {
      StepsShift(n - 1, st);
    }
  }

  lemma {:induction false} FilledAt(st: KissState, n: nat, i: nat)
    requires i < n
    ensures Filled(st, n)[i] == Output(Steps(i + 1, st))
    decreases n
  {
    hide DeviceKiss, Step, Output;
    DeviceKissIs(st);
    assert Steps(0, st) == st;
    if i > 0 {
      FilledAt(DeviceKiss(st).0, n - 1, i - 1);
      StepsShift(i, st);
    }
  }

  /** The device fills the registers of a lane as the host does. */
  lemma FilledIsInit(lo: word, hi: word, lane: laneIndex)
    ensures FilledRow(lo, hi, lane) == InitRow(lo, hi, lane)
  {
    hide Filled, Output, Steps;
    forall i | 0 <= i < 32 ensures FilledRow(lo, hi, lane)[i] == InitRow(lo, hi, lane)[i] {
      FilledAt(LaneSeed(lo, hi, lane), 32, i);
    }
  }

  // ----- the digest -----

  /** The hash a lane computes over its registers. */
  method DeviceLaneHash(mix: Regs) returns (h: word)
    ensures h == LaneHash(mix)
  {
    hide Fnv1a;
    h := FNV_OFFSET_BASIS;
    for i := 0 to 32
      invariant h == FoldRegs(mix, i)
    {
      h := Fnv1a(h, mix[i]);
    }
  }

  /** The second reduction in the CUDA kernel: two sweeps of eight shuffles. The OpenCL kernel runs the
      loop of `ReduceHost`. */
  method ReduceDevice(laneHash: seq<word>) returns (digest: Digest)
    requires |laneHash| == 16
    ensures digest == Gather(laneHash)
  {
    hide Fnv1a;
    digest := seq(8, _ => FNV_OFFSET_BASIS);
    var i := 0;
    while i < 16
      invariant i == 0 || i == 8 || i == 16
      invariant forall w :: 0 <= w < 8 ==> digest[w] == Gathered(laneHash, i, w)
      decreases 16 - i
    {
      for j := 0 to 8
        invariant forall w :: 0 <= w < 8 ==> digest[w] == Gathered(laneHash, i + j, w)
      {
        digest := digest[j := Fnv1a(digest[j], laneHash[i + j])];
      }
      i := i + 8;
    }
  }

  /** The digest of lanes that have finished: each hashes its registers, then all are gathered. */
  function DeviceDigest(kind: KernelType, lanes: Lanes): Digest {
    Gather(seq(16, (l: int) requires 0 <= l < 16 => LaneHash(Result(kind, lanes[l]))))
  }

  lemma DigestIs(kind: KernelType, lanes: Lanes)
    ensures DeviceDigest(kind, lanes) == DigestOf(Results(kind, lanes))
  {
    hide LaneHash, Fnv1a, Result;
  }

  // ----- one nonce -----

  /** A launch of the search kernel for one seed: lanes filled by `fill_mix`, the dataset uploaded. */
  ghost predicate LaunchedFor(k: Launch, e: Epoch, period: word, lo: word, hi: word) {
    && k.Valid() && Uploaded(k.gpu, e) && HostCache(e)
    && k.calls == 64 && k.g == Seeded(period, 0)
    && forall l: laneIndex :: Result(k.kind, k.init[l]) == FilledRow(lo, hi, l)
  }

  /** The launches in which every item loaded has a 32-bit element index. */
  ghost predicate Reachable(e: Epoch, period: word, lo: word, hi: word)
    requires e.numItems > 0
  {
    e.numItems <= ADDRESSABLE || Addressed(DAG_COUNT, e, Seeded(period, 0), InitRows(lo, hi))
  }

  /** For every seed, period, dataset and kernel type, every schedule that finishes with no lane
      overtaken by a word for another item ends with the host's mix hash on the dataset as the device sees it,
      and with the host's mix hash if every item loaded is within reach of the element index. */
  lemma DeviceDigestIsMixHash(k: Launch, e: Epoch, period: word, lo: word, hi: word, run: seq<Group>)
    requires LaunchedFor(k, e, period, lo, hi)
    requires IsRun(k, run) && Finished(k, run[|run| - 1])
    ensures e.numItems > 0 && (k.kind.Cuda? ==> AlwaysInTime(k, run))
    ensures AlwaysInTime(k, run) ==>
      var digest := DeviceDigest(k.kind, run[|run| - 1].lanes);
      && digest == MixHash(Wrapped(e), period, lo, hi)
      && (Reachable(e, period, lo, hi) ==> digest == MixHash(e, period, lo, hi))
  {
    hide Advance, Finished, HostRounds, DigestOf, DeviceDigest, Seeded, FilledRow, InitRow, Uploaded, HostCache, InTime,
      Addressed;
    UploadedServes(k.gpu, e);
    EveryScheduleIsTheHost(k, e, run);
    DigestIs(k.kind, run[|run| - 1].lanes);
    forall l: laneIndex ensures Results(k.kind, k.init)[l] == InitRows(lo, hi)[l] {
      FilledIsInit(lo, hi, l);
    }
    assert Results(k.kind, k.init) == InitRows(lo, hi);
    if Reachable(e, period, lo, hi) {
      WrapsUnseen(DAG_COUNT, e, Seeded(period, 0), InitRows(lo, hi));
    }
  }
}
