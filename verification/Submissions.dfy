/** A whole search on CUDA, from the kernel that is executed to the solutions that are submitted
    (libethash-cuda/CUDAMiner.cpp, libethash-cuda/CUDAMiner_kernel.cu), against the host's check. */
module Submissions {
  import opened Arith
  import opened Words
  import opened Rounds
  import opened Interleavings
  import opened HashMixes
  import opened HashTypes
  import opened SearchKernels
  import opened Verify
  import Kernels
  import opened NoncePipeline
  import KernelSlots

  /** A search: the work, where it starts, and for each launch and thread the lanes that compute the
      thread's nonce and how they are scheduled. */
  datatype CudaSearch = CudaSearch(
    f: State800 -> State800, e: Epoch, w: Work, c: Settings, start: word64,
    lanes: (nat, word) -> Interleavings.Launch, schedule: (nat, word) -> seq<Group>)
  {
    function Nonce(j: nat, gid: word): word64 {
      Hashed(c, start, j, gid)
    }

    /** Thread `gid` of launch `j` runs the kernel of `period` to the end. */
    ghost predicate Runs(j: nat, gid: word, period: word) {
      var nonce := Nonce(j, gid);
      && lanes(j, gid).kind.Cuda?
      && Searched(f, e, w.(period := period), nonce % M32, nonce / M32, lanes(j, gid), schedule(j, gid))
    }

    /** The digest it is left with. */
    ghost function DigestAt(j: nat, gid: word): Digest {
      var run := schedule(j, gid);
      if |run| > 0 then DeviceDigest(Kernels.Cuda, run[|run| - 1].lanes) else ZeroDigest()
    }

    ghost predicate Passes(j: nat, gid: word) {
      var nonce := Nonce(j, gid);
      PassesTest(Kernels.Cuda, DeviceHash(f, w, nonce % M32, nonce / M32, DigestAt(j, gid)), w.boundary)
    }

    /** The kernel in `slot` is what all threads of all launches run. */
    ghost predicate Executes(slot: KernelSlots.Slot) {
      slot.Kernel? && slot.period < M32
      && forall j: nat, gid: word :: gid < c.Batch() ==> Runs(j, gid, slot.period)
    }

    /** `hits` are the threads of launch `j` that pass, each once, in the order they draw their slots. */
    ghost predicate Draw(j: nat, hits: seq<Hit>) {
      && (forall i :: 0 <= i < |hits| ==>
            hits[i].gid < c.Batch() && Passes(j, hits[i].gid) && hits[i].mix == DigestAt(j, hits[i].gid))
      && (forall gid: word :: gid < c.Batch() && Passes(j, gid) ==> exists i :: 0 <= i < |hits| && hits[i].gid == gid)
      && (forall i, i' :: 0 <= i < i' < |hits| ==> hits[i].gid != hits[i'].gid)
    }

    /** The host's verdict on a solution. */
    ghost function Verdict(s: Solution): VerificationResult
      requires e.numItems > 0
    {
      VerdictOn(f, e, w, s.mix, s.nonce % M32, s.nonce / M32)
    }

    ghost function HostHash(nonce: word64): Digest
      requires e.numItems > 0
    {
      WorkHash(f, e, w, nonce % M32, nonce / M32)
    }
  }

  function ZeroDigest(): Digest {
    seq(8, _ => 0)
  }

  /** Solution `s` is the hit in slot `i` of launch `j`, under the nonce that was hashed. */
  ghost predicate From(x: CudaSearch, hits: nat -> seq<Hit>, j: nat, i: nat, s: Solution) {
    var kept := Kept(hits(j));
    i < |kept| && s == Solution(x.Nonce(j, kept[i].gid), kept[i].mix)
  }

  lemma PlaceOf<T>(q: seq<T>, s: T) returns (i: nat)
    requires s in q
    ensures i < |q| && q[i] == s
  {
    i :| i < |q| && q[i] == s;
  }

  lemma {:induction false} ReportedFrom(x: CudaSearch, hits: nat -> seq<Hit>, n: nat, s: Solution)
    ensures s in Reported(x.c, x.start, hits, n) <==> exists j: nat, i: nat :: j < n && From(x, hits, j, i, s)
  {
    hide Hashed;
    if n > 0 {
      var j := n - 1;
      ReportedFrom(x, hits, j, s);
      var kept := Kept(hits(j));
      var last :=
        seq(|kept|, i requires 0 <= i < |kept| => Solution(Hashed(x.c, x.start, j, kept[i].gid), kept[i].mix));
      assert Reported(x.c, x.start, hits, n) == Reported(x.c, x.start, hits, j) + last;
      if s in last {
        var i := PlaceOf(last, s);
        assert From(x, hits, j, i, s);
      }
      if i: nat :| From(x, hits, j, i, s) {
        assert last[i] == s;
      }
    }
  }

  /** A thread that runs the kernel of the work's period: its digest is the host's mix, it passes exactly
      when the host's hash is below the boundary in the top 64 bits, and then the host accepts it. */
  lemma ThreadIsRight(x: CudaSearch, j: nat, gid: word)
    requires x.Runs(j, gid, x.w.period)
    ensures x.e.numItems > 0
    ensures x.DigestAt(j, gid) == WorkMix(x.f, x.e, x.w, x.Nonce(j, gid) % M32, x.Nonce(j, gid) / M32)
    ensures x.Passes(j, gid) <==> Be64(x.HostHash(x.Nonce(j, gid)), 0) < Be64(x.w.boundary, 0)
    ensures x.Passes(j, gid) ==> x.Verdict(Solution(x.Nonce(j, gid), x.DigestAt(j, gid))) == Ok
  {
    hide Searched, DeviceDigest, WorkMix, WorkHash, DeviceHash, VerdictOn, Hashed;
    var nonce := x.Nonce(j, gid);
    assert x.w.(period := x.w.period) == x.w;
    SearchedIsHost(x.f, x.e, x.w, nonce % M32, nonce / M32, x.lanes(j, gid), x.schedule(j, gid));
    ReportedSolutionsVerify(x.f, x.e, x.w, nonce % M32, nonce / M32, x.lanes(j, gid), x.schedule(j, gid), 0);
  }

  /** The search that a CUDA miner performs for the last of `jobs`. */
  ghost predicate Performed(x: CudaSearch, jobs: seq<KernelSlots.Event>, hits: nat -> seq<Hit>) {
    && KernelSlots.Busy(jobs) && KernelSlots.LastBlock(jobs) == x.w.period
    && x.Executes(KernelSlots.After(jobs).Executed())
    && forall j: nat :: x.Draw(j, hits(j))
  }

  /** The condition a search depends on: an even number of kernel recoveries so far, and less than 2^32
      nonces in flight. */
  ghost predicate Sound(x: CudaSearch, jobs: seq<KernelSlots.Event>) {
    KernelSlots.Recoveries(jobs) % 2 == 0 && x.c.Batch() * x.c.streams < M32
  }

  lemma AllRun(x: CudaSearch, jobs: seq<KernelSlots.Event>, hits: nat -> seq<Hit>, j: nat, gid: word)
    requires Performed(x, jobs, hits) && Sound(x, jobs) && gid < x.c.Batch()
    ensures x.Runs(j, gid, x.w.period)
  {
    hide KernelSlots.Recoveries, KernelSlots.After, Settings.Batch;
    KernelSlots.ExecutedIsRight(jobs);
  }

  /** Everything that a search submits verifies as Ok on the host: for every permutation, dataset, work,
      schedule of the lanes, order of the hits and number of launches, if the number of kernel recoveries
      so far is even and the nonces in flight number less than 2^32. */
  lemma EverySubmissionVerifies(x: CudaSearch, jobs: seq<KernelSlots.Event>, hits: nat -> seq<Hit>, n: nat, s: Solution)
    requires Performed(x, jobs, hits) && Sound(x, jobs) && s in Submitted(x.c, x.start, hits, n)
    ensures x.e.numItems > 0 && x.Verdict(s) == Ok
  {
    hide Settings.Batch, KernelSlots.Recoveries, KernelSlots.After, CudaSearch.Runs, CudaSearch.Passes,
      CudaSearch.DigestAt, CudaSearch.Verdict, CudaSearch.Nonce, CudaSearch.Executes;
    SubmittedIsReported(x.c, x.start, hits, n);
    ReportedFrom(x, hits, n, s);
    var j: nat, i: nat :| j < n && From(x, hits, j, i, s);
    assert x.Draw(j, hits(j));
    var gid := hits(j)[i].gid;
    AllRun(x, jobs, hits, j, gid);
    ThreadIsRight(x, j, gid);
  }

  /** Thread `gid` drew this slot of launch `j` and its hit is in the buffer. */
  ghost predicate Stored(x: CudaSearch, hits: nat -> seq<Hit>, j: nat, gid: word, slot: nat)
    requires x.e.numItems > 0
  {
    && slot < |hits(j)| && hits(j)[slot].gid == gid
    && Reports(Kernels.Cuda, slot, x.HostHash(x.Nonce(j, gid)), x.w.boundary)
  }

  /** The slots of the buffer. */
  lemma StoredIsKept(x: CudaSearch, jobs: seq<KernelSlots.Event>, hits: nat -> seq<Hit>, j: nat, slot: nat)
    requires Performed(x, jobs, hits) && Sound(x, jobs) && x.e.numItems > 0 && slot < |hits(j)|
    ensures Stored(x, hits, j, hits(j)[slot].gid, slot) <==> slot < |Kept(hits(j))|
  {
    hide Settings.Batch, KernelSlots.Recoveries, KernelSlots.After, CudaSearch.Runs, CudaSearch.Passes, Be64,
      CudaSearch.DigestAt, CudaSearch.Verdict, CudaSearch.HostHash, CudaSearch.Nonce, CudaSearch.Executes;
    assert x.Draw(j, hits(j));
    AllRun(x, jobs, hits, j, hits(j)[slot].gid);
    ThreadIsRight(x, j, hits(j)[slot].gid);
  }

  /** And nothing is lost but ties and overflow: of the nonces in `n` launches, up to 2^64 of them, a
      nonce is submitted exactly when the host's hash is below the boundary in the top 64 bits and the
      thread drew one of the four slots. */
  lemma SubmittedExactly(x: CudaSearch, jobs: seq<KernelSlots.Event>, hits: nat -> seq<Hit>, n: nat, j: nat, gid: word)
    requires Performed(x, jobs, hits) && Sound(x, jobs)
    requires j < n && gid < x.c.Batch() && n * x.c.Batch() <= M64
    ensures x.e.numItems > 0
    ensures
      (exists s :: s in Submitted(x.c, x.start, hits, n) && s.nonce == x.Nonce(j, gid))
      <==> (exists slot: nat :: Stored(x, hits, j, gid, slot))
  {
    hide Settings.Batch, Performed, Sound, CudaSearch.Nonce, CudaSearch.HostHash, CudaSearch.Runs,
      CudaSearch.Passes, CudaSearch.Verdict, CudaSearch.DigestAt, Reports, Submitted, Reported;
    AllRun(x, jobs, hits, j, gid);
    ThreadIsRight(x, j, gid);
    SubmittedIsReported(x.c, x.start, hits, n) by { SoundFacts(x, jobs); }
    if s :| s in Submitted(x.c, x.start, hits, n) && s.nonce == x.Nonce(j, gid) {
      ReportedFrom(x, hits, n, s);
      var j': nat, i: nat :| j' < n && From(x, hits, j', i, s);
      HitInBatch(x, jobs, hits, j', i);
      OneThread(x, n, j, gid, j', hits(j')[i].gid);
      StoredIsKept(x, jobs, hits, j, i);
      assert Stored(x, hits, j, gid, i);
    }
    if slot: nat :| Stored(x, hits, j, gid, slot) {
      var s := Solution(x.Nonce(j, gid), hits(j)[slot].mix);
      StoredIsKept(x, jobs, hits, j, slot);
      assert From(x, hits, j, slot, s);
      ReportedFrom(x, hits, n, s);
    }
  }

  lemma SoundFacts(x: CudaSearch, jobs: seq<KernelSlots.Event>)
    requires Sound(x, jobs)
    ensures x.c.Batch() * x.c.streams < M32
  {
  }

  lemma HitInBatch(x: CudaSearch, jobs: seq<KernelSlots.Event>, hits: nat -> seq<Hit>, j: nat, i: nat)
    requires Performed(x, jobs, hits) && i < |hits(j)|
    ensures hits(j)[i].gid < x.c.Batch()
  {
    hide KernelSlots.After, CudaSearch.Executes, CudaSearch.Passes, CudaSearch.DigestAt, Settings.Batch;
    assert x.Draw(j, hits(j));
  }

  lemma OneThread(x: CudaSearch, n: nat, j: nat, g: word, k: nat, h: word)
    requires j < n && k < n && g < x.c.Batch() && h < x.c.Batch() && n * x.c.Batch() <= M64
    requires x.Nonce(j, g) == x.Nonce(k, h)
    ensures j == k && g == h
  {
    hide Settings.Batch, Hashed;
    MulMonotonic(j + 1, n, x.c.Batch());
    MulMonotonic(k + 1, n, x.c.Batch());
    HashedOnce(x.c, x.start, j, g, k, h);
  }
}
