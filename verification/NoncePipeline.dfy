/** The nonce pipeline of the CUDA miner (libethash-cuda/CUDAMiner.cpp, `search`): several streams
    run one batch of nonces each, and the nonce of a hit is recovered from a running counter. The
    device, the stop and new-work flags are parameters. */
module NoncePipeline {
  import opened Arith
  import opened Words
  import opened HashMixes

  const MAX_SEARCH_RESULTS: nat := 4

  datatype Hit = Hit(gid: word, mix: Digest)

  datatype Solution = Solution(nonce: word64, mix: Digest)

  datatype Settings = Settings(grid: word, block: word, streams: word) {
    /** `m_batch_size`: nonces per launch. */
    function Batch(): word {
      (grid * block) % M32
    }

    /** `m_streams_batch_size`. */
    function StreamsBatch(): word {
      (grid * block * streams) % M32
    }
  }

  /** What one pass over the streams sees: new work or a pause at its start, a stop request after
      each stream, a stop request at its end. */
  datatype Pass = Pass(leave: bool, stops: seq<bool>, stop: bool)

  /** How many of the first `s` streams come before the first stop request. */
  function Leading(stops: seq<bool>, s: nat): (r: nat)
    requires s <= |stops|
    ensures r <= s
  {
    if s == 0 then 0
    else
      var r := Leading(stops, s - 1);
      if r == s - 1 && !stops[s - 1] then s else r
  }

  /** How many of the first `s` streams a pass restarts. */
  function Restarted(p: Pass, s: nat): (r: nat)
    requires s <= |p.stops|
    ensures r <= s
  {
    if p.leave then 0 else Leading(p.stops, s)
  }

  /** The flag `done` after `s` streams of a pass. */
  predicate Done(p: Pass, s: nat)
    requires s <= |p.stops|
  {
    p.leave || Leading(p.stops, s) < s
  }

  /** The pass is the last one. */
  predicate Ends(p: Pass) {
    Done(p, |p.stops|) || p.stop
  }

  /** The number of passes before the last one. */
  function EndsAt(passes: seq<Pass>): (n: nat)
    ensures n <= |passes|
    ensures forall i :: 0 <= i < n ==> !Ends(passes[i])
    ensures n < |passes| ==> Ends(passes[n])
  {
    if passes == [] || Ends(passes[0]) then 0 else 1 + EndsAt(passes[1..])
  }

  // ----- nonces -----

  /** The first nonce of launch `k`. */
  function Start(c: Settings, start: word64, k: nat): word64 {
    (start + k * c.Batch()) % M64
  }

  /** The `nonce_base` used for the hits of launch `k`, read when the counter is one round of streams
      further. */
  function Base(c: Settings, start: word64, k: nat): word64 {
    (Start(c, start, k + c.streams) - c.StreamsBatch()) % M64
  }

  function Starts(c: Settings, start: word64, n: nat): seq<word64> {
    seq(n, k requires 0 <= k < n => Start(c, start, k))
  }

  function Upto(n: nat): seq<nat> {
    seq(n, k requires 0 <= k < n => k)
  }

  /** The hits a result buffer has room for. */
  function Kept(hits: seq<Hit>): (r: seq<Hit>)
    ensures r <= hits && |r| <= MAX_SEARCH_RESULTS && (|hits| <= MAX_SEARCH_RESULTS ==> r == hits)
  {
    if |hits| <= MAX_SEARCH_RESULTS then hits else hits[..MAX_SEARCH_RESULTS]
  }

  /** The solutions for hits counted from nonce `base`. */
  function Solutions(base: word64, hits: seq<Hit>): seq<Solution> {
    seq(|hits|, i requires 0 <= i < |hits| => Solution((base + hits[i].gid) % M64, hits[i].mix))
  }

  /** The solutions submitted for the first `n` launches. */
  function Submitted(c: Settings, start: word64, hits: nat -> seq<Hit>, n: nat): seq<Solution> {
    if n == 0 then []
    else Submitted(c, start, hits, n - 1) + Solutions(Base(c, start, n - 1), Kept(hits(n - 1)))
  }

  lemma StartNext(c: Settings, start: word64, k: nat)
    ensures Start(c, start, k + 1) == (Start(c, start, k) + c.Batch()) % M64
  {
    MulDistributes(k, 1, c.Batch());
    ModAdd(start + k * c.Batch(), c.Batch());
  }

  lemma StartZero(c: Settings, start: word64)
    ensures Start(c, start, 0) == start
  {
  }

  lemma NoSolutions(base: word64, found: seq<Hit>)
    ensures |found| == 0 ==> Solutions(base, found) == []
  {
  }

  lemma StartsNext(c: Settings, start: word64, n: nat)
    ensures |Starts(c, start, n)| == n && Starts(c, start, n + 1) == Starts(c, start, n) + [Start(c, start, n)]
  {
  }

  lemma UptoNext(n: nat)
    ensures Upto(n + 1) == Upto(n) + [n]
  {
  }

  lemma ModAdd(a: int, b: int)
    ensures (a + b) % M64 == (a % M64 + b) % M64
  {
  }

  /** The first `harvested` launches were harvested once each, in order, and `pending` more were
      launched. */
  ghost predicate Outcome(c: Settings, start: word64, hits: nat -> seq<Hit>, harvested: nat, pending: nat,
                          x: Snapshot)
  {
    && x.harvests == Upto(harvested)
    && x.launches == Starts(c, start, harvested + pending)
    && x.submitted == Submitted(c, start, hits, harvested)
  }

  // ----- the miner -----

  /** Everything the loops change. */
  datatype Snapshot = Snapshot(
    launches: seq<word64>, harvests: seq<nat>, submitted: seq<Solution>, running: seq<nat>, buffers: seq<seq<Hit>>)

  /** The miner during a pass, `q` harvests after the start of the search: `s` streams of the pass
      are harvested and `r` of them restarted. */
  ghost predicate Pipelined(c: Settings, start: word64, hits: nat -> seq<Hit>, q: nat, s: nat, r: nat, x: Snapshot) {
    && r <= s <= c.streams == |x.running| == |x.buffers|
    && x.launches == Starts(c, start, q + c.streams + r)
    && x.harvests == Upto(q + s)
    && x.submitted == Submitted(c, start, hits, q + s)
    && (forall i :: 0 <= i < r ==> x.running[i] == q + c.streams + i)
    && (forall i :: s <= i < c.streams ==> x.running[i] == q + i)
    && (forall i :: 0 <= i < c.streams ==> x.buffers[i] == [])
  }

  lemma PipelinedFacts(c: Settings, start: word64, hits: nat -> seq<Hit>, q: nat, s: nat, r: nat, x: Snapshot)
    requires s < c.streams && Pipelined(c, start, hits, q, s, r, x)
    ensures x.running[s] == q + s && x.buffers[s] == []
  {
  }

  lemma HarvestKeeps(c: Settings, start: word64, hits: nat -> seq<Hit>, q: nat, s: nat, r: nat, done: bool,
                     x: Snapshot, y: Snapshot)
    requires s < c.streams && Pipelined(c, start, hits, q, s, r, x) && (!done ==> r == s)
    requires y.harvests == x.harvests + [x.running[s]] && y.buffers == x.buffers
    requires y.launches == if done then x.launches else x.launches + [Start(c, start, q + c.streams + s)]
    requires y.running == if done then x.running else x.running[s := |x.launches|]
    requires y.submitted == x.submitted + Solutions(Base(c, start, q + s), Kept(hits(q + s)))
    ensures Pipelined(c, start, hits, q, s + 1, if done then r else s + 1, y)
  {
    hide Start, Starts, Base, Solutions, Kept, Upto;
    StartsNext(c, start, q + c.streams + s);
    UptoNext(q + s);
  }

  datatype Ending = Skipped | Ended | Running

  lemma PassOver(c: Settings, start: word64, hits: nat -> seq<Hit>, q: nat, x: Snapshot)
    requires Pipelined(c, start, hits, q, c.streams, c.streams, x)
    ensures Pipelined(c, start, hits, q + c.streams, 0, 0, x)
  {
    hide Starts, Upto, Submitted;
  }

  lemma PipelinedOutcome(c: Settings, start: word64, hits: nat -> seq<Hit>, q: nat, s: nat, r: nat, x: Snapshot)
    requires Pipelined(c, start, hits, q, s, r, x)
    ensures Outcome(c, start, hits, q + s, c.streams - s + r, x)
  {
    hide Starts, Upto, Submitted;
  }

  lemma LeadingStart(p: Pass)
    ensures Leading(p.stops, 0) == 0
  {
  }

  lemma LeadingNext(p: Pass, s: nat)
    requires s < |p.stops|
    ensures Leading(p.stops, s + 1) == if Leading(p.stops, s) == s && !p.stops[s] then s + 1 else Leading(p.stops, s)
  {
  }

  class CudaMiner {
    const c: Settings
    var target: word64
    const running: array<nat>           // the launch each stream is working on
    const buffers: array<seq<Hit>>      // the hits written since the count was last cleared
    var submitted: seq<Solution>
    var launches: seq<word64>           // the first nonce of every launch
    ghost var harvests: seq<nat>        // the launches whose results were read, in order

    constructor (c: Settings)
      ensures this.c == c && Valid() && submitted == [] && fresh(running) && fresh(buffers)
    {
      this.c, target, submitted := c, 0, [];
      running := new nat[c.streams];
      buffers := new seq<Hit>[c.streams];
      launches, harvests := [], [];
    }

    ghost predicate Valid() {
      running.Length == c.streams && buffers.Length == c.streams
    }

    ghost function Now(): Snapshot
      reads this, running, buffers
    {
      Snapshot(launches, harvests, submitted, running[..], buffers[..])
    }

    ghost predicate Pipeline(start: word64, hits: nat -> seq<Hit>, q: nat, s: nat, r: nat)
      reads this, running, buffers
    {
      Pipelined(c, start, hits, q, s, r, Now())
    }

    method Launch(s: nat, nonce: word64)
      requires Valid() && s < c.streams
      modifies this`launches, running
      ensures running[..] == old(running[..])[s := |old(launches)|]
      ensures launches == old(launches) + [nonce]
    {
      running[s] := |launches|;
      launches := launches + [nonce];
    }

    /** Waits for a stream, reads its result buffer and clears the count if it is not zero. */
    method Collect(s: nat, hits: nat -> seq<Hit>) returns (found: seq<Hit>)
      requires Valid() && s < c.streams && buffers[s] == []
      modifies this`harvests, buffers
      ensures found == Kept(hits(running[s])) && harvests == old(harvests) + [running[s]]
      ensures buffers[..] == old(buffers[..])
    {
      buffers[s] := buffers[s] + hits(running[s]);
      harvests := harvests + [running[s]];
      found := Kept(buffers[s]);
      if |found| > 0 {
        buffers[s] := [];
      }
      assert buffers[s] == [];
    }

    /** One stream of a pass: collect its hits, restart it unless done, submit. */
    method Harvest(s: nat, nonce: word64, stop: bool, done0: bool, ghost start: word64, hits: nat -> seq<Hit>,
                   ghost q: nat, ghost r: nat)
      returns (done: bool)
      requires Valid() && s < c.streams && r <= s && (!done0 ==> r == s)
      requires Pipeline(start, hits, q, s, r) && nonce == Start(c, start, q + c.streams + s)
      modifies this`launches, this`harvests, this`submitted, running, buffers
      ensures done == (done0 || stop)
      ensures Pipeline(start, hits, q, s + 1, if done then r else s + 1)
    {
      hide Pipelined, Start, Submitted, Solutions, Kept, Settings.Batch, Settings.StreamsBatch;
      ghost var x := Now();
      PipelinedFacts(c, start, hits, q, s, r, x);
      var found := Collect(s, hits);
      done := done0 || stop;
      if !done {
        Launch(s, nonce);
      }
      if |found| > 0 {
        Submit((nonce - c.StreamsBatch()) % M64, found);
      }
      NoSolutions(Base(c, start, q + s), found);
      HarvestKeeps(c, start, hits, q, s, r, done, x, Now());
    }

    /** The submission loop. */
    method Submit(base: word64, found: seq<Hit>)
      modifies this`submitted
      ensures submitted == old(submitted) + Solutions(base, found)
    {
      for i := 0 to |found|
        invariant submitted == old(submitted) + Solutions(base, found[..i])
      {
        var nonce := (base + found[i].gid) % M64;
        submitted := submitted + [Solution(nonce, found[i].mix)];
        assert Solutions(base, found[..i + 1]) == Solutions(base, found[..i]) + [Solution(nonce, found[i].mix)];
      }
      assert found[..|found|] == found;
    }

    /** The prime loop: one launch per stream. */
    method Prime(start: word64, ghost hits: nat -> seq<Hit>) returns (nonce: word64)
      requires Valid()
      modifies this, running, buffers
      ensures target == old(target)
      ensures Pipeline(start, hits, 0, 0, 0) && nonce == Start(c, start, c.streams)
    {
      launches, harvests, submitted := [], [], [];
      nonce := start;
      StartZero(c, start);
      for s := 0 to c.streams
        invariant launches == Starts(c, start, s) && harvests == [] && submitted == [] && target == old(target)
        invariant nonce == Start(c, start, s)
        invariant forall i :: 0 <= i < s ==> running[i] == i && buffers[i] == []
      {
        hide Start;
        buffers[s] := [];
        Launch(s, nonce);
        StartNext(c, start, s);
        nonce := (nonce + c.Batch()) % M64;
      }
    }

    /** The inner loop: one pass over the streams. */
    method RunPass(nonce0: word64, pass: Pass, ghost start: word64, hits: nat -> seq<Hit>, ghost q: nat)
      returns (nonce: word64, done: bool)
      requires Valid() && |pass.stops| == c.streams
      requires Pipeline(start, hits, q, 0, 0) && nonce0 == Start(c, start, q + c.streams)
      modifies this`launches, this`harvests, this`submitted, running, buffers
      ensures Pipeline(start, hits, q, c.streams, Restarted(pass, c.streams))
      ensures nonce == Start(c, start, q + c.streams + c.streams)
      ensures done == Done(pass, c.streams)
    {
      hide Pipelined, Start, Settings.Batch, Leading;
      nonce, done := nonce0, pass.leave;
      LeadingStart(pass);
      for s := 0 to c.streams
        invariant Pipeline(start, hits, q, s, Restarted(pass, s))
        invariant nonce == Start(c, start, q + c.streams + s) && done == Done(pass, s)
      {
        StartNext(c, start, q + c.streams + s);
        LeadingNext(pass, s);
        done := Harvest(s, nonce, pass.stops[s], done, start, hits, q, Restarted(pass, s));
        nonce := (nonce + c.Batch()) % M64;
      }
    }

    /** `search`. The outer loop ends with the first pass that sees new work, a pause or a stop. */
    method Search(target: word64, start: word64, passes: seq<Pass>, hits: nat -> seq<Hit>) returns (r: Ending)
      requires Valid() && forall p :: p in passes ==> |p.stops| == c.streams
      modifies this, running, buffers
      ensures this.target == target
      ensures r == Skipped <==> target == M64 - 1
      ensures r == Skipped ==>
        submitted == old(submitted) && launches == old(launches) && harvests == old(harvests)
      ensures r == Running ==>
        EndsAt(passes) == |passes| && Outcome(c, start, hits, |passes| * c.streams, c.streams, Now())
      ensures r == Ended ==>
        && EndsAt(passes) < |passes|
        && Outcome(c, start, hits, (EndsAt(passes) + 1) * c.streams,
                   Restarted(passes[EndsAt(passes)], c.streams), Now())
    {
      hide Pipelined, Start, Outcome, Restarted, Done, Ends;
      if this.target != target {
        this.target := target;
      }
      if target == M64 - 1 {
        return Skipped;
      }
      var nonce := Prime(start, hits);
      var i := 0;
      ghost var q := 0;
      while i < |passes|
        invariant 0 <= i <= EndsAt(passes) && q == i * c.streams
        invariant Pipeline(start, hits, q, 0, 0) && nonce == Start(c, start, q + c.streams)
        invariant this.target == target
      {
        var done;
        nonce, done := RunPass(nonce, passes[i], start, hits, q);
        MulDistributes(i, 1, c.streams);
        EndsIs(passes[i]);
        if done || passes[i].stop {
          PipelinedOutcome(c, start, hits, q, c.streams, Restarted(passes[i], c.streams), Now());
          return Ended;
        }
        RestartedAll(passes[i], c.streams);
        PassOver(c, start, hits, q, Now());
        q := q + c.streams;
        i := i + 1;
      }
      PipelinedOutcome(c, start, hits, q, 0, 0, Now());
      return Running;
    }
  }

  lemma EndsIs(p: Pass)
    ensures Ends(p) <==> Done(p, |p.stops|) || p.stop
  {
  }

  lemma RestartedAll(p: Pass, s: nat)
    requires s <= |p.stops|
    ensures Restarted(p, s) == s <==> (s == 0 || !Done(p, s))
  {
  }

  // ----- which batches are pending -----

  /** The streams restarted before the first stop request are those before it. */
  lemma {:induction false} LeadingIs(stops: seq<bool>, s: nat)
    requires s <= |stops|
    ensures var r := Leading(stops, s); (forall i :: 0 <= i < r ==> !stops[i]) && (r < s ==> stops[r])
  {
    if s > 0 {
      LeadingIs(stops, s - 1);
    }
  }

  /** A last pass leaves no batch unread exactly when it saw new work or a pause, or the stop request
      came at its first stream. */
  lemma NothingPending(p: Pass)
    ensures Restarted(p, |p.stops|) == 0 <==> p.leave || p.stops == [] || p.stops[0]
  {
    LeadingIs(p.stops, |p.stops|);
  }

  // ----- which nonces are reported -----

  lemma BatchesWrap(c: Settings)
    ensures c.StreamsBatch() == (c.Batch() * c.streams) % M32
    ensures 0 <= c.Batch() * c.streams < M64
  {
    var x := c.grid * c.block;
    DivMod(x, M32);
    MulDistributes((x / M32) * M32, x % M32, c.streams);
    MulAssociates(M32, x / M32, c.streams);
    MulMonotonic(c.Batch(), M32 - 1, c.streams);
    MulMonotonic(0, c.Batch(), c.streams);
    ModDrop(x / M32 * c.streams, c.Batch() * c.streams);
  }

  lemma ModDrop(q: int, x: int)
    ensures (M32 * q + x) % M32 == x % M32
  {
    DivMod(x, M32);
    DivModIs(M32 * q + x, q + x / M32, x % M32, M32);
  }

  lemma ModDifference(a: word64, x: int, y: int)
    requires 0 <= y <= x < M64
    ensures ((a + x) % M64 - y) % M64 == a <==> x == y
  {
    var m := if a + x < M64 then a + x else a + x - M64;
    DivModIs(a + x, if a + x < M64 then 0 else 1, m, M64);
    var d := m - y;
    DivModIs(d, if d < 0 then -1 else 0, if d < 0 then d + M64 else d, M64);
  }

  /** The base recovered for any launch is its first nonce exactly when one round of batches stays
      below 2^32. */
  lemma BaseExact(c: Settings, start: word64, k: nat)
    ensures Base(c, start, k) == Start(c, start, k) <==> c.Batch() * c.streams < M32
  {
    hide Settings.Batch, Settings.StreamsBatch;
    BatchesWrap(c);
    var x := c.Batch() * c.streams;
    MulDistributes(k, c.streams, c.Batch());
    ModAdd(start + k * c.Batch(), x);
    DivMod(x, M32);
    DivShrinks(x, M32);
    if x < M32 {
      DivModIs(x, 0, x, M32);
    }
    ModDifference(Start(c, start, k), x, c.StreamsBatch());
  }

  /** The nonce the device hashed in thread `gid` of launch `k`. */
  function Hashed(c: Settings, start: word64, k: nat, gid: word): word64 {
    (Start(c, start, k) + gid) % M64
  }

  /** So a submitted nonce is the hashed one under that condition, and never otherwise. */
  lemma NonceExact(c: Settings, start: word64, k: nat, hit: Hit)
    ensures Solutions(Base(c, start, k), [hit]) == [Solution(Hashed(c, start, k, hit.gid), hit.mix)]
      <==> c.Batch() * c.streams < M32
  {
    BaseExact(c, start, k);
    hide Base, Start;
    var sols := Solutions(Base(c, start, k), [hit]);
    assert sols[0].nonce == (Base(c, start, k) + hit.gid) % M64;
    SameShift(Base(c, start, k), Start(c, start, k), hit.gid);
  }

  lemma SameShift(a: word64, b: word64, g: word)
    ensures (a + g) % M64 == (b + g) % M64 <==> a == b
  {
  }

  /** The hits of a launch under the nonces that were hashed. */
  function Reported(c: Settings, start: word64, hits: nat -> seq<Hit>, n: nat): seq<Solution> {
    if n == 0 then []
    else
      var kept := Kept(hits(n - 1));
      Reported(c, start, hits, n - 1)
      + seq(|kept|, i requires 0 <= i < |kept| => Solution(Hashed(c, start, n - 1, kept[i].gid), kept[i].mix))
  }

  /** Everything submitted is reported under the nonce that was hashed. */
  lemma {:induction false} SubmittedIsReported(c: Settings, start: word64, hits: nat -> seq<Hit>, n: nat)
    requires c.Batch() * c.streams < M32
    ensures Submitted(c, start, hits, n) == Reported(c, start, hits, n)
  {
    hide Settings.Batch, Settings.StreamsBatch, Base, Start;
    if n > 0 {
      SubmittedIsReported(c, start, hits, n - 1);
      BaseExact(c, start, n - 1);
    }
  }

  // ----- which nonces are hashed -----

  lemma HashedIsOffset(c: Settings, start: word64, k: nat, g: word)
    ensures Hashed(c, start, k, g) == (start + (k * c.Batch() + g)) % M64
  {
    ModAdd(start + k * c.Batch(), g);
  }

  /** Batches do not overlap: until 2^64 nonces are hashed, a nonce is hashed by one thread of one
      launch only. */
  lemma HashedOnce(c: Settings, start: word64, j: nat, g: word, k: nat, h: word)
    requires g < c.Batch() && h < c.Batch() && (j + 1) * c.Batch() <= M64 && (k + 1) * c.Batch() <= M64
    ensures Hashed(c, start, j, g) == Hashed(c, start, k, h) <==> j == k && g == h
  {
    hide Settings.Batch;
    HashedIsOffset(c, start, j, g);
    HashedIsOffset(c, start, k, h);
    var b := c.Batch();
    MulDistributes(j, 1, b);
    MulDistributes(k, 1, b);
    MulMonotonic(0, j, b);
    MulMonotonic(0, k, b);
    ShiftInjective(start, j * b + g, k * b + h);
    if j * b + g == k * b + h {
      EuclidUnique(j, g, k, h, b);
    }
  }

  lemma ShiftInjective(start: word64, x: nat, y: nat)
    requires x < M64 && y < M64
    ensures (start + x) % M64 == (start + y) % M64 <==> x == y
  {
  }

  /** Batches leave no gap: `n` launches hash every nonce of `n` batches. */
  lemma HashedAll(c: Settings, start: word64, n: nat, o: nat) returns (k: nat, g: word)
    requires o < n * c.Batch()
    ensures k < n && g < c.Batch() && Hashed(c, start, k, g) == (start + o) % M64
  {
    hide Settings.Batch;
    var b := c.Batch();
    if b == 0 {
      MulAssociates(n, 0, 1);
      assert false;
    }
    DivMod(o, b);
    DivBelow(o, n, b);
    k, g := o / b, o % b;
    HashedIsOffset(c, start, k, g);
  }

  /** Settings the command line accepts (grid up to 131072, block 512, streams up to 99) under which
      every reported nonce is wrong. */
  lemma CommandLineAllowsWrap(start: word64, k: nat)
    ensures var c := Settings(131072, 512, 64); c.Batch() * c.streams == M32 && Base(c, start, k) != Start(c, start, k)
  {
    BaseExact(Settings(131072, 512, 64), start, k);
  }
}
