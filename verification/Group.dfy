/** Sixteen lanes running the generated function call after call, against the host's rounds. */
module Groups {
  import opened Words
  import opened MixRngs
  import opened Programs
  import opened Kernels
  import opened Device
  import opened Rounds

  const ZERO_LANE: LaneState := LaneState(ZERO_ROW, ZERO_ROW, 0, 0, [0, 0, 0, 0])
  type Lanes = s: seq<LaneState> | |s| == 16 witness seq<LaneState>(16, _ => ZERO_LANE)

  // ----- the dataset as host and device address it -----

  const ADDRESSABLE: nat := 0x1000_0000

  /** The device's elements are the host's items cut into sixteen 4-word chunks, as far as a 32-bit
      element index reaches; rotating by 0 is harmless on it. */
  ghost predicate Serves(gpu: Gpu, e: Epoch) {
    gpu.elements == e.numItems > 0 && gpu.cache == e.l1 && gpu.platform.Harmless()
    && forall i: word, c: laneIndex ::
         i < e.numItems && i * 16 + c < M32 ==> gpu.dag(i * 16 + c) == Chunk(e.item(i), c)
  }

  /** The dataset the generated code sees: its element index wraps at item 2^28. */
  function Wrapped(e: Epoch): Epoch {
    e.(item := i => e.item(i % ADDRESSABLE))
  }

  /** The 32-bit index of a chunk names the item modulo 2^28. */
  lemma AddressWraps(i: word, l: laneIndex, r: word)
    ensures DagAddress(i, l, r) == (i % ADDRESSABLE) * 16 + ChunkOf(l, r)
  {
    hide Xor32;
  }

  /** So it is the real one exactly up to item 2^28. */
  lemma AddressExact(i: word, l: laneIndex, r: word)
    ensures DagAddress(i, l, r) == i * 16 + ChunkOf(l, r) <==> i < ADDRESSABLE
  {
    AddressWraps(i, l, r);
  }

  /** Host and device lanes consume the same words of the dataset as the device sees it. */
  lemma LoadsAgree(gpu: Gpu, e: Epoch, l: laneIndex, loop: word, x: word)
    requires Serves(gpu, e)
    ensures LaneLoads(gpu, l, loop, x) == HostLoads(Wrapped(e).item(x % e.numItems), l, loop)
  {
    hide DagAddress, ChunkOf;
    AddressWraps(x % e.numItems, l, loop);
  }

  // ----- whole calls -----

  /** The word the sharing lane of call `loop` hands to the others. */
  function Incoming(kind: KernelType, loop: word, lanes: Lanes): word {
    Result(kind, lanes[loop % 16])[0]
  }

  /** All lanes after one call of the generated function. */
  function Call(kind: KernelType, g: RngState, gpu: Gpu, loop: word, lanes: Lanes): Lanes
    requires gpu.elements > 0 && |g.dst| == |g.src| == REGS
  {
    var code := Kernel(kind, g);
    var x := Incoming(kind, loop, lanes);
    seq(16, (l: int) requires 0 <= l < 16 => Run(code, gpu, l, loop, x, lanes[l]))
  }

  /** All lanes after the calls for loops 0, 1, ..., n - 1. */
  function Calls(n: nat, kind: KernelType, g: RngState, gpu: Gpu, lanes: Lanes): Lanes
    requires gpu.elements > 0 && |g.dst| == |g.src| == REGS && n <= M32
  {
    if n == 0 then lanes else Call(kind, g, gpu, n - 1, Calls(n - 1, kind, g, gpu, lanes))
  }

  function Results(kind: KernelType, lanes: Lanes): Rows {
    seq(16, (l: int) requires 0 <= l < 16 => Result(kind, lanes[l]))
  }

  /** The host's registers after rounds 0, 1, ..., n - 1. */
  function HostRounds(n: nat, e: Epoch, g: RngState, rows: Rows): Rows
    requires e.numItems > 0 && |g.dst| == |g.src| == REGS && n <= M32
  {
    if n == 0 then rows else RoundRows(e, n - 1, HostRounds(n - 1, e, g, rows), g)
  }

  /** One call of the generated kernel is one host round, on the dataset as the device sees it. */
  lemma CallIsRound(kind: KernelType, g: RngState, gpu: Gpu, e: Epoch, loop: word, lanes: Lanes)
    requires Serves(gpu, e) && |g.dst| == |g.src| == REGS
    ensures Results(kind, Call(kind, g, gpu, loop, lanes)) == RoundRows(Wrapped(e), loop, Results(kind, lanes), g)
  {
    hide Serves, Kernel, Run, LaneRun, LaneLoads, HostLoads, Program;
    ServesFacts(gpu, e);
    var x := Incoming(kind, loop, lanes);
    var rows := Results(kind, lanes);
    forall l: laneIndex
      ensures Results(kind, Call(kind, g, gpu, loop, lanes))[l] == RoundRows(Wrapped(e), loop, rows, g)[l]
    {
      KernelRuns(kind, g, rows[l], gpu, l, loop, x, lanes[l]);
      LoadsAgree(gpu, e, l, loop, x);
    }
  }

  lemma ServesFacts(gpu: Gpu, e: Epoch)
    requires Serves(gpu, e)
    ensures gpu.elements == e.numItems > 0 && gpu.cache == e.l1 && gpu.platform.Harmless()
  {
  }

  /** However many loops: the device's registers are the host's, on the dataset as it sees it. */
  lemma {:induction false} CallsAreRounds(
    n: nat, kind: KernelType, g: RngState, gpu: Gpu, e: Epoch, lanes: Lanes)
    requires Serves(gpu, e) && |g.dst| == |g.src| == REGS && n <= M32
    ensures e.numItems > 0
    ensures Results(kind, Calls(n, kind, g, gpu, lanes)) == HostRounds(n, Wrapped(e), g, Results(kind, lanes))
  {
    hide Serves, Call, RoundRows, Results;
    ServesFacts(gpu, e);
    if n > 0 {
      CallsAreRounds(n - 1, kind, g, gpu, e, lanes);
      CallIsRound(kind, g, gpu, e, n - 1, Calls(n - 1, kind, g, gpu, lanes));
    }
  }

  /** The rounds that touch only items below 2^28 see the real dataset. */
  ghost predicate Addressed(n: nat, e: Epoch, g: RngState, rows: Rows)
    requires e.numItems > 0 && |g.dst| == |g.src| == REGS && n <= M32
  {
    forall i: nat :: i < n ==> ItemOf(e, i, HostRounds(i, e, g, rows)) < ADDRESSABLE
  }

  /** The item a round loads. */
  function ItemOf(e: Epoch, r: word, rows: Rows): word
    requires e.numItems > 0
  {
    rows[r % 16][0] % e.numItems
  }

  /** While every item loaded is below 2^28, in particular for datasets of up to 2^28 items, the
      wrapped dataset makes no difference. */
  lemma {:induction false} WrapsUnseen(n: nat, e: Epoch, g: RngState, rows: Rows)
    requires e.numItems > 0 && |g.dst| == |g.src| == REGS && n <= M32
    requires e.numItems <= ADDRESSABLE || Addressed(n, e, g, rows)
    ensures HostRounds(n, Wrapped(e), g, rows) == HostRounds(n, e, g, rows)
  {
    hide LaneRun, HostLoads, Program;
    if n > 0 {
      WrapsUnseen(n - 1, e, g, rows);
      var before := HostRounds(n - 1, e, g, rows);
      assert ItemOf(e, n - 1, before) < ADDRESSABLE;
      assert SharedItem(Wrapped(e), n - 1, before) == SharedItem(e, n - 1, before);
    }
  }
}
