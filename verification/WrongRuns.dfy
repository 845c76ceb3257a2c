/** What an overtaken lane ends with. For every random program there are a dataset, registers and an
    OpenCL schedule of two calls (libcrypto/progpow.cpp) that finish with registers the host does not
    compute. */
module WrongRuns {
  import opened Bits
  import opened Words
  import opened MixRngs
  import opened Programs
  import opened ProgramProps
  import opened Kernels
  import opened Device
  import opened Rounds
  import opened Groups
  import opened Interleavings
  import opened Races

  // ----- a lane that receives the same word in every call -----

  /** Lane `l` after `n` calls if the word `x` reaches it in each of them. */
  ghost function Fed(k: Launch, l: laneIndex, x: word, n: nat): LaneState
    requires k.Valid() && n <= k.calls
  {
    if n == 0 then k.init[l] else Run(k.Code(), k.gpu, l, n - 1, x, Fed(k, l, x, n - 1))
  }

  ghost function FedAt(k: Launch, l: laneIndex, x: word, p: Position): LaneState
    requires k.Valid() && InCode(k, p)
  {
    Run(k.Code()[..p.pc], k.gpu, l, p.call, x, Fed(k, l, x, p.call))
  }

  lemma FedStatement(k: Launch, l: laneIndex, x: word, p: Position)
    requires k.Valid() && p.call < k.calls && p.pc < |k.Code()|
    ensures FedAt(k, l, x, Position(p.call, p.pc + 1))
         == Exec(k.Code()[p.pc], k.gpu, l, p.call, x, FedAt(k, l, x, p))
  {
    hide Exec, Kernel, Fed;
    var c := k.Code();
    assert c[..p.pc + 1][..p.pc] == c[..p.pc];
  }

  lemma FedReturn(k: Launch, l: laneIndex, x: word, p: Position)
    requires k.Valid() && p.call < k.calls && p.pc == |k.Code()|
    ensures FedAt(k, l, x, Position(p.call + 1, 0)) == FedAt(k, l, x, p)
  {
    hide Exec, Kernel;
    assert k.Code()[..p.pc] == k.Code() && k.Code()[..0] == [];
  }

  /** Before its first read a lane does not know the word. */
  lemma {:induction false} NotYetRead(k: Launch, l: laneIndex, x: word, y: word, n: nat)
    requires k.Valid() && k.kind.OpenCL? && n <= 3 && |k.Code()| > 4
    ensures Run(k.Code()[..n], k.gpu, l, 0, x, k.init[l]) == Run(k.Code()[..n], k.gpu, l, 0, y, k.init[l])
  {
    hide Exec, Kernel;
    if n > 0 {
      var c := k.Code();
      NotYetRead(k, l, x, y, n - 1);
      KernelShape(k.kind, k.g);
      assert PlacedRight(k.kind, n - 1, c[n - 1]);
      assert c[..n][..n - 1] == c[..n - 1];
      IncomingUnused(c[n - 1], k.gpu, l, 0, x, y, Run(c[..n - 1], k.gpu, l, 0, x, k.init[l]));
    }
  }

  // ----- runs of two calls -----

  /** The second word is in the cell and is the only one lane `m` has ever received. */
  ghost predicate Misled(k: Launch, s: Group, m: laneIndex, x: word)
    requires k.Valid()
  {
    && |s.at| == 16 && Ordered(k, s) && InCode(k, s.at[m])
    && Published(s, 1) && s.share == x && s.lanes[m] == FedAt(k, m, x, s.at[m])
  }

  lemma MisledStays(k: Launch, s: Group, t: Group, m: laneIndex, x: word)
    requires k.Valid() && k.kind.OpenCL? && k.calls == 2 && Misled(k, s, m, x) && Advance(k, s, t)
    ensures Misled(k, t, m, x)
  {
    hide Kernel, Exec, FedAt, Ordered, GroupShuffle;
    AdvanceKeepsOrder(k, s, t);
    NoMorePublished(k, s);
    NeverShuffles(k, s, t);
    var l: laneIndex :| LaneStatement(k, s, t, l) || LaneReturns(k, s, t, l);
    assert t.share == s.share;
    if l == m {
      if LaneStatement(k, s, t, l) {
        FedStatement(k, m, x, s.at[m]);
      } else {
        FedReturn(k, m, x, s.at[m]);
      }
    }
  }

  lemma NeverShuffles(k: Launch, s: Group, t: Group)
    requires k.Valid() && k.kind.OpenCL? && |s.at| == 16
    ensures !GroupShuffle(k, s, t)
  {
    hide Kernel, Exec;
    KernelShape(k.kind, k.g);
    assert s.at[0].pc < |k.Code()| ==> PlacedRight(k.kind, s.at[0].pc, k.Code()[s.at[0].pc]);
  }

  /** With the word of the second of two calls in the cell no lane is left to publish. */
  lemma NoMorePublished(k: Launch, s: Group)
    requires k.Valid() && k.kind.OpenCL? && k.calls == 2 && |s.at| == 16 && Ordered(k, s) && Published(s, 1)
    ensures forall l: laneIndex :: About(k, s, l, SharePublish) ==> l != s.at[l].call % 16
  {
    hide Kernel, Ordered;
    KernelShape(k.kind, k.g);
    PublishedAfter(k, s, 1, 0);
    forall l: laneIndex | About(k, s, l, SharePublish) ensures l != s.at[l].call % 16 {
      assert PlacedRight(k.kind, s.at[l].pc, k.Code()[s.at[l].pc]);
      assert Reached(s.at[l], 0, 2);
    }
  }

  lemma {:induction false} MisledToTheEnd(k: Launch, run: seq<Group>, j: nat, m: laneIndex, x: word)
    requires k.Valid() && k.kind.OpenCL? && k.calls == 2 && IsRun(k, run) && j < |run| && Misled(k, run[j], m, x)
    ensures Misled(k, Last(run), m, x)
    decreases |run| - j
  {
    hide Misled, Advance;
    if j < |run| - 1 {
      MisledStays(k, run[j], run[j + 1], m, x);
      MisledToTheEnd(k, run, j + 1, m, x);
    }
  }

  /** Lanes only go forward. */
  lemma {:induction false} ReachedStays(k: Launch, run: seq<Group>, i: nat, j: nat, m: laneIndex, c: nat, pc: nat)
    requires k.Valid() && IsRun(k, run) && i <= j < |run| && |run[i].at| == |run[j].at| == 16
    requires Reached(run[i].at[m], c, pc)
    ensures Reached(run[j].at[m], c, pc)
    decreases j - i
  {
    hide Kernel, Exec, Ordered;
    if i < j {
      StateOrdered(k, run, i + 1);
      assert Advance(k, run[i], run[i + 1]);
      KernelShape(k.kind, k.g);
      StepForward(k, run[i], run[i + 1], m, c, pc);
      ReachedStays(k, run, i + 1, j, m, c, pc);
    }
  }

  lemma StepForward(k: Launch, s: Group, t: Group, m: laneIndex, c: nat, pc: nat)
    requires k.Valid() && |s.at| == |t.at| == 16 && Advance(k, s, t) && Reached(s.at[m], c, pc)
    ensures Reached(t.at[m], c, pc)
  {
    hide Kernel, Exec;
  }

  /** The first state with the second word in the cell. */
  lemma FirstPublished(k: Launch, run: seq<Group>, i: nat) returns (j: nat)
    requires k.Valid() && IsRun(k, run) && i < |run| && |run[i].at| == 16 && Published(run[i], 1)
    ensures j <= i && |run[j].at| == 16 && Published(run[j], 1)
    ensures forall h :: 0 <= h < j ==> |run[h].at| == 16 && !Published(run[h], 1)
  {
    hide Published, Ordered, Advance;
    j := 0;
    StateOrdered(k, run, 0);
    while !Published(run[j], 1)
      invariant j <= i && |run[j].at| == 16
      invariant forall h :: 0 <= h < j ==> |run[h].at| == 16 && !Published(run[h], 1)
      decreases i - j
    {
      StateOrdered(k, run, j + 1);
      j := j + 1;
    }
  }

  /** Up to there no lane has read late. */
  lemma InTimeSoFar(k: Launch, run: seq<Group>, j: nat)
    requires k.Valid() && k.calls == 2 && IsRun(k, run) && j < |run|
    requires forall h :: 0 <= h < j ==> |run[h].at| == 16 && !Published(run[h], 1)
    ensures LanesExpected(k, run[j]) && CellHolds(k, run[j])
  {
    hide Kernel, Advance, LanesExpected, CellHolds, SameShared, Published, LateRead;
    var front := run[..j + 1];
    forall h | 0 <= h < j ensures |front[h].at| == 16 && NoLateRead(k, front[h], front[h + 1]) {
      assert InTime(k, run[h]);
      InTimeReads(k, run[h], run[h + 1]);
    }
    assert ReadsInTime(k, front);
    ExpectedExactly(k, front);
    assert front[j] == run[j];
  }

  /** In every finished run of two calls, a lane overtaken in the first receives the second word twice. */
  lemma OvertakenEnds(k: Launch, run: seq<Group>, i: nat, m: laneIndex)
    requires k.Valid() && k.kind.OpenCL? && k.calls == 2 && IsRun(k, run) && Finished(k, Last(run))
    requires i < |run| && |run[i].at| == 16 && Overtaken(k, run[i], 0, m)
    ensures Last(run).lanes[m] == Fed(k, m, SharedWord(k, 1), 2)
  {
    hide Kernel, Advance, SharedWord, Ordered, Run, Fed;
    KernelShape(k.kind, k.g);
    var j := FirstPublished(k, run, i);
    StateOrdered(k, run, j);
    InTimeSoFar(k, run, j);
    var s, x := run[j], SharedWord(k, 1);
    if Reached(s.at[m], 0, 4) {
      ReachedStays(k, run, j, i, m, 0, 4);
    }
    SecondWord(k, s);
    NotYetRead(k, m, SharedWord(k, 0), x, s.at[m].pc);
    FirstCall(k, m, x, s.at[m].pc);
    MisledToTheEnd(k, run, j, m, x);
    assert k.Code()[..0] == [];
    EmptyRun(k.gpu, m, 2, x, Fed(k, m, x, 2));
  }

  lemma SecondWord(k: Launch, s: Group)
    requires k.Valid() && k.kind.OpenCL? && k.calls == 2 && LanesExpected(k, s) && CellHolds(k, s) && Published(s, 1)
    ensures s.share == SharedWord(k, 1)
  {
    hide Kernel, SharedWord, AsExpected;
    assert InCode(k, s.at[2]);
    assert Interleavings.Latest(s, 1);
  }

  lemma FirstCall(k: Launch, m: laneIndex, x: word, pc: nat)
    requires k.Valid() && k.calls == 2 && pc <= |k.Code()|
    ensures FedAt(k, m, x, Position(0, pc)) == Run(k.Code()[..pc], k.gpu, m, 0, x, k.init[m])
    ensures Expected(k, m, Position(0, pc)) == Run(k.Code()[..pc], k.gpu, m, 0, SharedWord(k, 0), k.init[m])
  {
    hide Kernel, Run, SharedWord;
  }

  // ----- registers after two calls -----

  /** One more call, in the host's terms: of a lane fed `x`, and of the calls as they should be. */
  lemma OneMoreCall(k: Launch, m: laneIndex, x: word, n: nat)
    requires k.Valid() && k.kind.OpenCL? && n < k.calls && k.gpu.platform.Harmless()
    ensures
      var ops, l1 := Program(k.g), k.gpu.cache;
      var was, right := Fed(k, m, x, n).arg, Calls(n, k.kind, k.g, k.gpu, k.init)[m].arg;
      && Fed(k, m, x, n + 1).arg == LaneRun(ops, was, LaneLoads(k.gpu, m, n, x), l1)
      && Calls(n + 1, k.kind, k.g, k.gpu, k.init)[m].arg
         == LaneRun(ops, right, LaneLoads(k.gpu, m, n, SharedWord(k, n)), l1)
  {
    hide Kernel, Run, LaneRun, LaneLoads, Program;
    var was, right := Fed(k, m, x, n), Calls(n, k.kind, k.g, k.gpu, k.init)[m];
    KernelRuns(k.kind, k.g, was.arg, k.gpu, m, n, x, was);
    KernelRuns(k.kind, k.g, right.arg, k.gpu, m, n, SharedWord(k, n), right);
  }

  /** After two calls a lane fed the second word twice differs from what it should be, if it loaded
      another last dataset word for it. */
  lemma DifferentInTheEnd(k: Launch, lo: word, hi: word, m: laneIndex, v: word)
    requires k.Valid() && k.kind.OpenCL? && k.calls == 2 && k.gpu.platform.Harmless() && k.g == Seeded(lo, hi)
    requires
      var wrong := LaneLoads(k.gpu, m, 0, SharedWord(k, 1));
      v != wrong[3] && LaneLoads(k.gpu, m, 0, SharedWord(k, 0)) == wrong[3 := v]
    ensures Fed(k, m, SharedWord(k, 1), k.calls).arg != Calls(k.calls, k.kind, k.g, k.gpu, k.init)[m].arg
  {
    hide Seeded, Kernel, Run, LaneRun, LaneLoads, Program, SharedWord;
    var x := SharedWord(k, 1);
    OneMoreCall(k, m, x, 0);
    OneMoreCall(k, m, x, 1);
    LastWordRemembered(lo, hi, k.init[m].arg, LaneLoads(k.gpu, m, 0, x), v, LaneLoads(k.gpu, m, 1, x), k.gpu.cache);
  }

  // ----- the dataset and the launch -----

  /** All words zero but the last one of lane `m`'s chunk in item `i`. */
  function Marked(i: word, m: laneIndex): word -> Item {
    (j: word) => seq(64, w => if j == i && w == 4 * m + 3 then 1 else 0)
  }

  /** The device's view of a dataset. */
  function Served(e: Epoch): Gpu {
    Gpu((a: word) => Chunk(e.item(a / 16), a % 16), e.numItems, e.l1, OpenClRotate)
  }

  lemma ServedServes(e: Epoch)
    requires e.numItems > 0
    ensures Serves(Served(e), e)
  {
    hide Chunk;
  }

  lemma MarkedLoads(e: Epoch, i: word, m: laneIndex, l: laneIndex, x: word)
    requires 1 < e.numItems <= ADDRESSABLE && i < e.numItems && e.item == Marked(i, m)
    ensures LaneLoads(Served(e), l, 0, x) == [0, 0, 0, if l == m && x % e.numItems == i then 1 else 0]
  {
    hide ChunkOf, DagAddress, Serves;
    ServedServes(e);
    LoadsAgree(Served(e), e, l, 0, x);
    ChunkIsXor(l, 0);
    XorZero(l);
    var item := e.item(x % e.numItems);
    assert Chunk(item, l) == [item[4 * l], item[4 * l + 1], item[4 * l + 2], item[4 * l + 3]];
  }

  /** The word lane 1 has to share in call 1 on a dataset whose mark it does not see. */
  ghost function Unmarked(g: RngState, cache: Cache, init: Lanes): word
    requires |g.dst| == |g.src| == REGS
  {
    LaneRun(Program(g), init[1].arg, [0, 0, 0, 0], cache)[0]
  }

  function OtherItem(x: word, elements: word): (i: word)
    requires elements > 1
    ensures i < elements && i % elements == i != x % elements
  {
    if x % elements == 0 then 1 else 0
  }

  /** Lane 0 shares an item other than the one lane 1 is going to share, and the mark is there. */
  ghost function Trap(g: RngState, elements: word, cache: Cache, init: Lanes, m: laneIndex): (Epoch, Launch)
    requires |g.dst| == |g.src| == REGS && 1 < elements <= ADDRESSABLE
  {
    var i := OtherItem(Unmarked(g, cache, init), elements);
    var e := Epoch(Marked(i, m), elements, cache);
    (e, Launch(OpenCL, g, Served(e), init[0 := init[0].(arg := init[0].arg[0 := i])], 2))
  }

  lemma TrapWords(g: RngState, elements: word, cache: Cache, init: Lanes, m: laneIndex)
    requires |g.dst| == |g.src| == REGS && 1 < elements <= ADDRESSABLE && m != 1
    ensures
      var (e, k) := Trap(g, elements, cache, init, m);
      && k.Valid() && k.gpu.platform.Harmless() && k.gpu == Served(e)
      && SharedWord(k, 0) == k.init[0].arg[0] && SharedWord(k, 1) == Unmarked(g, cache, init)
  {
    hide LaneRun, LaneLoads, Program, Kernel, Run, Marked, SharedWord, OtherItem;
    var (e, k) := Trap(g, elements, cache, init, m);
    var i := k.init[0].arg[0];
    FirstWords(k);
    MarkedLoads(e, i, m, 1, i);
  }

  /** The words shared in the first two calls. */
  lemma FirstWords(k: Launch)
    requires k.Valid() && k.kind.OpenCL? && k.calls > 0 && k.gpu.platform.Harmless()
    ensures SharedWord(k, 0) == k.init[0].arg[0]
    ensures SharedWord(k, 1)
         == LaneRun(Program(k.g), k.init[1].arg, LaneLoads(k.gpu, 1, 0, SharedWord(k, 0)), k.gpu.cache)[0]
  {
    hide LaneRun, LaneLoads, Program, Kernel, Run;
    OneMoreCall(k, 1, 0, 0);
  }

  /** Its two words name different items, and lane `m` loads another last word for them. */
  lemma Trapped(g: RngState, elements: word, cache: Cache, init: Lanes, m: laneIndex)
    requires |g.dst| == |g.src| == REGS && 1 < elements <= ADDRESSABLE && m != 1
    ensures
      var (e, k) := Trap(g, elements, cache, init, m);
      && k.Valid() && Serves(k.gpu, e) && k.gpu.platform.Harmless() && !SameShared(k, 0)
      && LaneLoads(k.gpu, m, 0, SharedWord(k, 0)) == [0, 0, 0, 1]
      && LaneLoads(k.gpu, m, 0, SharedWord(k, 1)) == [0, 0, 0, 0]
  {
    hide LaneLoads, Serves, Kernel, Served, SharedWord, Unmarked, Marked, OtherItem;
    var (e, k) := Trap(g, elements, cache, init, m);
    TrapWords(g, elements, cache, init, m);
    ServedServes(e);
    ServesFacts(k.gpu, e);
    var i := SharedWord(k, 0);
    MarkedLoads(e, i, m, m, i);
    MarkedLoads(e, i, m, m, SharedWord(k, 1));
  }

  /** For every random program, number of items up to 2^28, cache, registers of the lanes (but the word
      lane 0 shares first) and lane but lane 1, there are a dataset and a schedule of two calls that
      finishes with registers in this lane other than the host's. */
  lemma RaceChangesRegisters(lo: word, hi: word, elements: word, cache: Cache, init: Lanes, m: laneIndex)
    returns (e: Epoch, k: Launch, run: seq<Group>)
    requires 1 < elements <= ADDRESSABLE && m != 1
    ensures k.Valid() && k.kind.OpenCL? && k.calls == 2 && k.g == Seeded(lo, hi)
    ensures e.numItems == elements && e.l1 == cache && Serves(k.gpu, e)
    ensures forall l: laneIndex :: l != 0 ==> k.init[l] == init[l]
    ensures IsRun(k, run) && Finished(k, Last(run))
    ensures Results(k.kind, Last(run).lanes)[m] != HostRounds(2, e, k.g, Results(k.kind, k.init))[m]
  {
    hide Seeded, LaneLoads, Serves, Kernel, IsRun, Finished, HostRounds, Calls, Fed, SharedWord, Trap, SameShared;
    var g := Seeded(lo, hi);
    Trapped(g, elements, cache, init, m);
    TrapShape(g, elements, cache, init, m);
    var trap := Trap(g, elements, cache, init, m);
    e, k := trap.0, trap.1;
    var i;
    run, i := OvertakingHappens(k, Group(k.init, seq(16, _ => Position(0, 0)), 0), 0, m);
    OvertakenEnds(k, run, i, m);
    DifferentInTheEnd(k, lo, hi, m, 1);
    CallsAreRounds(k.calls, k.kind, g, k.gpu, e, k.init);
    WrapsUnseen(k.calls, e, g, Results(k.kind, k.init));
  }

  lemma TrapShape(g: RngState, elements: word, cache: Cache, init: Lanes, m: laneIndex)
    requires |g.dst| == |g.src| == REGS && 1 < elements <= ADDRESSABLE
    ensures
      var (e, k) := Trap(g, elements, cache, init, m);
      && k.kind.OpenCL? && k.calls == 2 && k.g == g && e.numItems == elements && e.l1 == cache
      && forall l: laneIndex :: l != 0 ==> k.init[l] == init[l]
  {
    hide Unmarked, Marked, Served;
  }
}
