/** Sixteen lanes executing the generated code each at its own pace, against the host's interpreter:
    which schedules leave the registers as the host leaves them. */
module Interleavings {
  import opened Words
  import opened MixRngs
  import opened Programs
  import opened Kernels
  import opened Device
  import opened Rounds
  import opened Groups

  /** Where a lane is: which call it is in and how many of its statements it has executed. */
  datatype Position = Position(call: nat, pc: nat)

  datatype Group = Group(lanes: Lanes, at: seq<Position>, share: word)

  /** A launch: the generated code run by sixteen lanes for `calls` loops. */
  datatype Launch = Launch(kind: KernelType, g: RngState, gpu: Gpu, init: Lanes, calls: nat)
  {
    ghost predicate Valid() {
      gpu.elements > 0 && |g.dst| == |g.src| == REGS && calls < M32
    }

    function Code(): seq<Instr>
      requires |g.dst| == |g.src| == REGS
    {
      Kernel(kind, g)
    }
  }

  ghost predicate Initial(k: Launch, s: Group) {
    s.lanes == k.init && |s.at| == 16 && forall l: laneIndex :: s.at[l] == Position(0, 0)
  }

  ghost predicate Finished(k: Launch, s: Group) {
    |s.at| == 16 && forall l: laneIndex :: s.at[l] == Position(k.calls, 0)
  }

  /** `p` is at or past statement `pc` of call `call`. */
  predicate Reached(p: Position, call: nat, pc: nat) {
    p.call > call || (p.call == call && p.pc >= pc)
  }

  ghost predicate AllReached(s: Group, call: nat, pc: nat)
    requires |s.at| == 16
  {
    forall k: laneIndex :: Reached(s.at[k], call, pc)
  }

  /** The statement lane `l` executes next, if it is inside a call. */
  ghost predicate About(k: Launch, s: Group, l: laneIndex, ins: Instr)
    requires k.Valid() && |s.at| == 16
  {
    s.at[l].call < k.calls && s.at[l].pc < |k.Code()| && k.Code()[s.at[l].pc] == ins
  }

  /** A lane executes its next statement by itself. A barrier is passed only once every lane has
      arrived at it; a shuffle is not executed by one lane alone. */
  ghost predicate LaneStatement(k: Launch, s: Group, t: Group, l: laneIndex)
    requires k.Valid() && |s.at| == 16
  {
    var p := s.at[l];
    && p.call < k.calls && p.pc < |k.Code()|
    && var ins := k.Code()[p.pc];
    && ins != Shuffle
    && (ins == Barrier ==> AllReached(s, p.call, p.pc))
    && t.lanes == s.lanes[l := Exec(ins, k.gpu, l, p.call, s.share, s.lanes[l])]
    && t.at == s.at[l := Position(p.call, p.pc + 1)]
    && t.share == if ins == SharePublish && l == p.call % 16 then s.lanes[l].mix[0] else s.share
  }

  /** The warp shuffle: all lanes exchange at once. */
  ghost predicate GroupShuffle(k: Launch, s: Group, t: Group)
    requires k.Valid() && |s.at| == 16
  {
    var p := s.at[0];
    && p.call < k.calls && p.pc < |k.Code()| && k.Code()[p.pc] == Shuffle
    && (forall l: laneIndex :: s.at[l] == p)
    && |t.at| == 16 && t.share == s.share
    && forall l: laneIndex ::
         t.at[l] == Position(p.call, p.pc + 1)
         && t.lanes[l] == Exec(Shuffle, k.gpu, l, p.call, s.lanes[p.call % 16].mix[0], s.lanes[l])
  }

  /** A lane returns from one call and enters the next, whatever the other lanes are doing. */
  ghost predicate LaneReturns(k: Launch, s: Group, t: Group, l: laneIndex)
    requires k.Valid() && |s.at| == 16
  {
    var p := s.at[l];
    && p.call < k.calls && p.pc == |k.Code()|
    && t.lanes == s.lanes && t.share == s.share
    && t.at == s.at[l := Position(p.call + 1, 0)]
  }

  ghost predicate Advance(k: Launch, s: Group, t: Group)
    requires k.Valid() && |s.at| == 16
  {
    GroupShuffle(k, s, t) || exists l: laneIndex :: LaneStatement(k, s, t, l) || LaneReturns(k, s, t, l)
  }

  // ----- the shape of the code: where lanes touch each other -----

  predicate Local(ins: Instr) {
    ins != Shuffle && ins != SharePublish && ins != Barrier && ins != ShareRead && ins != CopyIn
  }

  ghost predicate AllLocal(code: seq<Instr>) {
    forall q :: 0 <= q < |code| ==> Local(code[q])
  }

  lemma LocalAppends(c: seq<Instr>, d: seq<Instr>, n: nat)
    requires n <= |c| && AllLocal(c[n..]) && AllLocal(d)
    ensures AllLocal((c + d)[n..])
  {
    assert (c + d)[n..] == c[n..] + d;
  }

  lemma EmitLocal(op: Op)
    ensures AllLocal(Emit(op))
  {
  }

  lemma {:induction false} EmittedLocal(ops: seq<Op>)
    ensures AllLocal(EmitAll(ops))
  {
    hide Emit;
    if |ops| > 0 {
      EmittedLocal(ops[..|ops| - 1]);
      EmitLocal(ops[|ops| - 1]);
    }
  }

  lemma {:induction false} KernelUpToLocal(n: nat, kind: KernelType, g: RngState)
    requires n <= DAG_LOADS && |g.dst| == |g.src| == REGS
    ensures Prologue(kind) <= KernelUpTo(n, kind, g)
    ensures AllLocal(KernelUpTo(n, kind, g)[|Prologue(kind)|..])
  {
    hide DrawLoop, DrawDag, Emit, EmitAll, Prologue;
    var p := Prologue(kind);
    if n == 0 {
      var ops := DrawLoop(MATH_COUNT, g).ops;
      EmittedLocal(ops);
      assert (p + EmitAll(ops) + [Fence])[|p|..] == EmitAll(ops) + [Fence];
    } else {
      var op := DrawTail(n, g).ops[|DrawTail(n, g).ops| - 1];
      KernelUpToLocal(n - 1, kind, g);
      EmitLocal(op);
      LocalAppends(KernelUpTo(n - 1, kind, g), Emit(op), |p|);
    }
  }

  /** Only the first statement of a CUDA kernel and the first four of an OpenCL kernel reach
      beyond their own lane. */
  lemma KernelShape(kind: KernelType, g: RngState)
    requires |g.dst| == |g.src| == REGS
    ensures |Kernel(kind, g)| > 4
    ensures forall q :: 0 <= q < |Kernel(kind, g)| ==> PlacedRight(kind, q, Kernel(kind, g)[q])
  {
    hide KernelUpTo;
    KernelUpToLocal(DAG_LOADS, kind, g);
    var c := Kernel(kind, g);
    var u := KernelUpTo(DAG_LOADS, kind, g);
    var p := Prologue(kind);
    forall q | 0 <= q < |c| ensures PlacedRight(kind, q, c[q]) {
      if q < |p| {
        assert c[q] == u[q] == p[q];
      } else if q < |u| {
        assert c[q] == u[|p|..][q - |p|];
      }
    }
  }

  predicate PlacedRight(kind: KernelType, q: nat, ins: Instr) {
    && (ins == Shuffle <==> kind.Cuda? && q == 0)
    && (ins == CopyIn <==> kind.OpenCL? && q == 0)
    && (ins == SharePublish <==> kind.OpenCL? && q == 1)
    && (ins == Barrier <==> kind.OpenCL? && q == 2)
    && (ins == ShareRead <==> kind.OpenCL? && q == 3)
    && (kind.OpenCL? && q == 4 ==> ins == OffsetWrap)
  }

  // ----- where lanes can be -----

  ghost predicate InCode(k: Launch, p: Position)
    requires k.Valid()
  {
    p.call <= k.calls && p.pc <= |k.Code()| && (p.call == k.calls ==> p.pc == 0)
  }

  /** A lane past statement `a` of a call has seen all others arrive at statement `b` of it. */
  ghost predicate Held(s: Group, a: nat, b: nat)
    requires |s.at| == 16
  {
    forall l: laneIndex ::
      && (s.at[l].pc > a ==> AllReached(s, s.at[l].call, b))
      && (s.at[l].call > 0 ==> AllReached(s, s.at[l].call - 1, b))
  }

  /** OpenCL lanes wait for each other at the barrier; CUDA lanes leave a shuffle together. */
  ghost predicate Ordered(k: Launch, s: Group)
    requires k.Valid()
  {
    && |s.at| == 16 && (forall l: laneIndex :: InCode(k, s.at[l]))
    && (k.kind.OpenCL? ==> Held(s, 2, 2))
    && (k.kind.Cuda? ==> Held(s, 0, 1))
  }

  lemma OrderedInitially(k: Launch, s: Group)
    requires k.Valid() && Initial(k, s)
    ensures Ordered(k, s)
  {
    hide Kernel;
  }

  /** A lane that moves on does not fall behind anything it had reached. */
  lemma ReachedStays(s: Group, t: Group, l: laneIndex, q: Position, call: nat, pc: nat)
    requires |s.at| == 16 && t.at == s.at[l := q]
    requires AllReached(s, call, pc) && Reached(q, s.at[l].call, s.at[l].pc)
    ensures AllReached(t, call, pc)
  {
  }

  /** A lane moving to `q` keeps the order if it has seen the others arrive where `q` asks for it. */
  lemma HeldKept(s: Group, t: Group, l: laneIndex, q: Position, a: nat, b: nat)
    requires |s.at| == 16 && Held(s, a, b) && t.at == s.at[l := q] && Reached(q, s.at[l].call, s.at[l].pc)
    requires q.pc > a ==> AllReached(s, q.call, b)
    requires q.call > 0 ==> AllReached(s, q.call - 1, b)
    ensures Held(t, a, b)
  {
    forall m: laneIndex
      ensures t.at[m].pc > a ==> AllReached(t, t.at[m].call, b)
      ensures t.at[m].call > 0 ==> AllReached(t, t.at[m].call - 1, b)
    {
      if t.at[m].pc > a {
        ReachedStays(s, t, l, q, t.at[m].call, b);
      }
      if t.at[m].call > 0 {
        ReachedStays(s, t, l, q, t.at[m].call - 1, b);
      }
    }
  }

  lemma StatementKeepsOrder(k: Launch, s: Group, t: Group, l: laneIndex)
    requires k.Valid() && Ordered(k, s) && LaneStatement(k, s, t, l)
    ensures Ordered(k, t)
  {
    hide Kernel, Exec, AllReached;
    KernelShape(k.kind, k.g);
    var p := s.at[l];
    var q := Position(p.call, p.pc + 1);
    assert PlacedRight(k.kind, p.pc, k.Code()[p.pc]);
    if k.kind.OpenCL? {
      HeldKept(s, t, l, q, 2, 2);
    } else {
      HeldKept(s, t, l, q, 0, 1);
    }
  }

  lemma ReturnKeepsOrder(k: Launch, s: Group, t: Group, l: laneIndex)
    requires k.Valid() && Ordered(k, s) && LaneReturns(k, s, t, l)
    ensures Ordered(k, t)
  {
    hide Kernel, AllReached;
    KernelShape(k.kind, k.g);
    var q := Position(s.at[l].call + 1, 0);
    if k.kind.OpenCL? {
      HeldKept(s, t, l, q, 2, 2);
    } else {
      HeldKept(s, t, l, q, 0, 1);
    }
  }

  lemma ShuffleKeepsOrder(k: Launch, s: Group, t: Group)
    requires k.Valid() && Ordered(k, s) && GroupShuffle(k, s, t)
    ensures Ordered(k, t) && k.kind.Cuda?
  {
    hide Kernel, Exec;
    KernelShape(k.kind, k.g);
    var p := s.at[0];
    assert PlacedRight(k.kind, p.pc, k.Code()[p.pc]);
  }

  lemma AdvanceKeepsOrder(k: Launch, s: Group, t: Group)
    requires k.Valid() && Ordered(k, s) && Advance(k, s, t)
    ensures Ordered(k, t)
  {
    hide LaneStatement, LaneReturns, GroupShuffle, Ordered;
    OrderedFacts(k, s);
    if GroupShuffle(k, s, t) {
      ShuffleKeepsOrder(k, s, t);
    } else {
      var l: laneIndex :| LaneStatement(k, s, t, l) || LaneReturns(k, s, t, l);
      if LaneStatement(k, s, t, l) {
        StatementKeepsOrder(k, s, t, l);
      } else {
        ReturnKeepsOrder(k, s, t, l);
      }
    }
  }

  lemma OrderedFacts(k: Launch, s: Group)
    requires k.Valid() && Ordered(k, s)
    ensures |s.at| == 16
  {
  }

  // ----- what lanes should hold -----

  /** The word all lanes should receive in call `call`. */
  ghost function SharedWord(k: Launch, call: nat): word
    requires k.Valid() && call <= k.calls
  {
    Incoming(k.kind, call, Calls(call, k.kind, k.g, k.gpu, k.init))
  }

  /** The lane state that position `p` of lane `l` stands for, whatever the other lanes do. */
  ghost function Expected(k: Launch, l: laneIndex, p: Position): LaneState
    requires k.Valid() && InCode(k, p)
  {
    Run(k.Code()[..p.pc], k.gpu, l, p.call, SharedWord(k, p.call),
        Calls(p.call, k.kind, k.g, k.gpu, k.init)[l])
  }

  /** Two words name the same item: lanes take the word they receive modulo the number of items. */
  ghost predicate SameItem(k: Launch, x: word, y: word)
    requires k.Valid()
  {
    x % k.gpu.elements == y % k.gpu.elements
  }

  /** The calls `c` and `c + 1` share words for the same item. */
  ghost predicate SameShared(k: Launch, c: nat)
    requires k.Valid() && c < k.calls
  {
    SameItem(k, SharedWord(k, c), SharedWord(k, c + 1))
  }

  /** Lane `l` holds what it should hold at `p`. Only between the read of the shared cell and the
      statement after it, which wraps the word read, is the word free to be another one for the same item. */
  ghost predicate AsExpected(k: Launch, l: laneIndex, p: Position, lane: LaneState)
    requires k.Valid() && InCode(k, p)
  {
    var good := Expected(k, l, p);
    if k.kind.OpenCL? && p.pc == 4 then
      lane == good.(offset := lane.offset) && SameItem(k, lane.offset, good.offset)
    else lane == good
  }

  ghost predicate LanesExpected(k: Launch, s: Group)
    requires k.Valid()
  {
    |s.at| == 16 && forall l: laneIndex :: InCode(k, s.at[l]) && AsExpected(k, l, s.at[l], s.lanes[l])
  }

  lemma ExpectedInitially(k: Launch, s: Group)
    requires k.Valid() && Initial(k, s)
    ensures LanesExpected(k, s)
  {
    hide Kernel;
  }

  lemma RunOneMore(k: Launch, l: laneIndex, p: Position)
    requires k.Valid() && p.call < k.calls && p.pc < |k.Code()|
    ensures Expected(k, l, Position(p.call, p.pc + 1))
         == Exec(k.Code()[p.pc], k.gpu, l, p.call, SharedWord(k, p.call), Expected(k, l, p))
  {
    hide Exec, Kernel, Calls, Incoming;
    var c := k.Code();
    assert c[..p.pc + 1][..p.pc] == c[..p.pc];
  }

  lemma NextCall(k: Launch, l: laneIndex, p: Position)
    requires k.Valid() && p.call < k.calls && p.pc == |k.Code()|
    ensures Expected(k, l, Position(p.call + 1, 0)) == Expected(k, l, p)
  {
    hide Exec, Kernel, Incoming;
    assert k.Code()[..p.pc] == k.Code() && k.Code()[..0] == [];
  }

  lemma IncomingUnused(ins: Instr, gpu: Gpu, lane: word, loop: word, x: word, y: word, s: LaneState)
    requires gpu.elements > 0 && ins != Shuffle && ins != ShareRead
    ensures Exec(ins, gpu, lane, loop, x, s) == Exec(ins, gpu, lane, loop, y, s)
  {
    hide ExecMath, ExecMerge, DagAddress;
  }

  lemma EmptyRun(gpu: Gpu, lane: word, loop: word, x: word, s: LaneState)
    requires gpu.elements > 0
    ensures Run([], gpu, lane, loop, x, s) == s
  {
  }

  // ----- the shared cell of OpenCL -----

  /** The sharing lane of call `c` has published its word. */
  ghost predicate Published(s: Group, c: nat)
    requires |s.at| == 16
  {
    Reached(s.at[c % 16], c, 2)
  }

  /** Call `c` is the last one whose word was published. */
  ghost predicate Latest(s: Group, c: nat)
    requires |s.at| == 16
  {
    Published(s, c) && !Published(s, c + 1)
  }

  ghost predicate CellHolds(k: Launch, s: Group)
    requires k.Valid() && |s.at| == 16
  {
    k.kind.OpenCL? ==> forall c: nat :: c < k.calls && Latest(s, c) ==> s.share == SharedWord(k, c)
  }

  /** Lane `m` has yet to read the word of call `c` when that of call `c + 1` is in the cell. */
  ghost predicate Overtaken(k: Launch, s: Group, c: nat, m: laneIndex)
    requires |s.at| == 16
  {
    k.kind.OpenCL? && c + 1 < k.calls && Published(s, c + 1) && !Reached(s.at[m], c, 4)
  }

  /** No lane is overtaken by a word for another item. */
  ghost predicate InTime(k: Launch, s: Group)
    requires k.Valid() && |s.at| == 16
  {
    forall c: nat, m: laneIndex :: Overtaken(k, s, c, m) ==> SameShared(k, c)
  }

  /** The step from `s` to `t` is the read of an overtaken lane, and the word is for another item. */
  ghost predicate LateRead(k: Launch, s: Group, t: Group, m: laneIndex)
    requires k.Valid() && |s.at| == 16
  {
    && About(k, s, m, ShareRead) && LaneStatement(k, s, t, m)
    && Overtaken(k, s, s.at[m].call, m)
    && !SameShared(k, s.at[m].call)
  }

  ghost predicate NoLateRead(k: Launch, s: Group, t: Group)
    requires k.Valid() && |s.at| == 16
  {
    forall m: laneIndex :: !LateRead(k, s, t, m)
  }

  /** A word is published only after every lane has arrived at the barriers of all earlier calls. */
  lemma PublishedAfter(k: Launch, s: Group, c: nat, d: nat)
    requires k.Valid() && k.kind.OpenCL? && Ordered(k, s) && Published(s, c) && d < c
    ensures AllReached(s, d, 2)
  {
    hide Kernel;
    var p := s.at[c % 16];
    assert AllReached(s, p.call - 1, 2);
    forall m: laneIndex ensures Reached(s.at[m], d, 2) {
      assert Reached(s.at[m], p.call - 1, 2);
    }
  }

  /** No word is published two calls ahead of a lane. */
  lemma NotTwoAhead(k: Launch, s: Group, m: laneIndex)
    requires k.Valid() && k.kind.OpenCL? && Ordered(k, s)
    ensures !Published(s, s.at[m].call + 2)
  {
    hide Kernel;
    if Published(s, s.at[m].call + 2) {
      assert false;
    }
  }

  /** What a lane about to read finds in the cell: the word of its own call, unless it is overtaken;
      then the word of the next call. */
  lemma ReadFinds(k: Launch, s: Group, m: laneIndex)
    requires k.Valid() && Ordered(k, s) && CellHolds(k, s) && About(k, s, m, ShareRead)
    ensures k.kind.OpenCL? && s.at[m].pc == 3
    ensures !Overtaken(k, s, s.at[m].call, m) ==> s.share == SharedWord(k, s.at[m].call)
    ensures Overtaken(k, s, s.at[m].call, m) ==> s.share == SharedWord(k, s.at[m].call + 1)
  {
    hide Kernel, SharedWord;
    KernelShape(k.kind, k.g);
    var c := s.at[m].call;
    assert PlacedRight(k.kind, s.at[m].pc, k.Code()[s.at[m].pc]);
    assert AllReached(s, c, 2);
    if Published(s, c + 1) {
      NotTwoAhead(k, s, m);
      assert InCode(k, s.at[(c + 1) % 16]);
      assert Latest(s, c + 1);
    } else {
      assert Latest(s, c);
    }
  }

  /** In OpenCL the sharing lane publishes the word of its own call. */
  lemma PublishesWord(k: Launch, s: Group, l: laneIndex)
    requires k.Valid() && LanesExpected(k, s) && About(k, s, l, SharePublish) && l == s.at[l].call % 16
    ensures k.kind.OpenCL? && s.at[l].pc == 1
    ensures s.lanes[l].mix[0] == SharedWord(k, s.at[l].call)
  {
    hide Kernel, Calls;
    KernelShape(k.kind, k.g);
    var c, p := k.Code(), s.at[l];
    assert PlacedRight(k.kind, p.pc, c[p.pc]);
    assert PlacedRight(k.kind, 0, c[0]);
    assert c[..1] == [CopyIn];
    RunTwo(CopyIn, CopyIn, k.gpu, l, p.call, SharedWord(k, p.call), Calls(p.call, k.kind, k.g, k.gpu, k.init)[l]);
  }

  lemma StatementKeepsCell(k: Launch, s: Group, t: Group, l: laneIndex)
    requires k.Valid() && Ordered(k, s) && LanesExpected(k, s) && CellHolds(k, s) && LaneStatement(k, s, t, l)
    ensures |t.at| == 16 && CellHolds(k, t)
  {
    hide Kernel, Exec, SharedWord, Expected;
    KernelShape(k.kind, k.g);
    var p := s.at[l];
    assert PlacedRight(k.kind, p.pc, k.Code()[p.pc]);
    if k.kind.OpenCL? {
      forall c: nat | c < k.calls && Latest(t, c) ensures t.share == SharedWord(k, c) {
        if p.pc == 1 && l == p.call % 16 {
          PublishesWord(k, s, l);
          PublishedIs(k, s, t, l, c);
        } else {
          assert Latest(s, c);
        }
      }
    }
  }

  lemma PublishedBelow(k: Launch, s: Group, c: nat, d: nat)
    requires k.Valid() && k.kind.OpenCL? && Ordered(k, s) && Published(s, c) && d <= c
    ensures Published(s, d)
  {
    hide Kernel;
    if d < c {
      PublishedAfter(k, s, c, d);
    }
  }

  /** While the sharing lane publishes, the word of the next call is not published. */
  lemma LaneAtOne(k: Launch, s: Group, t: Group, l: laneIndex)
    requires k.Valid() && k.kind.OpenCL? && Ordered(k, s) && LaneStatement(k, s, t, l) && s.at[l].pc == 1
    ensures |t.at| == 16 && !Published(t, s.at[l].call + 1)
  {
    hide Kernel, Exec;
    if Published(t, s.at[l].call + 1) {
      assert false;
    }
  }

  /** The word just published is the latest. */
  lemma PublishedIs(k: Launch, s: Group, t: Group, l: laneIndex, c: nat)
    requires k.Valid() && k.kind.OpenCL? && Ordered(k, s) && LaneStatement(k, s, t, l)
    requires s.at[l].pc == 1 && l == s.at[l].call % 16 && Latest(t, c)
    ensures c == s.at[l].call
  {
    hide Kernel, Exec;
    var d := s.at[l].call;
    StatementKeepsOrder(k, s, t, l);
    if c < d {
      PublishedBelow(k, t, d, c + 1);
      assert false;
    } else if c > d {
      PublishedBelow(k, t, c, d + 1);
      LaneAtOne(k, s, t, l);
      assert false;
    }
  }

  lemma ReturnKeepsCell(k: Launch, s: Group, t: Group, l: laneIndex)
    requires k.Valid() && Ordered(k, s) && CellHolds(k, s) && LaneReturns(k, s, t, l)
    ensures |t.at| == 16 && CellHolds(k, t)
  {
    hide Kernel, SharedWord;
    KernelShape(k.kind, k.g);
    if k.kind.OpenCL? {
      forall c: nat | c < k.calls && Latest(t, c) ensures t.share == SharedWord(k, c) {
        assert Latest(s, c);
      }
    }
  }

  // ----- one step -----

  /** Only one lane moves in a step by a lane. */
  lemma OneMoves(k: Launch, s: Group, t: Group, l: laneIndex, m: laneIndex)
    requires k.Valid() && |s.at| == 16 && LaneStatement(k, s, t, m)
    requires LaneStatement(k, s, t, l) || LaneReturns(k, s, t, l)
    ensures l == m && LaneStatement(k, s, t, l)
  {
    hide Kernel, Exec;
    assert s.at[m] != t.at[m];
  }

  /** A statement keeps its lane as expected, unless it is a late read: then it never does. */
  lemma StatementExpected(k: Launch, s: Group, t: Group, l: laneIndex)
    requires k.Valid() && Ordered(k, s) && LanesExpected(k, s) && CellHolds(k, s) && LaneStatement(k, s, t, l)
    ensures LanesExpected(k, t) <==> !LateRead(k, s, t, l)
  {
    hide Kernel, Calls, Incoming, Exec, Expected, SharedWord, Overtaken, CellHolds;
    KernelShape(k.kind, k.g);
    var p := s.at[l];
    var ins := k.Code()[p.pc];
    assert PlacedRight(k.kind, p.pc, ins);
    StatementKeepsOrder(k, s, t, l);
    RunOneMore(k, l, p);
    var good := Expected(k, l, p);
    if ins == ShareRead {
      ReadFinds(k, s, l);
      ReadSets(k.gpu, l, p.call, s.share, SharedWord(k, p.call), good);
    } else {
      IncomingUnused(ins, k.gpu, l, p.call, s.share, SharedWord(k, p.call), good);
      if k.kind.OpenCL? && p.pc == 4 {
        WrapForgets(k, l, p.call, s.share, s.lanes[l], good);
      }
    }
    assert LanesExpected(k, t) <==> AsExpected(k, l, t.at[l], t.lanes[l]) by { OthersStay(k, s, t, l); }
  }

  /** Wrapping the word read leaves only the item it names. */
  lemma WrapForgets(k: Launch, l: laneIndex, call: word, x: word, lane: LaneState, good: LaneState)
    requires k.Valid() && lane == good.(offset := lane.offset) && SameItem(k, lane.offset, good.offset)
    ensures Exec(OffsetWrap, k.gpu, l, call, x, lane) == Exec(OffsetWrap, k.gpu, l, call, x, good)
  {
  }

  lemma OthersStay(k: Launch, s: Group, t: Group, l: laneIndex)
    requires k.Valid() && LanesExpected(k, s) && LaneStatement(k, s, t, l) && Ordered(k, t)
    ensures LanesExpected(k, t) <==> AsExpected(k, l, t.at[l], t.lanes[l])
  {
    hide Kernel, Exec, AsExpected;
  }

  lemma ReadSets(gpu: Gpu, lane: word, loop: word, x: word, y: word, s: LaneState)
    requires gpu.elements > 0
    ensures Exec(ShareRead, gpu, lane, loop, x, s) == Exec(ShareRead, gpu, lane, loop, y, s).(offset := x)
    ensures Exec(ShareRead, gpu, lane, loop, y, s).offset == y
  {
  }

  lemma ReturnExpected(k: Launch, s: Group, t: Group, l: laneIndex)
    requires k.Valid() && LanesExpected(k, s) && LaneReturns(k, s, t, l)
    ensures LanesExpected(k, t)
  {
    hide Kernel, Calls, Incoming, Exec, Expected, SharedWord;
    KernelShape(k.kind, k.g);
    NextCall(k, l, s.at[l]);
  }

  lemma ShuffleExpected(k: Launch, s: Group, t: Group)
    requires k.Valid() && LanesExpected(k, s) && GroupShuffle(k, s, t)
    ensures LanesExpected(k, t)
  {
    hide Kernel, Calls, Exec, Run;
    KernelShape(k.kind, k.g);
    var p := s.at[0];
    assert PlacedRight(k.kind, p.pc, k.Code()[p.pc]);
    var src := p.call % 16;
    assert s.lanes[src] == Calls(p.call, k.kind, k.g, k.gpu, k.init)[src] by {
      assert k.Code()[..0] == [];
      EmptyRun(k.gpu, src, p.call, SharedWord(k, p.call), Calls(p.call, k.kind, k.g, k.gpu, k.init)[src]);
    }
    forall l: laneIndex
      ensures InCode(k, t.at[l]) && AsExpected(k, l, t.at[l], t.lanes[l])
    {
      RunOneMore(k, l, p);
    }
  }

  ghost predicate Inv(k: Launch, s: Group)
    requires k.Valid()
  {
    Ordered(k, s) && LanesExpected(k, s) && CellHolds(k, s)
  }

  /** Every step of every lane, barrier and shuffle keeps the lanes as expected, except exactly the
      late reads. */
  lemma AdvanceKeeps(k: Launch, s: Group, t: Group)
    requires k.Valid() && Inv(k, s) && Advance(k, s, t)
    ensures Ordered(k, t) && CellHolds(k, t)
    ensures LanesExpected(k, t) <==> NoLateRead(k, s, t)
  {
    hide LaneStatement, LaneReturns, GroupShuffle, Expected, Held, CellHolds, Overtaken, LateRead, SharedWord, Kernel;
    AdvanceKeepsOrder(k, s, t);
    if GroupShuffle(k, s, t) {
      ShuffleExpected(k, s, t);
      ShuffleNoRead(k, s, t);
    } else {
      var l: laneIndex :| LaneStatement(k, s, t, l) || LaneReturns(k, s, t, l);
      forall m: laneIndex | LateRead(k, s, t, m) ensures l == m && LaneStatement(k, s, t, l) {
        LateReadMoves(k, s, t, m);
        OneMoves(k, s, t, l, m);
      }
      if LaneStatement(k, s, t, l) {
        StatementExpected(k, s, t, l);
        StatementKeepsCell(k, s, t, l);
      } else {
        ReturnExpected(k, s, t, l);
        ReturnKeepsCell(k, s, t, l);
        forall m: laneIndex ensures !LateRead(k, s, t, m) {
          if LateRead(k, s, t, m) {
            assert false;
          }
        }
      }
    }
  }

  lemma LateReadMoves(k: Launch, s: Group, t: Group, m: laneIndex)
    requires k.Valid() && |s.at| == 16 && LateRead(k, s, t, m)
    ensures LaneStatement(k, s, t, m)
  {
  }

  lemma ShuffleNoRead(k: Launch, s: Group, t: Group)
    requires k.Valid() && Ordered(k, s) && GroupShuffle(k, s, t)
    ensures CellHolds(k, t) && NoLateRead(k, s, t)
  {
    hide Kernel, Exec, SharedWord;
    ShuffleKeepsOrder(k, s, t);
  }

  // ----- whole runs -----

  ghost predicate IsRun(k: Launch, run: seq<Group>)
    requires k.Valid()
  {
    && |run| > 0 && Initial(k, run[0])
    && forall i :: 0 <= i < |run| - 1 ==> |run[i].at| == 16 && Advance(k, run[i], run[i + 1])
  }

  lemma {:induction false} RunOrdered(k: Launch, run: seq<Group>)
    requires k.Valid() && IsRun(k, run)
    ensures Ordered(k, run[|run| - 1])
  {
    hide Ordered, Advance;
    if |run| == 1 {
      OrderedInitially(k, run[0]);
    } else {
      var front := run[..|run| - 1];
      RunOrdered(k, front);
      AdvanceKeepsOrder(k, front[|front| - 1], run[|run| - 1]);
    }
  }

  /** Every state of a run has its sixteen lanes in their places. */
  lemma StateOrdered(k: Launch, run: seq<Group>, i: nat)
    requires k.Valid() && IsRun(k, run) && i < |run|
    ensures Ordered(k, run[i]) && |run[i].at| == 16
  {
    hide Advance;
    RunOrdered(k, run[..i + 1]);
    OrderedFacts(k, run[i]);
  }

  /** All lanes hold what they should hold, from the first state to the last. */
  ghost predicate AlwaysExpected(k: Launch, run: seq<Group>)
    requires k.Valid()
  {
    forall i :: 0 <= i < |run| ==> LanesExpected(k, run[i])
  }

  ghost predicate ReadsInTime(k: Launch, run: seq<Group>)
    requires k.Valid()
  {
    forall i :: 0 <= i < |run| - 1 ==> |run[i].at| == 16 && NoLateRead(k, run[i], run[i + 1])
  }

  ghost predicate AlwaysInTime(k: Launch, run: seq<Group>)
    requires k.Valid()
  {
    forall i :: 0 <= i < |run| ==> |run[i].at| == 16 && InTime(k, run[i])
  }

  /** In every run, finished or not, of both kernel types: all lanes hold what they should hold
      throughout exactly when no lane reads, from the next call, a word for another item. */
  lemma {:induction false} ExpectedExactly(k: Launch, run: seq<Group>)
    requires k.Valid() && IsRun(k, run)
    ensures AlwaysExpected(k, run) <==> ReadsInTime(k, run)
    ensures AlwaysExpected(k, run) ==> CellHolds(k, run[|run| - 1])
  {
    hide LanesExpected, Advance, NoLateRead, CellHolds, Ordered;
    if |run| == 1 {
      ExpectedInitially(k, run[0]);
      CellInitially(k, run[0]);
    } else {
      var n := |run| - 1;
      var front := run[..n];
      ExpectedExactly(k, front);
      StateOrdered(k, run, n - 1);
      assert AlwaysExpected(k, run) <==> AlwaysExpected(k, front) && LanesExpected(k, run[n]);
      assert ReadsInTime(k, run) <==> ReadsInTime(k, front) && NoLateRead(k, run[n - 1], run[n]) by {
        LastRead(k, run);
      }
      if AlwaysExpected(k, front) {
        assert LanesExpected(k, front[n - 1]);
        AdvanceKeeps(k, run[n - 1], run[n]);
      }
    }
  }

  lemma LastRead(k: Launch, run: seq<Group>)
    requires k.Valid() && |run| > 1 && |run[|run| - 2].at| == 16
    ensures ReadsInTime(k, run)
      <==> ReadsInTime(k, run[..|run| - 1]) && NoLateRead(k, run[|run| - 2], run[|run| - 1])
  {
    hide NoLateRead;
    var n, front := |run| - 1, run[..|run| - 1];
    if ReadsInTime(k, front) && NoLateRead(k, run[n - 1], run[n]) {
      forall i | 0 <= i < n ensures |run[i].at| == 16 && NoLateRead(k, run[i], run[i + 1]) {
        if i < n - 1 {
          assert NoLateRead(k, front[i], front[i + 1]);
        }
      }
    }
    if ReadsInTime(k, run) {
      forall i | 0 <= i < n - 1 ensures |front[i].at| == 16 && NoLateRead(k, front[i], front[i + 1]) {
        assert NoLateRead(k, run[i], run[i + 1]);
      }
    }
  }

  lemma CellInitially(k: Launch, s: Group)
    requires k.Valid() && Initial(k, s)
    ensures CellHolds(k, s)
  {
    hide Kernel, SharedWord;
    forall c: nat ensures !Published(s, c) {
    }
  }

  /** A lane overtaken in a run that finishes reads late at some step of it. */
  lemma {:induction false} OvertakenReads(k: Launch, run: seq<Group>, i: nat, c: nat, m: laneIndex) returns (j: nat)
    requires k.Valid() && IsRun(k, run) && i < |run| && |run[i].at| == 16 && Finished(k, run[|run| - 1])
    requires Overtaken(k, run[i], c, m) && !SameShared(k, c)
    ensures i <= j < |run| - 1 && |run[j].at| == 16 && LateRead(k, run[j], run[j + 1], m)
    decreases |run| - i
  {
    hide Kernel, SharedWord, Advance, LateRead;
    StateOrdered(k, run, i);
    assert i < |run| - 1 by {
      assert run[|run| - 1].at[m] == Position(k.calls, 0) || i < |run| - 1;
    }
    StateOrdered(k, run, i + 1);
    OvertakenMoves(k, run[i], run[i + 1], c, m);
    if LateRead(k, run[i], run[i + 1], m) {
      j := i;
    } else {
      j := OvertakenReads(k, run, i + 1, c, m);
    }
  }

  /** An overtaken lane stays overtaken until it reads. */
  lemma OvertakenMoves(k: Launch, s: Group, t: Group, c: nat, m: laneIndex)
    requires k.Valid() && Ordered(k, s) && Advance(k, s, t) && |t.at| == 16
    requires Overtaken(k, s, c, m) && !SameShared(k, c)
    ensures Overtaken(k, t, c, m) || LateRead(k, s, t, m)
  {
    hide Kernel, Exec, SharedWord;
    KernelShape(k.kind, k.g);
    if GroupShuffle(k, s, t) {
      ShuffleKeepsOrder(k, s, t);
      assert false;
    }
    var l: laneIndex :| LaneStatement(k, s, t, l) || LaneReturns(k, s, t, l);
    PublishedAfter(k, s, c + 1, c);
    assert Reached(s.at[m], c, 2);
    assert Published(t, c + 1);
    if l == m && s.at[m].pc == 3 {
      assert PlacedRight(k.kind, 3, k.Code()[3]);
    }
  }

  /** In every run that finishes: all lanes hold what they should hold throughout exactly when no lane
      is ever overtaken by a word for another item. */
  lemma FinishedExactly(k: Launch, run: seq<Group>)
    requires k.Valid() && IsRun(k, run) && Finished(k, run[|run| - 1])
    ensures AlwaysExpected(k, run) <==> AlwaysInTime(k, run)
  {
    hide Kernel, LanesExpected, Advance, LateRead, Overtaken, SharedWord, Finished, Ordered;
    ExpectedExactly(k, run);
    forall i | 0 <= i < |run| ensures |run[i].at| == 16 {
      StateOrdered(k, run, i);
    }
    if ReadsInTime(k, run) {
      forall i | 0 <= i < |run| ensures InTime(k, run[i]) {
        StateInTime(k, run, i);
      }
    }
    if AlwaysInTime(k, run) {
      forall i | 0 <= i < |run| - 1 ensures NoLateRead(k, run[i], run[i + 1]) {
        InTimeReads(k, run[i], run[i + 1]);
      }
    }
  }

  lemma StateInTime(k: Launch, run: seq<Group>, i: nat)
    requires k.Valid() && IsRun(k, run) && Finished(k, run[|run| - 1]) && ReadsInTime(k, run) && i < |run|
    ensures |run[i].at| == 16 && InTime(k, run[i])
  {
    hide Kernel, Advance, LateRead, SharedWord, Finished, Ordered;
    StateOrdered(k, run, i);
    forall c: nat, m: laneIndex | Overtaken(k, run[i], c, m)
      ensures SameShared(k, c)
    {
      if !SameShared(k, c) {
        var j := OvertakenReads(k, run, i, c, m);
        assert false;
      }
    }
  }

  lemma InTimeReads(k: Launch, s: Group, t: Group)
    requires k.Valid() && |s.at| == 16 && InTime(k, s)
    ensures NoLateRead(k, s, t)
  {
    hide Kernel, SharedWord, LaneStatement;
  }

  /** CUDA lanes are never overtaken. */
  lemma CudaInTime(k: Launch, run: seq<Group>)
    requires k.Valid() && k.kind.Cuda? && IsRun(k, run)
    ensures AlwaysInTime(k, run)
  {
    hide Kernel, SharedWord, Advance, Ordered;
    forall i | 0 <= i < |run| ensures |run[i].at| == 16 {
      StateOrdered(k, run, i);
    }
  }

  /** No lane has entered a call before all have read the word of the call before: lanes that execute
      in lock-step do this. */
  ghost predicate Together(s: Group)
    requires |s.at| == 16
  {
    forall l: laneIndex :: s.at[l].call > 0 ==> AllReached(s, s.at[l].call - 1, 4)
  }

  lemma TogetherInTime(k: Launch, s: Group)
    requires k.Valid() && |s.at| == 16 && Together(s)
    ensures InTime(k, s)
  {
    hide Kernel, SameShared;
    forall c: nat, m: laneIndex ensures !Overtaken(k, s, c, m) {
      if Published(s, c + 1) {
        assert AllReached(s, s.at[(c + 1) % 16].call - 1, 4);
        assert Reached(s.at[m], s.at[(c + 1) % 16].call - 1, 4);
      }
    }
  }

  /** The kernel against the host: for both kernel types, every seed, dataset, cache, number of loops
      and schedule of the sixteen lanes, a finished run in which no lane is overtaken by a word
      for another item leaves exactly the registers that the host's rounds leave; on CUDA no lane ever is. */
  lemma EveryScheduleIsTheHost(k: Launch, e: Epoch, run: seq<Group>)
    requires k.Valid() && Serves(k.gpu, e)
    requires IsRun(k, run) && Finished(k, run[|run| - 1])
    ensures e.numItems > 0 && (k.kind.Cuda? ==> AlwaysInTime(k, run))
    ensures AlwaysInTime(k, run) ==>
      Results(k.kind, run[|run| - 1].lanes) == HostRounds(k.calls, Wrapped(e), k.g, Results(k.kind, k.init))
  {
    hide Advance, Serves, Kernel, HostRounds, InTime, LanesExpected;
    if k.kind.Cuda? {
      CudaInTime(k, run);
    }
    CallsAreRounds(k.calls, k.kind, k.g, k.gpu, e, k.init);
    if AlwaysInTime(k, run) {
      FinishedExactly(k, run);
      FinalLanes(k, run[|run| - 1]);
    }
  }

  lemma FinalLanes(k: Launch, s: Group)
    requires k.Valid() && LanesExpected(k, s) && Finished(k, s)
    ensures s.lanes == Calls(k.calls, k.kind, k.g, k.gpu, k.init)
  {
    hide Kernel, Calls;
    var final := Calls(k.calls, k.kind, k.g, k.gpu, k.init);
    assert k.Code()[..0] == [];
    forall l: laneIndex ensures s.lanes[l] == final[l] {
      EmptyRun(k.gpu, l, k.calls, SharedWord(k, k.calls), final[l]);
    }
  }

  /** The lane furthest behind among the first `n`. */
  lemma {:induction false} Slowest(s: Group, n: nat) returns (l: laneIndex)
    requires |s.at| == 16 && 0 < n <= 16
    ensures forall m: laneIndex :: m < n ==> Reached(s.at[m], s.at[l].call, s.at[l].pc)
  {
    if n == 1 {
      l := 0;
    } else {
      l := Slowest(s, n - 1);
      if !Reached(s.at[n - 1], s.at[l].call, s.at[l].pc) {
        l := n - 1;
      }
    }
  }

  /** No schedule deadlocks: some lane, or the whole group at a shuffle, can always move. */
  lemma NeverStuck(k: Launch, s: Group)
    requires k.Valid() && Ordered(k, s) && !Finished(k, s)
    ensures exists t :: Advance(k, s, t)
  {
    hide Kernel, Exec;
    KernelShape(k.kind, k.g);
    var l := Slowest(s, 16);
    var p := s.at[l];
    assert AllReached(s, p.call, p.pc);
    if p.call >= k.calls {
      AllDone(k, s);
      assert false;
    }
    if p.pc == |k.Code()| {
      var t := s.(at := s.at[l := Position(p.call + 1, 0)]);
      assert LaneReturns(k, s, t, l);
      assert Advance(k, s, t);
    } else {
      var ins := k.Code()[p.pc];
      assert PlacedRight(k.kind, p.pc, ins);
      if ins == Shuffle {
        ShuffleTogether(s, l);
        var x := s.lanes[p.call % 16].mix[0];
        var t := Group(
          seq(16, (m: int) requires 0 <= m < 16 => Exec(Shuffle, k.gpu, m, p.call, x, s.lanes[m])),
          seq(16, _ => Position(p.call, p.pc + 1)), s.share);
        assert GroupShuffle(k, s, t);
        assert Advance(k, s, t);
      } else {
        var share := if ins == SharePublish && l == p.call % 16 then s.lanes[l].mix[0] else s.share;
        var t := Group(s.lanes[l := Exec(ins, k.gpu, l, p.call, s.share, s.lanes[l])],
                       s.at[l := Position(p.call, p.pc + 1)], share);
        assert LaneStatement(k, s, t, l);
        assert Advance(k, s, t);
      }
    }
  }

  lemma AllDone(k: Launch, s: Group)
    requires k.Valid() && Ordered(k, s) && AllReached(s, k.calls, 0)
    ensures Finished(k, s)
  {
    hide Kernel;
    forall l: laneIndex ensures s.at[l] == Position(k.calls, 0) {
      assert Reached(s.at[l], k.calls, 0);
    }
  }

  lemma ShuffleTogether(s: Group, l: laneIndex)
    requires |s.at| == 16 && Held(s, 0, 1) && s.at[l].pc == 0
    requires AllReached(s, s.at[l].call, 0)
    ensures forall m: laneIndex :: s.at[m] == s.at[l]
  {
    forall m: laneIndex ensures s.at[m] == s.at[l] {
      assert Reached(s.at[m], s.at[l].call, 0);
    }
  }
}
