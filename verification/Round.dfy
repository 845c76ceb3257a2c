/** One ProgPoW round on the host: 16 lanes in lock step (libcrypto/progpow.cpp, `round`). */
module Rounds {
  import opened Words
  import opened Kiss
  import opened MixRngs
  import opened Programs

  /** What `round` reads of the epoch context: the 2048-bit items, how many there are
      (`full_dataset_num_items / 2`) and the level-one cache. */
  datatype Epoch = Epoch(item: word -> Item, numItems: word, l1: Cache)

  /** The registers of all lanes. */
  const ZERO_ROW: Regs := seq(32, _ => 0)
  type Rows = s: seq<Regs> | |s| == 16 witness seq<Regs>(16, _ => ZERO_ROW)

  type laneIndex = l: int | 0 <= l < 16

  ghost function Row(mix: array2<word>, l: nat): Regs
    requires mix.Length0 == 16 && mix.Length1 == 32 && l < 16
    reads mix
  {
    seq(32, i requires 0 <= i < 32 reads mix => mix[l, i])
  }

  ghost function AllRows(mix: array2<word>): Rows
    requires mix.Length0 == 16 && mix.Length1 == 32
    reads mix
  {
    seq(16, l requires 0 <= l < 16 reads mix => Row(mix, l))
  }

  /** Which quarter-kilobit chunk of the item a lane consumes in round `r`. */
  function ChunkOf(l: laneIndex, r: word): (c: nat)
    ensures c < 16
  {
    Xor32(l, r) % 16
  }

  function Chunk(item: Item, c: laneIndex): Loads {
    item[c * 4 .. c * 4 + 4]
  }

  /** The words of `item` lane `l` consumes in round `r`. */
  function HostLoads(item: Item, l: laneIndex, r: word): Loads {
    Chunk(item, ChunkOf(l, r))
  }

  /** The item all lanes share in round `r`. */
  function SharedItem(e: Epoch, r: word, rows: Rows): Item
    requires e.numItems > 0
  {
    e.item(rows[r % 16][0] % e.numItems)
  }

  /** All lanes after one round. */
  function RoundRows(e: Epoch, r: word, rows: Rows, g: RngState): Rows
    requires e.numItems > 0 && |g.dst| == |g.src| == REGS
  {
    var item := SharedItem(e, r, rows);
    seq(16, (l: int) requires 0 <= l < 16 => LaneRun(Program(g), rows[l], HostLoads(item, l, r), e.l1))
  }

  /** Every lane stands where running `ops` on its own row of `from` puts it. */
  ghost predicate LanesAt(mix: array2<word>, ops: seq<Op>, from: Rows, item: Item, r: word, l1: Cache)
    requires mix.Length0 == 16 && mix.Length1 == 32
    reads mix
  {
    forall l: laneIndex :: Row(mix, l) == LaneRun(ops, from[l], HostLoads(item, l, r), l1)
  }

  /** `random_merge(mix.at(l).at(dst), data, sel)`. */
  method MergeInto(mix: array2<word>, l: laneIndex, dst: reg, data: word, sel: word)
    requires mix.Length0 == 16 && mix.Length1 == 32
    modifies mix
    ensures Row(mix, l) == old(Row(mix, l))[dst := RandomMerge(old(mix[l, dst]), data, sel)]
    ensures forall k: laneIndex :: k != l ==> Row(mix, k) == old(Row(mix, k))
  {
    hide RandomMerge;
    mix[l, dst] := RandomMerge(mix[l, dst], data, sel);
  }

  /** The lanes below `n` have done `op`, the others have not. */
  ghost predicate Stepped(mix: array2<word>, n: nat, op: Op, from: Rows, item: Item, r: word, l1: Cache)
    requires mix.Length0 == 16 && mix.Length1 == 32
    reads mix
  {
    forall k: laneIndex ::
      Row(mix, k) == if k < n then LaneStep(op, from[k], HostLoads(item, k, r), l1) else from[k]
  }

  /** The cache access of one loop pass, lane after lane. */
  method CacheLanes(mix: array2<word>, src: reg, dst: reg, sel: word, l1: Cache,
                    ghost item: Item, ghost r: word)
    requires mix.Length0 == 16 && mix.Length1 == 32
    modifies mix
    ensures Stepped(mix, 16, CacheOp(src, dst, sel), old(AllRows(mix)), item, r, l1)
  {
    hide RandomMerge, HostLoads;
    for l := 0 to 16
      invariant Stepped(mix, l, CacheOp(src, dst, sel), old(AllRows(mix)), item, r, l1)
    {
      assert mix[l, src] == Row(mix, l)[src] && mix[l, dst] == Row(mix, l)[dst];
      MergeInto(mix, l, dst, l1[mix[l, src] % CACHE_WORDS], sel);
    }
  }

  /** The random math of one loop pass, lane after lane. */
  method MathLanes(mix: array2<word>, src1: reg, src2: reg, sel1: word, dst: reg, sel2: word,
                   ghost l1: Cache, ghost item: Item, ghost r: word)
    requires mix.Length0 == 16 && mix.Length1 == 32
    modifies mix
    ensures Stepped(mix, 16, MathOp(src1, src2, sel1, dst, sel2), old(AllRows(mix)), item, r, l1)
  {
    hide RandomMerge, RandomMath, HostLoads;
    for l := 0 to 16
      invariant Stepped(mix, l, MathOp(src1, src2, sel1, dst, sel2), old(AllRows(mix)), item, r, l1)
    {
      assert mix[l, src1] == Row(mix, l)[src1] && mix[l, src2] == Row(mix, l)[src2];
      assert mix[l, dst] == Row(mix, l)[dst];
      MergeInto(mix, l, dst, RandomMath(mix[l, src1], mix[l, src2], sel1), sel2);
    }
  }

  /** Doing one more operation on every lane. */
  lemma LanesAdvance(ops: seq<Op>, op: Op, row: Regs, loads: Loads, l1: Cache)
    ensures LaneRun(ops + [op], row, loads, l1) == LaneStep(op, LaneRun(ops, row, loads, l1), loads, l1)
  {
    assert (ops + [op])[..|ops|] == ops;
  }

  lemma StepAll(mix: array2<word>, d: Drawn, e: Drawn, at: Rows, from: Rows, item: Item, r: word, l1: Cache)
    requires mix.Length0 == 16 && mix.Length1 == 32
    requires Extends(d, e) && Stepped(mix, 16, e.ops[|d.ops|], at, item, r, l1)
    requires forall l: laneIndex :: at[l] == LaneRun(d.ops, from[l], HostLoads(item, l, r), l1)
    ensures LanesAt(mix, e.ops, from, item, r, l1)
  {
    hide LaneStep, HostLoads;
    assert e.ops == d.ops + [e.ops[|d.ops|]];
    forall l: laneIndex
      ensures Row(mix, l) == LaneRun(e.ops, from[l], HostLoads(item, l, r), l1)
    {
      LanesAdvance(d.ops, e.ops[|d.ops|], from[l], HostLoads(item, l, r), l1);
    }
  }

  /** The two different sources of a random math operation, as `round` draws them. */
  method TwoSources(word0: word) returns (src1: reg, src2: reg)
    ensures (src1, src2) == MathSources(word0)
  {
    var rnd := word0 % (REGS * (REGS - 1));
    src1 := rnd % REGS;
    var other := rnd / REGS;
    if other >= src1 {
      other := other + 1;
    }
    src2 := other;
  }

  /** One pass of the cache and math loop over all lanes. */
  method RoundPass(mix: array2<word>, i: nat, state: MixRng, l1: Cache,
                   ghost d: Drawn, ghost from: Rows, ghost item: Item, ghost r: word)
    requires mix.Length0 == 16 && mix.Length1 == 32
    requires state.Valid() && state.State() == d.rng && i < MATH_COUNT
    requires LanesAt(mix, d.ops, from, item, r, l1)
    modifies mix, state, state.rng
    ensures state.Valid() && state.State() == DrawIteration(i, d).rng
    ensures LanesAt(mix, DrawIteration(i, d).ops, from, item, r, l1)
  {
    hide LaneStep, LaneRun, HostLoads, Step, Output, MathSources;
    ghost var c := d;
    if i < CACHE_COUNT {
      var src := state.NextSrc();
      var dst := state.NextDst();
      var sel := state.NextWord();
      ghost var at := AllRows(mix);
      CacheLanes(mix, src, dst, sel, l1, item, r);
      c := DrawCache(d);
      StepAll(mix, d, c, at, from, item, r, l1);
    }
    var rnd := state.NextWord();
    var src1, src2 := TwoSources(rnd);
    var sel1 := state.NextWord();
    var dst := state.NextDst();
    var sel2 := state.NextWord();
    ghost var at := AllRows(mix);
    MathLanes(mix, src1, src2, sel1, dst, sel2, l1, item, r);
    StepAll(mix, c, DrawMath(c), at, from, item, r, l1);
  }

  lemma TailStep(i: nat, g: RngState)
    requires i < DAG_LOADS && |g.dst| == |g.src| == REGS
    ensures DrawTail(0, g) == DrawLoop(MATH_COUNT, g)
    ensures DrawTail(i + 1, g) == DrawDag(i, DrawTail(i, g))
  {
    hide DrawLoop, DrawDag;
  }

  /** The destinations and selectors of the dataset merges, drawn before any lane uses them. */
  method DrawDagPattern(state: MixRng, ghost g: RngState) returns (dsts: seq<reg>, sels: seq<word>)
    requires |g.dst| == |g.src| == REGS
    requires state.Valid() && state.State() == DrawLoop(MATH_COUNT, g).rng
    modifies state, state.rng
    ensures |dsts| == |sels| == DAG_LOADS
    ensures forall i :: 0 <= i < DAG_LOADS ==>
      DrawTail(i + 1, g).ops == DrawTail(i, g).ops + [DagOp(i, dsts[i], sels[i])]
  {
    hide DrawLoop, Step, Output, IsPermutation, DrawTail;
    dsts, sels := [], [];
    TailStep(0, g);
    for i := 0 to DAG_LOADS
      invariant state.Valid() && state.State() == DrawTail(i, g).rng
      invariant |dsts| == |sels| == i
      invariant forall k :: 0 <= k < i ==>
        DrawTail(k + 1, g).ops == DrawTail(k, g).ops + [DagOp(k, dsts[k], sels[k])]
    {
      var dst := 0;
      if i != 0 {
        dst := state.NextDst();
      }
      var sel := state.NextWord();
      TailStep(i, g);
      dsts, sels := dsts + [dst], sels + [sel];
    }
  }

  /** The dataset merges of one lane. */
  method DagLane(mix: array2<word>, l: laneIndex, dsts: seq<reg>, sels: seq<word>, item: Item, r: word,
                 ghost g: RngState, ghost row: Regs, ghost l1: Cache)
    requires mix.Length0 == 16 && mix.Length1 == 32
    requires |g.dst| == |g.src| == REGS && |dsts| == |sels| == DAG_LOADS
    requires forall i :: 0 <= i < DAG_LOADS ==>
      DrawTail(i + 1, g).ops == DrawTail(i, g).ops + [DagOp(i, dsts[i], sels[i])]
    requires Row(mix, l) == LaneRun(DrawTail(0, g).ops, row, HostLoads(item, l, r), l1)
    modifies mix
    ensures Row(mix, l) == LaneRun(DrawTail(DAG_LOADS, g).ops, row, HostLoads(item, l, r), l1)
    ensures forall k: laneIndex :: k != l ==> Row(mix, k) == old(Row(mix, k))
  {
    hide DrawTail, LaneRun, RandomMerge, ChunkOf;
    var offset := ChunkOf(l, r) * DAG_LOADS;
    for i := 0 to DAG_LOADS
      invariant Row(mix, l) == LaneRun(DrawTail(i, g).ops, row, HostLoads(item, l, r), l1)
      invariant forall k: laneIndex :: k != l ==> Row(mix, k) == old(Row(mix, k))
    {
      assert mix[l, dsts[i]] == Row(mix, l)[dsts[i]];
      assert item[offset + i] == HostLoads(item, l, r)[i];
      LanesAdvance(DrawTail(i, g).ops, DagOp(i, dsts[i], sels[i]), row, HostLoads(item, l, r), l1);
      MergeInto(mix, l, dsts[i], item[offset + i], sels[i]);
    }
  }

  /** The cache and math loop over all lanes. */
  method RoundLoop(mix: array2<word>, state: MixRng, l1: Cache, ghost item: Item, ghost r: word)
    requires mix.Length0 == 16 && mix.Length1 == 32 && state.Valid()
    modifies mix, state, state.rng
    ensures state.Valid() && state.State() == DrawLoop(MATH_COUNT, old(state.State())).rng
    ensures LanesAt(mix, DrawLoop(MATH_COUNT, old(state.State())).ops, old(AllRows(mix)), item, r, l1)
  {
    hide LaneStep, LaneRun, HostLoads, DrawIteration, IsPermutation;
    ghost var g, from := state.State(), AllRows(mix);
    NoOps(from, item, r, l1);
    for i := 0 to MATH_COUNT
      invariant state.Valid() && state.State() == DrawLoop(i, g).rng
      invariant LanesAt(mix, DrawLoop(i, g).ops, from, item, r, l1)
    {
      RoundPass(mix, i, state, l1, DrawLoop(i, g), from, item, r);
    }
  }

  /** The dataset merges, lane after lane. */
  method DagLanes(mix: array2<word>, dsts: seq<reg>, sels: seq<word>, item: Item, r: word,
                  ghost g: RngState, ghost from: Rows, ghost l1: Cache)
    requires mix.Length0 == 16 && mix.Length1 == 32
    requires |g.dst| == |g.src| == REGS && |dsts| == |sels| == DAG_LOADS
    requires forall i :: 0 <= i < DAG_LOADS ==>
      DrawTail(i + 1, g).ops == DrawTail(i, g).ops + [DagOp(i, dsts[i], sels[i])]
    requires LanesAt(mix, DrawTail(0, g).ops, from, item, r, l1)
    modifies mix
    ensures LanesAt(mix, DrawTail(DAG_LOADS, g).ops, from, item, r, l1)
  {
    hide DrawTail, LaneRun, HostLoads;
    for l := 0 to 16
      invariant forall k: laneIndex :: Row(mix, k) == LaneRun(
        DrawTail(if k < l then DAG_LOADS else 0, g).ops, from[k], HostLoads(item, k, r), l1)
    {
      DagLane(mix, l, dsts, sels, item, r, g, from[l], l1);
    }
  }

  /** `round`: works on a copy of the generator and overwrites the registers of all lanes. */
  method Round(e: Epoch, r: word, mix: array2<word>, state0: MixRng)
    requires mix.Length0 == 16 && mix.Length1 == 32
    requires e.numItems > 0 && state0.Valid()
    modifies mix
    ensures AllRows(mix) == RoundRows(e, r, old(AllRows(mix)), state0.State())
  {
    hide LaneRun, HostLoads, DrawLoop, DrawTail, IsPermutation, LanesAt, RoundRows;
    var state := new MixRng.CopyOf(state0);
    ghost var g, from := state.State(), AllRows(mix);
    assert mix[r % 16, 0] == Row(mix, r % 16)[0];
    var item := e.item(mix[r % 16, 0] % e.numItems);
    RoundLoop(mix, state, e.l1, item, r);
    var dsts, sels := DrawDagPattern(state, g);
    TailStarts(g);
    DagLanes(mix, dsts, sels, item, r, g, from, e.l1);
    RoundDone(mix, e, r, from, g, item);
  }

  lemma TailStarts(g: RngState)
    requires |g.dst| == |g.src| == REGS
    ensures DrawTail(0, g) == DrawLoop(MATH_COUNT, g)
  {
    hide DrawLoop;
  }

  lemma RoundDone(mix: array2<word>, e: Epoch, r: word, from: Rows, g: RngState, item: Item)
    requires mix.Length0 == 16 && mix.Length1 == 32 && e.numItems > 0 && |g.dst| == |g.src| == REGS
    requires item == SharedItem(e, r, from) && LanesAt(mix, Program(g), from, item, r, e.l1)
    ensures AllRows(mix) == RoundRows(e, r, from, g)
  {
    hide LaneRun, HostLoads, Program, Row;
  }

  lemma NoOps(from: Rows, item: Item, r: word, l1: Cache)
    ensures forall l: laneIndex :: LaneRun([], from[l], HostLoads(item, l, r), l1) == from[l]
  {
    hide HostLoads;
  }
}
