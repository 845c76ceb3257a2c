/** What every random program guarantees: each register is a destination once per round, each
    dataset word is consumed once per round, and merging the dataset loses no information. */
module ProgramProps {
  import opened Bits
  import opened Words
  import opened Kiss
  import opened MixRngs
  import opened Programs
  import opened Rounds

  // ----- destinations -----

  /** The destination an operation took from `next_dst`: all but dataset word 0 take one. */
  function Taken(op: Op): seq<reg> {
    if op.DagOp? && op.load == 0 then [] else [op.dst]
  }

  /** The destinations handed out by `next_dst`, in order. */
  function DrawnDestinations(ops: seq<Op>): seq<reg> {
    if |ops| == 0 then [] else DrawnDestinations(ops[..|ops| - 1]) + Taken(ops[|ops| - 1])
  }

  /** The destinations drawn so far are the first ones of the shuffled order. */
  ghost predicate InOrder(d: Drawn, n: nat) {
    && n <= |d.rng.dst| == REGS == |d.rng.src| && d.rng.dstCounter == n
    && DrawnDestinations(d.ops) == d.rng.dst[..n]
  }

  lemma DestinationsAppend(d: Drawn, e: Drawn)
    requires Extends(d, e)
    ensures DrawnDestinations(e.ops) == DrawnDestinations(d.ops) + Taken(e.ops[|d.ops|])
  {
  }

  lemma OneMoreInOrder(d: Drawn, e: Drawn, n: nat)
    requires InOrder(d, n) && n < REGS && Extends(d, e)
    requires e.rng.dstCounter == n + 1 && Taken(e.ops[|d.ops|]) == [d.rng.dst[n]]
    ensures InOrder(e, n + 1)
  {
    hide Taken;
    DestinationsAppend(d, e);
    assert d.rng.dst[..n + 1] == d.rng.dst[..n] + [d.rng.dst[n]];
  }

  lemma CacheInOrder(d: Drawn, n: nat)
    requires InOrder(d, n) && n < REGS
    ensures InOrder(DrawCache(d), n + 1)
  {
    hide DrawnDestinations, Step, Output;
    OneMoreInOrder(d, DrawCache(d), n);
  }

  lemma MathInOrder(d: Drawn, n: nat)
    requires InOrder(d, n) && n < REGS
    ensures InOrder(DrawMath(d), n + 1)
  {
    hide DrawnDestinations, Step, Output, MathSources;
    OneMoreInOrder(d, DrawMath(d), n);
  }

  lemma DagInOrder(i: loadIndex, d: Drawn, n: nat)
    requires InOrder(d, n) && n < REGS
    ensures InOrder(DrawDag(i, d), if i == 0 then n else n + 1)
  {
    hide DrawnDestinations, Step, Output;
    if i == 0 {
      DestinationsAppend(d, DrawDag(i, d));
    } else {
      OneMoreInOrder(d, DrawDag(i, d), n);
    }
  }

  lemma {:induction false} LoopDestinations(n: nat, g: RngState)
    requires n <= MATH_COUNT && |g.dst| == |g.src| == REGS && g.dstCounter == 0
    ensures InOrder(DrawLoop(n, g), n + if n < CACHE_COUNT then n else CACHE_COUNT)
  {
    hide DrawCache, DrawMath;
    if n > 0 {
      LoopDestinations(n - 1, g);
      var d := DrawLoop(n - 1, g);
      if n - 1 < CACHE_COUNT {
        CacheInOrder(d, 2 * (n - 1));
        MathInOrder(DrawCache(d), 2 * n - 1);
      } else {
        MathInOrder(d, n - 1 + CACHE_COUNT);
      }
    }
  }

  lemma {:induction false} TailDestinations(n: nat, g: RngState)
    requires n <= DAG_LOADS && |g.dst| == |g.src| == REGS && g.dstCounter == 0
    ensures InOrder(DrawTail(n, g), if n == 0 then 29 else 28 + n)
  {
    hide DrawLoop, DrawDag, InOrder;
    if n == 0 {
      LoopDestinations(MATH_COUNT, g);
    } else {
      TailDestinations(n - 1, g);
      DagInOrder(n - 1, DrawTail(n - 1, g), if n == 1 then 29 else 27 + n);
    }
  }

  /** How many operations of each kind a list holds. */
  function Counts(ops: seq<Op>): (nat, nat, nat) {
    if |ops| == 0 then (0, 0, 0)
    else
      var (c, m, d) := Counts(ops[..|ops| - 1]);
      match ops[|ops| - 1]
      case CacheOp(_, _, _) => (c + 1, m, d)
      case MathOp(_, _, _, _, _) => (c, m + 1, d)
      case DagOp(_, _, _) => (c, m, d + 1)
  }

  lemma {:induction false} LoopCounts(n: nat, g: RngState)
    requires |g.dst| == |g.src| == REGS
    ensures Counts(DrawLoop(n, g).ops) == (if n < 11 then n else 11, n, 0)
  {
    hide DrawCache, DrawMath, Counts;
    if n == 0 {
      NoCounts();
    } else {
      LoopCounts(n - 1, g);
      var d := DrawLoop(n - 1, g);
      CountsCache(d);
      CountsMath(if n - 1 < CACHE_COUNT then DrawCache(d) else d);
    }
  }

  lemma NoCounts()
    ensures Counts([]) == (0, 0, 0)
  {
  }

  lemma CountsCache(d: Drawn)
    requires |d.rng.dst| == |d.rng.src| == REGS
    ensures var (c, m, w) := Counts(d.ops); Counts(DrawCache(d).ops) == (c + 1, m, w)
  {
    hide Step, Output, Counts;
    CountsAppend(d, DrawCache(d));
  }

  lemma CountsMath(d: Drawn)
    requires |d.rng.dst| == |d.rng.src| == REGS
    ensures var (c, m, w) := Counts(d.ops); Counts(DrawMath(d).ops) == (c, m + 1, w)
  {
    hide Step, Output, MathSources, Counts;
    CountsAppend(d, DrawMath(d));
  }

  lemma CountsAppend(d: Drawn, e: Drawn)
    requires Extends(d, e)
    ensures
      var (c, m, w) := Counts(d.ops);
      Counts(e.ops) == match e.ops[|d.ops|]
                       case CacheOp(_, _, _) => (c + 1, m, w)
                       case MathOp(_, _, _, _, _) => (c, m + 1, w)
                       case DagOp(_, _, _) => (c, m, w + 1)
  {
    assert e.ops[..|e.ops| - 1] == d.ops;
  }

  lemma {:induction false} TailCounts(n: nat, g: RngState)
    requires n <= DAG_LOADS && |g.dst| == |g.src| == REGS
    ensures Counts(DrawTail(n, g).ops) == (11, 18, n)
  {
    hide Step, Output, DrawLoop, Counts;
    if n == 0 {
      LoopCounts(18, g);
    } else {
      TailCounts(n - 1, g);
      CountsAppend(DrawTail(n - 1, g), DrawTail(n, g));
    }
  }

  /** A program has 11 cache accesses, 18 random math operations and 4 dataset merges. */
  lemma ProgramCounts(g: RngState)
    requires |g.dst| == |g.src| == REGS
    ensures Counts(Program(g)) == (11, 18, 4)
  {
    hide DrawTail, Counts;
    TailCounts(4, g);
  }

  /** For every seed, one round draws 11 + 18 + 3 destinations and they are the 32 registers, each
      exactly once. */
  lemma EachRegisterDrawnOnce(lo: word, hi: word)
    ensures var drawn := DrawnDestinations(Program(Seeded(lo, hi)));
            IsPermutation(drawn) && forall v: reg :: multiset(drawn)[v] == 1
  {
    hide Seeded, DrawTail;
    var g := Seeded(lo, hi);
    TailDestinations(DAG_LOADS, g);
    assert g.dst[..32] == g.dst;
    PermutationOnce(g.dst);
  }

  // ----- dataset words -----

  /** Exclusive or works on the bits below and above bit `k` separately. */
  lemma {:induction false} XorSplits(h: nat, l: nat, h': nat, l': nat, k: nat)
    requires l < Pow2(k) && l' < Pow2(k)
    ensures BitXor(Shl(h, k) + l, Shl(h', k) + l') == Shl(BitXor(h, h'), k) + BitXor(l, l')
    decreases k
  {
    if k == 0 {
      assert BitXor(0, 0) == 0;
    } else {
      XorSplits(h, l / 2, h', l' / 2, k - 1);
    }
  }

  lemma ShlFour(x: nat)
    ensures Shl(x, 4) == 16 * x
  {
    assert Shl(x, 2) == 2 * Shl(x, 1);
    assert Shl(x, 4) == 2 * Shl(x, 3);
  }

  /** Only the round number modulo 16 matters to the chunk pattern. */
  lemma ChunkIsXor(l: laneIndex, r: word)
    ensures ChunkOf(l, r) == BitXor(l, r % 16) < 16
  {
    hide BitXor;
    assert Pow2(4) == 16;
    ShlFour(0);
    ShlFour(r / 16);
    ShlFour(BitXor(0, r / 16));
    hide Shl, Pow2;
    XorSplits(0, l, r / 16, r % 16, 4);
    BitsBound(l, r % 16, 4);
  }

  /** In every round the lanes swap chunks in pairs (or keep their own). */
  lemma ChunkInvolution(l: laneIndex, r: word)
    ensures ChunkOf(ChunkOf(l, r), r) == l
  {
    hide BitXor, ChunkOf;
    ChunkIsXor(l, r);
    ChunkIsXor(ChunkOf(l, r), r);
    XorCancels(l, r % 16);
  }

  /** Which word of the item lane `l` consumes as its load `i` in round `r`. */
  function WordOf(l: laneIndex, i: loadIndex, r: word): nat {
    ChunkOf(l, r) * 4 + i
  }

  /** In every round, each of the 64 words of the shared item reaches exactly one lane, as exactly
      one of its four loads. */
  lemma EachWordConsumedOnce(item: Item, r: word, w: nat)
    requires w < ITEM_WORDS
    ensures exists l: laneIndex, i: loadIndex ::
      && WordOf(l, i, r) == w && HostLoads(item, l, r)[i] == item[w]
      && forall l': laneIndex, i': loadIndex :: WordOf(l', i', r) == w ==> l' == l && i' == i
  {
    hide ChunkOf;
    var l: laneIndex := ChunkOf(w / 4, r);
    var i: loadIndex := w % 4;
    ChunkInvolution(w / 4, r);
    assert WordOf(l, i, r) == w && HostLoads(item, l, r)[i] == item[w];
    forall l': laneIndex, i': loadIndex | WordOf(l', i', r) == w ensures l' == l && i' == i {
      ChunkInvolution(l', r);
      assert ChunkOf(l', r) == w / 4;
    }
  }

  // ----- reversibility -----

  /** The operation does not read the register it overwrites. */
  predicate Reversible(op: Op) {
    match op
    case CacheOp(src, dst, _) => src != dst
    case MathOp(src1, src2, _, dst, _) => src1 != dst && src2 != dst
    case DagOp(_, _, _) => true
  }

  function UndoStep(op: Op, r: Regs, loads: Loads, l1: Cache): Regs {
    r[op.dst := Unmerge(r[op.dst], OpData(op, r, loads, l1), OpSel(op))]
  }

  function UndoRun(ops: seq<Op>, r: Regs, loads: Loads, l1: Cache): Regs {
    if |ops| == 0 then r
    else UndoRun(ops[..|ops| - 1], UndoStep(ops[|ops| - 1], r, loads, l1), loads, l1)
  }

  lemma StepBijective(op: Op, r: Regs, loads: Loads, l1: Cache)
    requires Reversible(op)
    ensures UndoStep(op, LaneStep(op, r, loads, l1), loads, l1) == r
    ensures LaneStep(op, UndoStep(op, r, loads, l1), loads, l1) == r
  {
    hide RandomMerge, Unmerge, RandomMath;
    MergeBijective(r[op.dst], OpData(op, r, loads, l1), OpSel(op));
  }

  /** Reversible operations lose nothing: running them is a bijection on a lane's registers. */
  lemma {:induction false} RunBijective(ops: seq<Op>, r: Regs, loads: Loads, l1: Cache)
    requires forall k :: 0 <= k < |ops| ==> Reversible(ops[k])
    ensures UndoRun(ops, LaneRun(ops, r, loads, l1), loads, l1) == r
    ensures LaneRun(ops, UndoRun(ops, r, loads, l1), loads, l1) == r
  {
    hide LaneStep, UndoStep;
    if |ops| > 0 {
      var front, op := ops[..|ops| - 1], ops[|ops| - 1];
      RunBijective(front, r, loads, l1);
      StepBijective(op, LaneRun(front, r, loads, l1), loads, l1);
      RunBijective(front, UndoStep(op, r, loads, l1), loads, l1);
      StepBijective(op, r, loads, l1);
    }
  }

  /** The dataset merges at the end of a round. */
  function DagTail(g: RngState): seq<Op>
    requires |g.dst| == |g.src| == REGS
  {
    var loop := |DrawLoop(MATH_COUNT, g).ops|;
    if loop <= |Program(g)| then Program(g)[loop..] else []
  }

  lemma {:induction false} TailShape(n: nat, g: RngState)
    requires n <= DAG_LOADS && |g.dst| == |g.src| == REGS
    ensures var loop := DrawLoop(MATH_COUNT, g).ops;
            loop <= DrawTail(n, g).ops && |DrawTail(n, g).ops| == |loop| + n
            && forall k :: |loop| <= k < |DrawTail(n, g).ops| ==> DrawTail(n, g).ops[k].DagOp?
  {
    hide DrawLoop, Step, Output;
    if n > 0 {
      TailShape(n - 1, g);
      var d, e := DrawTail(n - 1, g), DrawTail(n, g);
      assert Extends(d, e) && e.ops[|d.ops|].DagOp?;
      hide DrawTail;
      assert e.ops[..|d.ops|] == d.ops;
    }
  }

  /** For any dataset item, the dataset merges are a bijection on the registers of all lanes. */
  lemma DagTailBijective(g: RngState, rows: Rows, item: Item, r: word, l1: Cache, l: laneIndex)
    requires |g.dst| == |g.src| == REGS
    ensures |DagTail(g)| == DAG_LOADS
    ensures var loads := HostLoads(item, l, r);
            && UndoRun(DagTail(g), LaneRun(DagTail(g), rows[l], loads, l1), loads, l1) == rows[l]
            && LaneRun(DagTail(g), UndoRun(DagTail(g), rows[l], loads, l1), loads, l1) == rows[l]
  {
    hide DrawLoop, DrawTail, LaneRun, UndoRun, HostLoads;
    TailShape(DAG_LOADS, g);
    RunBijective(DagTail(g), rows[l], HostLoads(item, l, r), l1);
  }

  // ----- what the last dataset word and its register carry -----

  /** Merging different data into the same register shows. */
  lemma MergeSeesData(a: word, b: word, c: word, sel: word)
    requires b != c
    ensures RandomMerge(a, b, sel) != RandomMerge(a, c, sel)
  {
    hide Rotl32, Rotr32, Mul32, Xor32, Add32;
    AddSeesData(Mul32(a, 33), b, c);
    XorSeesData(a, b, c);
    XorSeesData(Rotl32(a, MergeAmount(sel)), b, c);
    XorSeesData(Rotr32(a, MergeAmount(sel)), b, c);
    Times33Cancels(Xor32(a, b));
    Times33Cancels(Xor32(a, c));
  }

  lemma AddSeesData(a: word, b: word, c: word)
    requires b != c
    ensures Add32(a, b) != Add32(a, c)
  {
  }

  lemma XorSeesData(a: word, b: word, c: word)
    requires b != c
    ensures Xor32(a, b) != Xor32(a, c)
  {
    hide BitXor;
    XorCommutes(a, b);
    XorCommutes(a, c);
    XorCancels(b, a);
    XorCancels(c, a);
  }

  /** No operation writes register `d` with data that depends on the registers. */
  ghost predicate FedByDataset(ops: seq<Op>, d: reg) {
    forall k :: 0 <= k < |ops| ==> ops[k].dst == d ==> ops[k].DagOp?
  }

  /** Two values in such a register stay apart, whatever the other registers hold. */
  lemma {:induction false} DifferenceStays(ops: seq<Op>, d: reg, r: Regs, r': Regs, loads: Loads, l1: Cache)
    requires FedByDataset(ops, d) && r[d] != r'[d]
    ensures LaneRun(ops, r, loads, l1)[d] != LaneRun(ops, r', loads, l1)[d]
  {
    hide RandomMerge, Unmerge, RandomMath;
    if |ops| > 0 {
      var front, op := ops[..|ops| - 1], ops[|ops| - 1];
      DifferenceStays(front, d, r, r', loads, l1);
      if op.dst == d {
        MergeBijective(LaneRun(front, r, loads, l1)[d], loads[op.load], op.sel);
        MergeBijective(LaneRun(front, r', loads, l1)[d], loads[op.load], op.sel);
      }
    }
  }

  /** No operation merges dataset word `i`. */
  ghost predicate Ignores(ops: seq<Op>, i: loadIndex) {
    forall k :: 0 <= k < |ops| ==> ops[k].DagOp? ==> ops[k].load != i
  }

  lemma {:induction false} IgnoredWord(ops: seq<Op>, i: loadIndex, v: word, r: Regs, loads: Loads, l1: Cache)
    requires Ignores(ops, i)
    ensures LaneRun(ops, r, loads[i := v], l1) == LaneRun(ops, r, loads, l1)
  {
    hide RandomMerge, RandomMath;
    if |ops| > 0 {
      IgnoredWord(ops[..|ops| - 1], i, v, r, loads, l1);
    }
  }

  lemma {:induction false} LoopIgnores(n: nat, g: RngState, i: loadIndex)
    requires |g.dst| == |g.src| == REGS
    ensures Ignores(DrawLoop(n, g).ops, i)
  {
    hide DrawCache, DrawMath;
    if n > 0 {
      LoopIgnores(n - 1, g, i);
      var d := DrawLoop(n - 1, g);
      CacheIgnores(d, i);
      MathIgnores(if n - 1 < CACHE_COUNT then DrawCache(d) else d, i);
    }
  }

  lemma CacheIgnores(d: Drawn, i: loadIndex)
    requires |d.rng.dst| == |d.rng.src| == REGS && Ignores(d.ops, i)
    ensures Ignores(DrawCache(d).ops, i)
  {
    hide Step, Output;
  }

  lemma MathIgnores(d: Drawn, i: loadIndex)
    requires |d.rng.dst| == |d.rng.src| == REGS && Ignores(d.ops, i)
    ensures Ignores(DrawMath(d).ops, i)
  {
    hide Step, Output, MathSources;
  }

  lemma {:induction false} TailIgnores(n: nat, g: RngState, i: loadIndex)
    requires n <= i && |g.dst| == |g.src| == REGS
    ensures Ignores(DrawTail(n, g).ops, i)
  {
    hide DrawLoop, Step, Output;
    if n == 0 {
      LoopIgnores(MATH_COUNT, g, i);
    } else {
      TailIgnores(n - 1, g, i);
    }
  }

  lemma {:induction false} DrawnHas(ops: seq<Op>, k: nat)
    requires k < |ops| && Taken(ops[k]) != []
    ensures ops[k].dst in DrawnDestinations(ops)
  {
    if k < |ops| - 1 {
      DrawnHas(ops[..|ops| - 1], k);
    }
  }

  /** The register the last dataset word goes to. */
  ghost function LastRegister(lo: word, hi: word): reg {
    Seeded(lo, hi).dst[31]
  }

  /** In every program the last operation merges dataset word 3, no other merges that word, and its
      register is written by dataset merges only. */
  lemma LastMerge(lo: word, hi: word)
    ensures
      var ops, d := Program(Seeded(lo, hi)), LastRegister(lo, hi);
      && |ops| > 0 && ops[|ops| - 1].DagOp? && ops[|ops| - 1].load == 3 && ops[|ops| - 1].dst == d
      && Ignores(ops[..|ops| - 1], 3) && FedByDataset(ops, d)
  {
    hide Seeded, DrawLoop, Step, Output, DrawnDestinations;
    var g, d := Seeded(lo, hi), LastRegister(lo, hi);
    var before := DrawTail(3, g);
    var ops := Program(g);
    TailIgnores(3, g, 3);
    TailDestinations(3, g);
    assert Extends(before, DrawTail(4, g));
    PermutationOnce(g.dst);
    forall k | 0 <= k < |ops| && ops[k].dst == d ensures ops[k].DagOp? {
      if k < |before.ops| && Taken(ops[k]) != [] {
        DrawnHas(before.ops, k);
        NotAgain(g.dst, 31);
      }
    }
  }

  lemma NotAgain(s: seq<reg>, n: nat)
    requires n < |s| && multiset(s)[s[n]] == 1
    ensures s[n] !in s[..n]
  {
    assert s == s[..n] + [s[n]] + s[n + 1..];
  }

  /** So a lane that loads another last word ends the round with another value in its register. */
  lemma LastWordSeen(lo: word, hi: word, r: Regs, loads: Loads, v: word, l1: Cache)
    requires v != loads[3]
    ensures
      var ops, d := Program(Seeded(lo, hi)), LastRegister(lo, hi);
      LaneRun(ops, r, loads[3 := v], l1)[d] != LaneRun(ops, r, loads, l1)[d]
  {
    hide Seeded, Program, RandomMerge, Ignores;
    LastMerge(lo, hi);
    var ops := Program(Seeded(lo, hi));
    var front, op := ops[..|ops| - 1], ops[|ops| - 1];
    IgnoredWord(front, 3, v, r, loads, l1);
    MergeSeesData(LaneRun(front, r, loads, l1)[op.dst], v, loads[3], op.sel);
  }

  /** And the next round, whatever it loads, does not make up for it. */
  lemma LastWordRemembered(lo: word, hi: word, r: Regs, loads: Loads, v: word, next: Loads, l1: Cache)
    requires v != loads[3]
    ensures
      var ops := Program(Seeded(lo, hi));
      LaneRun(ops, LaneRun(ops, r, loads[3 := v], l1), next, l1) != LaneRun(ops, LaneRun(ops, r, loads, l1), next, l1)
  {
    hide Seeded, Program, LaneRun, Ignores;
    LastMerge(lo, hi);
    LastWordSeen(lo, hi, r, loads, v, l1);
    var ops, d := Program(Seeded(lo, hi)), LastRegister(lo, hi);
    DifferenceStays(ops, d, LaneRun(ops, r, loads[3 := v], l1), LaneRun(ops, r, loads, l1), next, l1);
  }
}
