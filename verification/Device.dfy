/** What one GPU lane computes when it executes the generated statements, and the proof that this
    is what the host's interpreter computes for that lane. */
module Device {
  import opened Words
  import opened MixRngs
  import opened Programs
  import opened Kernels

  /** What every lane of the device sees: the dataset in 4-word elements, the shared cache and
      the number of 2048-bit items the kernel was compiled for (PROGPOW_DAG_ELEMENTS). */
  datatype Gpu = Gpu(dag: word -> Loads, elements: word, cache: Cache, platform: Platform)

  datatype LaneState = LaneState(arg: Regs, mix: Regs, offset: word, data: word, loads: Loads)

  function ExecMerge(p: Platform, how: MergeStmt, a: word, b: word): word {
    match how
    case MulAdd => Add32(Mul32(a, 33), b)
    case XorMul => Mul32(Xor32(a, b), 33)
    case RotlXor(x) => Xor32(DeviceRotl(p, a, x), b)
    case RotrXor(x) => Xor32(DeviceRotr(p, a, x), b)
  }

  function ExecMath(p: Platform, stmt: MathStmt, a: word, b: word): word {
    match stmt
    case Add => Add32(a, b)
    case Mul => Mul32(a, b)
    case MulHi => MulHi32(a, b)
    case Min => DeviceMin(a, b)
    case RotlMod => DeviceRotl(p, a, b % 32)
    case RotrMod => DeviceRotr(p, a, b % 32)
    case And => And32(a, b)
    case Or => Or32(a, b)
    case Xor => Xor32(a, b)
    case ClzSum => Add32(Clz32(a), Clz32(b))
    case PopcountSum => Add32(Popcnt32(a), Popcnt32(b))
  }

  /** The 4-word element a lane loads for item `offset`, in 32-bit arithmetic. */
  function DagAddress(offset: word, lane: word, loop: word): word {
    Add32(Mul32(offset, 16), Xor32(lane, loop) % 16)
  }

  /** One statement on one lane. `incoming` is the word that reaches the lane through the
      shuffle or the shared cell. */
  function Exec(ins: Instr, gpu: Gpu, lane: word, loop: word, incoming: word, s: LaneState): LaneState
    requires gpu.elements > 0
  {
    match ins
    case CopyIn => s.(mix := s.arg)
    case Shuffle => s.(offset := incoming)
    case SharePublish => s
    case Barrier => s
    case ShareRead => s.(offset := incoming)
    case OffsetWrap => s.(offset := s.offset % gpu.elements)
    case OffsetLane => s.(offset := DagAddress(s.offset, lane, loop))
    case LoadDag => s.(loads := gpu.dag(s.offset))
    case Fence => s
    case CacheOffset(src) => s.(offset := s.mix[src] % 4096)
    case LoadCache => s.(data := gpu.cache[s.offset % 4096])
    case Math(stmt, a, b) => s.(data := ExecMath(gpu.platform, stmt, s.mix[a], s.mix[b]))
    case Merge(how, dst, from) =>
      var b := match from case Data => s.data case DagWord(i) => s.loads[i];
      s.(mix := s.mix[dst := ExecMerge(gpu.platform, how, s.mix[dst], b)])
    case CopyOut => s.(arg := s.mix)
  }

  /** The lane after executing `code` in order. */
  function Run(code: seq<Instr>, gpu: Gpu, lane: word, loop: word, incoming: word, s: LaneState): LaneState
    requires gpu.elements > 0
  {
    if |code| == 0 then s
    else
      Exec(code[|code| - 1], gpu, lane, loop, incoming,
           Run(code[..|code| - 1], gpu, lane, loop, incoming, s))
  }

  /** The state a lane enters the generated function in, holding registers `r`. */
  ghost predicate Enters(kind: KernelType, s: LaneState, r: Regs) {
    match kind
    case Cuda => s.mix == r
    case OpenCL => s.arg == r
  }

  /** The registers the generated function hands back. */
  function Result(kind: KernelType, s: LaneState): Regs {
    match kind
    case Cuda => s.mix
    case OpenCL => s.arg
  }

  // ----- statement by statement -----

  lemma MergeStatement(p: Platform, a: word, b: word, sel: word)
    ensures ExecMerge(p, MergeSrc(sel), a, b) == RandomMerge(a, b, sel)
  {
    hide Rotl32, Rotr32, DeviceRotl, DeviceRotr, Xor32, Mul32, Add32;
    DeviceRotlAgrees(p, a, MergeAmount(sel));
    DeviceRotrAgrees(p, a, MergeAmount(sel));
  }

  lemma AmountModulo(a: word, b: word)
    ensures Rotl32(a, b % 32) == Rotl32(a, b) && Rotr32(a, b % 32) == Rotr32(a, b)
  {
    hide RotlBy, RotrBy;
  }

  lemma MathStatement(p: Platform, a: word, b: word, sel: word)
    requires p.Keeps(a)
    ensures ExecMath(p, MathSrc(sel), a, b) == RandomMath(a, b, sel)
  {
    hide Rotl32, Rotr32, DeviceRotl, DeviceRotr, Xor32, And32, Or32, Mul32, MulHi32, Add32, Clz32, Popcnt32;
    DeviceRotlAgrees(p, a, b % 32);
    DeviceRotrAgrees(p, a, b % 32);
    AmountModulo(a, b);
  }

  lemma {:induction false} RunAppends(
    c: seq<Instr>, d: seq<Instr>, gpu: Gpu, lane: word, loop: word, incoming: word, s: LaneState)
    requires gpu.elements > 0
    ensures Run(c + d, gpu, lane, loop, incoming, s)
         == Run(d, gpu, lane, loop, incoming, Run(c, gpu, lane, loop, incoming, s))
  {
    hide Exec;
    if |d| == 0 {
      assert c + d == c;
    } else {
      RunAppends(c, d[..|d| - 1], gpu, lane, loop, incoming, s);
      assert (c + d)[..|c + d| - 1] == c + d[..|d| - 1];
    }
  }

  lemma RunTwo(
    a: Instr, b: Instr, gpu: Gpu, lane: word, loop: word, incoming: word, s: LaneState)
    requires gpu.elements > 0
    ensures Run([a], gpu, lane, loop, incoming, s) == Exec(a, gpu, lane, loop, incoming, s)
    ensures Run([a, b], gpu, lane, loop, incoming, s)
         == Exec(b, gpu, lane, loop, incoming, Exec(a, gpu, lane, loop, incoming, s))
  {
    hide Exec;
    assert [a, b] == [a] + [b] && [a][..0] == [] && [b][..0] == [];
    RunAppends([a], [b], gpu, lane, loop, incoming, s);
  }

  /** The lane after one operation of the host's interpreter. */
  ghost predicate Does(op: Op, gpu: Gpu, s: LaneState, t: LaneState) {
    t.mix == LaneStep(op, s.mix, s.loads, gpu.cache) && t.loads == s.loads && t.arg == s.arg
  }

  lemma EmittedCacheOp(op: Op, gpu: Gpu, lane: word, loop: word, incoming: word, s: LaneState)
    requires gpu.elements > 0 && op.CacheOp?
    ensures Does(op, gpu, s, Run(Emit(op), gpu, lane, loop, incoming, s))
  {
    hide ExecMerge, ExecMath, RandomMerge, RandomMath, MergeSrc, MathSrc;
    MergeStatement(gpu.platform, s.mix[op.dst], OpData(op, s.mix, s.loads, gpu.cache), op.sel);
    RunTwo(CacheOffset(op.src), LoadCache, gpu, lane, loop, incoming, s);
    var t := Run([CacheOffset(op.src), LoadCache], gpu, lane, loop, incoming, s);
    var m := Merge(MergeSrc(op.sel), op.dst, Data);
    assert Emit(op) == [CacheOffset(op.src), LoadCache] + [m];
    RunAppends([CacheOffset(op.src), LoadCache], [m], gpu, lane, loop, incoming, s);
    RunTwo(m, m, gpu, lane, loop, incoming, t);
  }

  lemma EmittedMathOp(op: Op, gpu: Gpu, lane: word, loop: word, incoming: word, s: LaneState)
    requires gpu.elements > 0 && gpu.platform.Harmless() && op.MathOp?
    ensures Does(op, gpu, s, Run(Emit(op), gpu, lane, loop, incoming, s))
  {
    hide ExecMerge, ExecMath, RandomMerge, RandomMath, MergeSrc, MathSrc;
    MergeStatement(gpu.platform, s.mix[op.dst], OpData(op, s.mix, s.loads, gpu.cache), op.sel2);
    MathStatement(gpu.platform, s.mix[op.src1], s.mix[op.src2], op.sel1);
    RunTwo(Math(MathSrc(op.sel1), op.src1, op.src2), Merge(MergeSrc(op.sel2), op.dst, Data),
           gpu, lane, loop, incoming, s);
  }

  lemma EmittedDagOp(op: Op, gpu: Gpu, lane: word, loop: word, incoming: word, s: LaneState)
    requires gpu.elements > 0 && op.DagOp?
    ensures Does(op, gpu, s, Run(Emit(op), gpu, lane, loop, incoming, s))
  {
    hide ExecMerge, ExecMath, RandomMerge, RandomMath, MergeSrc, MathSrc;
    MergeStatement(gpu.platform, s.mix[op.dst], s.loads[op.load], op.sel);
    RunTwo(Merge(MergeSrc(op.sel), op.dst, DagWord(op.load)), Fence, gpu, lane, loop, incoming, s);
  }

  /** The statements emitted for one operation do to a lane what the host does to it. */
  lemma EmittedOp(op: Op, gpu: Gpu, lane: word, loop: word, incoming: word, s: LaneState)
    requires gpu.elements > 0 && gpu.platform.Harmless()
    ensures Does(op, gpu, s, Run(Emit(op), gpu, lane, loop, incoming, s))
  {
    hide Does, Run, Emit;
    match op
    case CacheOp(_, _, _) => EmittedCacheOp(op, gpu, lane, loop, incoming, s);
    case MathOp(_, _, _, _, _) => EmittedMathOp(op, gpu, lane, loop, incoming, s);
    case DagOp(_, _, _) => EmittedDagOp(op, gpu, lane, loop, incoming, s);
  }

  /** Straight-line code for any operations: the emitter is correct lane by lane. */
  lemma {:induction false} EmittedOps(
    ops: seq<Op>, gpu: Gpu, lane: word, loop: word, incoming: word, s: LaneState)
    requires gpu.elements > 0 && gpu.platform.Harmless()
    ensures var t := Run(EmitAll(ops), gpu, lane, loop, incoming, s);
            t.mix == LaneRun(ops, s.mix, s.loads, gpu.cache) && t.loads == s.loads && t.arg == s.arg
  {
    hide Exec, LaneStep, Emit;
    if |ops| > 0 {
      var front, op := ops[..|ops| - 1], ops[|ops| - 1];
      EmittedOps(front, gpu, lane, loop, incoming, s);
      RunAppends(EmitAll(front), Emit(op), gpu, lane, loop, incoming, s);
      EmittedOp(op, gpu, lane, loop, incoming, Run(EmitAll(front), gpu, lane, loop, incoming, s));
    }
  }

  // ----- the whole kernel -----

  /** The words a lane loads from the dataset when `incoming` reaches it. */
  function LaneLoads(gpu: Gpu, lane: word, loop: word, incoming: word): Loads
    requires gpu.elements > 0
  {
    gpu.dag(DagAddress(incoming % gpu.elements, lane, loop))
  }

  lemma PrologueRuns(kind: KernelType, r: Regs, gpu: Gpu, lane: word, loop: word, incoming: word, s: LaneState)
    requires gpu.elements > 0 && Enters(kind, s, r)
    ensures var t := Run(Prologue(kind), gpu, lane, loop, incoming, s);
            t.mix == r && t.loads == LaneLoads(gpu, lane, loop, incoming)
  {
    hide DagAddress;
    var common := [OffsetWrap, OffsetLane, LoadDag, Fence];
    var first := match kind case Cuda => [Shuffle] case OpenCL => [CopyIn, SharePublish, Barrier, ShareRead];
    assert Prologue(kind) == first + common;
    RunAppends(first, common, gpu, lane, loop, incoming, s);
    var m := Run(first, gpu, lane, loop, incoming, s);
    assert m.mix == r && m.offset == incoming by {
      match kind
      case Cuda => RunTwo(Shuffle, Fence, gpu, lane, loop, incoming, s);
      case OpenCL => RunFour(CopyIn, SharePublish, Barrier, ShareRead, gpu, lane, loop, incoming, s);
    }
    RunFour(OffsetWrap, OffsetLane, LoadDag, Fence, gpu, lane, loop, incoming, m);
  }

  lemma RunFour(a: Instr, b: Instr, c: Instr, d: Instr, gpu: Gpu, lane: word, loop: word, incoming: word, s: LaneState)
    requires gpu.elements > 0
    ensures Run([a, b, c, d], gpu, lane, loop, incoming, s)
         == Exec(d, gpu, lane, loop, incoming, Exec(c, gpu, lane, loop, incoming,
              Exec(b, gpu, lane, loop, incoming, Exec(a, gpu, lane, loop, incoming, s))))
  {
    hide Exec;
    assert [a, b, c, d] == [a, b] + [c, d];
    RunAppends([a, b], [c, d], gpu, lane, loop, incoming, s);
    RunTwo(a, b, gpu, lane, loop, incoming, s);
    RunTwo(c, d, gpu, lane, loop, incoming, Run([a, b], gpu, lane, loop, incoming, s));
  }

  lemma {:induction false} KernelUpToRuns(n: nat, kind: KernelType, g: RngState, r: Regs, gpu: Gpu,
                                          lane: word, loop: word, incoming: word, s: LaneState)
    requires gpu.elements > 0 && gpu.platform.Harmless() && Enters(kind, s, r)
    requires n <= DAG_LOADS && |g.dst| == |g.src| == REGS
    ensures var t := Run(KernelUpTo(n, kind, g), gpu, lane, loop, incoming, s);
            var loads := LaneLoads(gpu, lane, loop, incoming);
            t.mix == LaneRun(DrawTail(n, g).ops, r, loads, gpu.cache) && t.loads == loads
  {
    hide LaneStep, Emit, EmitAll, Prologue, Enters, LaneLoads, DrawLoop, DrawDag;
    if n == 0 {
      var ops := DrawLoop(MATH_COUNT, g).ops;
      RunAppends(Prologue(kind), EmitAll(ops), gpu, lane, loop, incoming, s);
      PrologueRuns(kind, r, gpu, lane, loop, incoming, s);
      EmittedOps(ops, gpu, lane, loop, incoming, Run(Prologue(kind), gpu, lane, loop, incoming, s));
      RunAppends(Prologue(kind) + EmitAll(ops), [Fence], gpu, lane, loop, incoming, s);
      RunTwo(Fence, Fence, gpu, lane, loop, incoming, Run(Prologue(kind) + EmitAll(ops), gpu, lane, loop, incoming, s));
    } else {
      var d, e := DrawTail(n - 1, g), DrawTail(n, g);
      assert e.ops[..|e.ops| - 1] == d.ops;
      var op := e.ops[|e.ops| - 1];
      KernelUpToRuns(n - 1, kind, g, r, gpu, lane, loop, incoming, s);
      RunAppends(KernelUpTo(n - 1, kind, g), Emit(op), gpu, lane, loop, incoming, s);
      EmittedOp(op, gpu, lane, loop, incoming, Run(KernelUpTo(n - 1, kind, g), gpu, lane, loop, incoming, s));
    }
  }

  /** The compiler is correct: on every lane, for every generator state, registers, dataset,
      cache and rotation spelling, the emitted kernel leaves in the registers what the host's
      interpreter of the same random program leaves there. */
  lemma KernelRuns(kind: KernelType, g: RngState, r: Regs, gpu: Gpu,
                   lane: word, loop: word, incoming: word, s: LaneState)
    requires gpu.elements > 0 && gpu.platform.Harmless() && Enters(kind, s, r)
    requires |g.dst| == |g.src| == REGS
    ensures Result(kind, Run(Kernel(kind, g), gpu, lane, loop, incoming, s))
         == LaneRun(Program(g), r, LaneLoads(gpu, lane, loop, incoming), gpu.cache)
  {
    hide KernelUpTo, LaneRun, LaneLoads, DrawTail;
    KernelUpToRuns(DAG_LOADS, kind, g, r, gpu, lane, loop, incoming, s);
    RunAppends(KernelUpTo(DAG_LOADS, kind, g), Epilogue(kind), gpu, lane, loop, incoming, s);
    RunTwo(CopyOut, CopyOut, gpu, lane, loop, incoming,
           Run(KernelUpTo(DAG_LOADS, kind, g), gpu, lane, loop, incoming, s));
  }
}
