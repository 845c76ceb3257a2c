/** The kernel generator `getKern` (libcrypto/progpow.cpp) as an emitter of instructions, one per
    emitted statement, and what a GPU lane does when it executes them. */
module Kernels {
  import opened Words
  import opened Kiss
  import opened MixRngs
  import opened Programs

  datatype KernelType = Cuda | OpenCL

  /** `random_merge_src`: the four shapes of `a = ... b;`. */
  datatype MergeStmt = MulAdd | XorMul | RotlXor(x: word) | RotrXor(x: word)

  /** `random_math_src`: the eleven shapes of `data = ...;`. */
  datatype MathStmt =
    | Add | Mul | MulHi | Min | RotlMod | RotrMod | And | Or | Xor | ClzSum | PopcountSum

  /** The right-hand side of a merge: `data` or `data_dag.s[i]`. */
  datatype Operand = Data | DagWord(i: loadIndex)

  datatype Instr =
    | CopyIn                                    // mix[i] = mix_arg[i], for all i
    | Shuffle                                   // offset = SHFL(mix[0], loop % LANES, LANES)
    | SharePublish                              // if (lane_id == loop % LANES) share = mix[0]
    | Barrier                                   // barrier(CLK_LOCAL_MEM_FENCE)
    | ShareRead                                 // offset = share
    | OffsetWrap                                // offset %= PROGPOW_DAG_ELEMENTS
    | OffsetLane                                // offset = offset * LANES + (lane_id ^ loop) % LANES
    | LoadDag                                   // data_dag = g_dag[offset]
    | Fence                                     // if (hack_false) ...
    | CacheOffset(src: reg)                     // offset = mix[src] % PROGPOW_CACHE_WORDS
    | LoadCache                                 // data = c_dag[offset]
    | Math(stmt: MathStmt, a: reg, b: reg)      // data = mix[a] <op> mix[b]
    | Merge(how: MergeStmt, dst: reg, from: Operand)
    | CopyOut                                   // mix_arg[i] = mix[i], for all i

  function MergeSrc(sel: word): MergeStmt {
    var x := (sel / 0x1_0000) % 31 + 1;
    match sel % 4
    case 0 => MulAdd
    case 1 => XorMul
    case 2 => RotlXor(x)
    case _ => RotrXor(x)
  }

  function MathSrc(sel: word): MathStmt {
    match sel % 11
    case 0 => Add
    case 1 => Mul
    case 2 => MulHi
    case 3 => Min
    case 4 => RotlMod
    case 5 => RotrMod
    case 6 => And
    case 7 => Or
    case 8 => Xor
    case 9 => ClzSum
    case _ => PopcountSum
  }

  // ----- what is emitted -----

  function Prologue(kind: KernelType): seq<Instr> {
    (match kind
     case Cuda => [Shuffle]
     case OpenCL => [CopyIn, SharePublish, Barrier, ShareRead])
    + [OffsetWrap, OffsetLane, LoadDag, Fence]
  }

  function Epilogue(kind: KernelType): seq<Instr> {
    if kind.OpenCL? then [CopyOut] else []
  }

  function Emit(op: Op): seq<Instr> {
    match op
    case CacheOp(src, dst, sel) => [CacheOffset(src), LoadCache, Merge(MergeSrc(sel), dst, Data)]
    case MathOp(a, b, sel1, dst, sel2) =>
      [Math(MathSrc(sel1), a, b), Merge(MergeSrc(sel2), dst, Data)]
    case DagOp(i, dst, sel) => [Merge(MergeSrc(sel), dst, DagWord(i))]
  }

  function EmitAll(ops: seq<Op>): seq<Instr> {
    if |ops| == 0 then [] else EmitAll(ops[..|ops| - 1]) + Emit(ops[|ops| - 1])
  }

  /** The kernel up to and including the merge of dataset word `n - 1`. */
  function KernelUpTo(n: nat, kind: KernelType, g: RngState): seq<Instr>
    requires n <= DAG_LOADS && |g.dst| == |g.src| == REGS
  {
    if n == 0 then Prologue(kind) + EmitAll(DrawLoop(MATH_COUNT, g).ops) + [Fence]
    else
      var ops := DrawTail(n, g).ops;
      KernelUpTo(n - 1, kind, g) + Emit(ops[|ops| - 1])
  }

  function Kernel(kind: KernelType, g: RngState): seq<Instr>
    requires |g.dst| == |g.src| == REGS
  {
    KernelUpTo(DAG_LOADS, kind, g) + Epilogue(kind)
  }

  /** The last operation drawn. */
  function Latest(d: Drawn): Op
    requires |d.ops| > 0
  {
    d.ops[|d.ops| - 1]
  }

  lemma EmitAppends(d: Drawn, e: Drawn)
    requires Extends(d, e)
    ensures EmitAll(e.ops) == EmitAll(d.ops) + Emit(Latest(e))
  {
  }

  /** The statements of one cache access. */
  method EmitCache(state: MixRng, ghost d: Drawn) returns (code: seq<Instr>)
    requires state.Valid() && state.State() == d.rng
    modifies state, state.rng
    ensures state.Valid() && state.State() == DrawCache(d).rng
    ensures code == Emit(Latest(DrawCache(d)))
  {
    hide MergeSrc, Step, Output;
    var src := state.NextSrc();
    var dst := state.NextDst();
    var sel := state.NextWord();
    code := [CacheOffset(src), LoadCache] + [Merge(MergeSrc(sel), dst, Data)];
  }

  /** The two different sources of a random math operation, as `getKern` draws them. */
  method TwoSources(word0: word) returns (src1: reg, src2: reg)
    ensures (src1, src2) == MathSources(word0)
  {
    var rnd := word0 % (REGS * (REGS - 1));
    src1 := rnd % REGS;
    var other := rnd / REGS;
    if other >= src1 {
      other := other + 1;
    }
    src2 := other;
  }

  /** The statements of one random math operation: the destination is drawn after both selectors. */
  method EmitMath(state: MixRng, ghost d: Drawn) returns (code: seq<Instr>)
    requires state.Valid() && state.State() == d.rng
    modifies state, state.rng
    ensures state.Valid() && state.State() == DrawMath(d).rng
    ensures code == Emit(Latest(DrawMath(d)))
  {
    hide MergeSrc, MathSrc, MathSources, Step, Output;
    var rnd := state.NextWord();
    var src1, src2 := TwoSources(rnd);
    var sel1 := state.NextWord();
    var sel2 := state.NextWord();
    var dst := state.NextDst();
    code := [Math(MathSrc(sel1), src1, src2)] + [Merge(MergeSrc(sel2), dst, Data)];
  }

  /** The statement merging dataset word `i`. */
  method EmitDag(i: loadIndex, state: MixRng, ghost d: Drawn) returns (code: seq<Instr>)
    requires state.Valid() && state.State() == d.rng
    modifies state, state.rng
    ensures state.Valid() && state.State() == DrawDag(i, d).rng
    ensures code == Emit(Latest(DrawDag(i, d)))
  {
    hide MergeSrc, Step, Output;
    var dst := 0;
    if i != 0 {
      dst := state.NextDst();
    }
    var sel := state.NextWord();
    code := [Merge(MergeSrc(sel), dst, DagWord(i))];
  }

  /** The statements of the cache and math loop. */
  method EmitLoop(state: MixRng) returns (code: seq<Instr>)
    requires state.Valid()
    modifies state, state.rng
    ensures state.Valid() && state.State() == DrawLoop(MATH_COUNT, old(state.State())).rng
    ensures code == EmitAll(DrawLoop(MATH_COUNT, old(state.State())).ops)
  {
    hide Emit, DrawCache, DrawMath;
    ghost var g := state.State();
    code := [];
    var i := 0;
    while i < CACHE_COUNT || i < MATH_COUNT
      invariant 0 <= i <= MATH_COUNT
      invariant state.Valid() && state.State() == DrawLoop(i, g).rng
      invariant code == EmitAll(DrawLoop(i, g).ops)
      decreases MATH_COUNT - i
    {
      ghost var d := DrawLoop(i, g);
      if i < CACHE_COUNT {
        var stmts := EmitCache(state, d);
        code := code + stmts;
        EmitAppends(d, DrawCache(d));
        d := DrawCache(d);
      }
      if i < MATH_COUNT {
        var stmts := EmitMath(state, d);
        code := code + stmts;
        EmitAppends(d, DrawMath(d));
      }
      i := i + 1;
    }
  }

  /** `getKern`: draws from a freshly seeded generator and appends statements as it goes. */
  method GetKern(lo: word, hi: word, kind: KernelType) returns (code: seq<Instr>)
    ensures code == Kernel(kind, Seeded(lo, hi))
  {
    hide Emit, EmitAll, DrawLoop, DrawDag, Prologue, Epilogue, IsPermutation, Seeded;
    var state := new MixRng(lo, hi);
    ghost var g := state.State();
    code := Prologue(kind);
    var stmts := EmitLoop(state);
    code := code + stmts;
    code := code + [Fence];
    for j := 0 to DAG_LOADS
      invariant state.Valid() && state.State() == DrawTail(j, g).rng
      invariant code == KernelUpTo(j, kind, g)
    {
      stmts := EmitDag(j, state, DrawTail(j, g));
      code := code + stmts;
    }
    code := code + Epilogue(kind);
  }
}
