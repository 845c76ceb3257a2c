/** The random program of a ProgPoW period: how its operations are drawn from the generator and
    what they do to one lane's registers on the host (libcrypto/progpow.cpp). */
module Programs {
  import opened Arith
  import opened Bits
  import opened Words
  import opened MixRngs

  const DAG_LOADS: nat := 4
  const CACHE_COUNT: nat := 11
  const MATH_COUNT: nat := 18
  const CACHE_WORDS: nat := 4096
  const ITEM_WORDS: nat := 64

  type Regs = s: seq<word> | |s| == 32 witness seq(32, _ => 0)
  /** One 2048-bit dataset item. */
  type Item = s: seq<word> | |s| == 64 witness seq(64, _ => 0)
  /** The dataset words one lane consumes in one round. */
  type Loads = s: seq<word> | |s| == 4 witness seq(4, _ => 0)
  type loadIndex = i: int | 0 <= i < 4
  type Cache = s: seq<word> | |s| == 4096 witness seq(4096, _ => 0)

  function MergeAmount(sel: word): (x: word)
    ensures 1 <= x <= 31 && (sel / 0x1_0000 + 1 - x) % 31 == 0
  {
    (sel / 0x1_0000) % 31 + 1
  }

  function RandomMerge(a: word, b: word, sel: word): word {
    var x := MergeAmount(sel);
    match sel % 4
    case 0 => Add32(Mul32(a, 33), b)
    case 1 => Mul32(Xor32(a, b), 33)
    case 2 => Xor32(Rotl32(a, x), b)
    case _ => Xor32(Rotr32(a, x), b)
  }

  function RandomMath(a: word, b: word, sel: word): word {
    match sel % 11
    case 0 => Add32(a, b)
    case 1 => Mul32(a, b)
    case 2 => MulHi32(a, b)
    case 3 => Min32(a, b)
    case 4 => Rotl32(a, b)
    case 5 => Rotr32(a, b)
    case 6 => And32(a, b)
    case 7 => Or32(a, b)
    case 8 => Xor32(a, b)
    case 9 => Add32(Clz32(a), Clz32(b))
    case _ => Add32(Popcnt32(a), Popcnt32(b))
  }

  // ----- merging loses nothing: for fixed data and selector it is a bijection -----

  /** 33 * INVERSE_33 == 1 modulo 2^32. */
  const INVERSE_33: word := 0x3E0F83E1

  function Unmerge(m: word, b: word, sel: word): word {
    var x := MergeAmount(sel);
    match sel % 4
    case 0 => Mul32((m - b) % M32, INVERSE_33)
    case 1 => Xor32(Mul32(m, INVERSE_33), b)
    case 2 => Rotr32(Xor32(m, b), x)
    case _ => Rotl32(Xor32(m, b), x)
  }

  lemma Times33Cancels(y: word)
    ensures Mul32(Mul32(y, 33), 0x3E0F83E1) == y
    ensures Mul32(Mul32(y, 0x3E0F83E1), 33) == y
  {
    var q := (33 * y) / M32;
    DivModIs(((33 * y) % M32) * 0x3E0F83E1, 8 * y - q * 0x3E0F83E1, y, M32);
    var p := (0x3E0F83E1 * y) / M32;
    DivModIs(((0x3E0F83E1 * y) % M32) * 33, 8 * y - p * 33, y, M32);
  }

  lemma AddSubCancels(y: word, b: word)
    ensures (Add32(y, b) - b) % M32 == y
    ensures Add32((y - b) % M32, b) == y
  {
  }

  /** Unmerging undoes merging and merging undoes unmerging, for every selector and data. */
  lemma MergeBijective(a: word, b: word, sel: word)
    ensures Unmerge(RandomMerge(a, b, sel), b, sel) == a
    ensures RandomMerge(Unmerge(a, b, sel), b, sel) == a
  {
    hide Rotl32, Rotr32, Mul32, Xor32, Add32;
    var x := MergeAmount(sel);
    Times33Cancels(a);
    Times33Cancels((a - b) % M32);
    Times33Cancels(Xor32(a, b));
    AddSubCancels(Mul32(a, 33), b);
    AddSubCancels(a, b);
    XorWordCancels(a, b);
    XorWordCancels(Mul32(a, INVERSE_33), b);
    XorWordCancels(Rotl32(a, x), b);
    XorWordCancels(Rotr32(a, x), b);
    RotrUndoesRotl(a, x);
    RotlUndoesRotr(a, x);
    RotrUndoesRotl(Xor32(a, b), x);
    RotlUndoesRotr(Xor32(a, b), x);
  }

  lemma XorWordCancels(a: word, b: word)
    ensures Xor32(Xor32(a, b), b) == a
  {
    XorCancels(a, b);
  }

  // ----- the operations of one round -----

  datatype Op =
    | CacheOp(src: reg, dst: reg, sel: word)
    | MathOp(src1: reg, src2: reg, sel1: word, dst: reg, sel2: word)
    | DagOp(load: loadIndex, dst: reg, sel: word)

  /** What a lane merges into the operation's destination. */
  function OpData(op: Op, r: Regs, loads: Loads, l1: Cache): word
  {
    match op
    case CacheOp(src, _, _) => l1[r[src] % CACHE_WORDS]
    case MathOp(src1, src2, sel1, _, _) => RandomMath(r[src1], r[src2], sel1)
    case DagOp(load, _, _) => loads[load]
  }

  function OpSel(op: Op): word {
    match op
    case CacheOp(_, _, sel) => sel
    case MathOp(_, _, _, _, sel2) => sel2
    case DagOp(_, _, sel) => sel
  }

  function LaneStep(op: Op, r: Regs, loads: Loads, l1: Cache): Regs
  {
    r[op.dst := RandomMerge(r[op.dst], OpData(op, r, loads, l1), OpSel(op))]
  }

  /** The registers of a lane after running `ops` in order. */
  function LaneRun(ops: seq<Op>, r: Regs, loads: Loads, l1: Cache): Regs
  {
    if |ops| == 0 then r
    else LaneStep(ops[|ops| - 1], LaneRun(ops[..|ops| - 1], r, loads, l1), loads, l1)
  }

  // ----- drawing the program -----

  /** The operations drawn so far and the generator they left behind. */
  datatype Drawn = Drawn(ops: seq<Op>, rng: RngState)

  /** `e` is `d` with one more operation and the same register orders. */
  ghost predicate Extends(d: Drawn, e: Drawn) {
    |e.ops| == |d.ops| + 1 && e.ops[..|d.ops|] == d.ops
    && e.rng.dst == d.rng.dst && e.rng.src == d.rng.src
  }

  function DrawCache(d: Drawn): (e: Drawn)
    requires |d.rng.dst| == |d.rng.src| == REGS
    ensures Extends(d, e)
  {
    var g1 := d.rng.AfterSrc();
    var g2 := g1.AfterDst();
    Drawn(d.ops + [CacheOp(d.rng.Src(), g1.Dst(), g2.Word())], g2.AfterWord())
  }

  /** The two source registers of a math operation: never the same one. */
  function MathSources(r: word): (p: (reg, reg))
    ensures p.0 != p.1
    ensures p.0 + 32 * (if p.1 > p.0 then p.1 - 1 else p.1) == r % 992
  {
    var rnd := r % (32 * 31);
    var src1 := rnd % 32;
    var src2 := rnd / 32;
    (src1, if src2 >= src1 then src2 + 1 else src2)
  }

  /** Every ordered pair of different registers comes from exactly one residue of the word drawn. */
  lemma EachPairOnce(a: reg, b: reg, r: word)
    requires a != b
    ensures var n := a + 32 * (if b > a then b - 1 else b); n < 992 && (MathSources(r) == (a, b) <==> r % 992 == n)
  {
  }

  function DrawMath(d: Drawn): (e: Drawn)
    requires |d.rng.dst| == |d.rng.src| == REGS
    ensures Extends(d, e)
  {
    var (src1, src2) := MathSources(d.rng.Word());
    var g1 := d.rng.AfterWord();
    var g2 := g1.AfterWord();
    var g3 := g2.AfterDst();
    Drawn(d.ops + [MathOp(src1, src2, g1.Word(), g2.Dst(), g3.Word())], g3.AfterWord())
  }

  /** The merge of dataset word `i`: word 0 always goes to register 0. */
  function DrawDag(i: nat, d: Drawn): (e: Drawn)
    requires i < DAG_LOADS && |d.rng.dst| == |d.rng.src| == REGS
    ensures Extends(d, e)
  {
    var dst := if i == 0 then 0 else d.rng.Dst();
    var g := if i == 0 then d.rng else d.rng.AfterDst();
    Drawn(d.ops + [DagOp(i, dst, g.Word())], g.AfterWord())
  }

  function DrawIteration(i: nat, d: Drawn): Drawn
    requires |d.rng.dst| == |d.rng.src| == REGS
  {
    DrawMath(if i < CACHE_COUNT then DrawCache(d) else d)
  }

  /** The first `n` passes of the cache and math loop. */
  function DrawLoop(n: nat, g: RngState): (d: Drawn)
    requires |g.dst| == |g.src| == REGS
    ensures d.rng.dst == g.dst && d.rng.src == g.src
  {
    if n == 0 then Drawn([], g) else DrawIteration(n - 1, DrawLoop(n - 1, g))
  }

  /** The loop followed by the first `n` dataset merges. */
  function DrawTail(n: nat, g: RngState): (d: Drawn)
    requires n <= DAG_LOADS && |g.dst| == |g.src| == REGS
    ensures d.rng.dst == g.dst && d.rng.src == g.src
  {
    if n == 0 then DrawLoop(MATH_COUNT, g) else DrawDag(n - 1, DrawTail(n - 1, g))
  }

  function Program(g: RngState): (ops: seq<Op>)
    requires |g.dst| == |g.src| == REGS
  {
    DrawTail(DAG_LOADS, g).ops
  }
}
