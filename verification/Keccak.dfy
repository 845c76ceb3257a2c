/** The Keccak sponge (libcrypto/keccak.cpp, `keccak`) against sections 4 and 5.1 of FIPS 202,
    without domain suffix bits. A 64-bit word is the list of its bits, least significant first; the
    permutation is a parameter. */
module Keccak {
  import opened Arith
  import N = Bits

  type byte = b: int | 0 <= b < 256

  type bit = bool

  type Lane = s: seq<bit> | |s| == 64 witness seq(64, _ => false)

  /** The 1600 bits of the state, as section 3.1 of FIPS 202 numbers them. */
  type StateBits = s: seq<bit> | |s| == 1600 witness seq(1600, _ => false)

  type Permutation = StateBits -> StateBits

  function Zeros(n: nat): (r: seq<bit>)
    ensures |r| == n
  {
    seq(n, _ => false)
  }

  function Xor(a: seq<bit>, b: seq<bit>): (r: seq<bit>)
    requires |a| == |b|
    ensures |r| == |a|
  {
    seq(|a|, i requires 0 <= i < |a| => a[i] != b[i])
  }

  function BitOf(b: byte, i: nat): bit
    requires i < 8
  {
    if i == 0 then b % 2 == 1 else BitOf(b / 2, i - 1)
  }

  /** The first `n` bits of a byte, bit `i` counting 2^i. */
  function Weighed(b: byte, n: nat): nat
    requires n <= 8
  {
    if n == 0 then 0 else Weighed(b, n - 1) + if BitOf(b, n - 1) then N.Pow2(n - 1) else 0
  }

  lemma {:induction false} WeighedHalf(b: byte, n: nat)
    requires 0 < n <= 8
    ensures Weighed(b, n) == b % 2 + 2 * Weighed(b / 2, n - 1)
  {
    if n > 1 {
      WeighedHalf(b, n - 1);
    }
  }

  lemma {:induction false} WeighedAll(b: byte, n: nat)
    requires n <= 8 && b < N.Pow2(n)
    ensures Weighed(b, n) == b
    decreases n
  {
    if n > 0 {
      WeighedAll(b / 2, n - 1);
      WeighedHalf(b, n);
    }
  }

  /** The eight bits make up the byte. */
  lemma BitsMakeByte(b: byte)
    ensures Weighed(b, 8) == b
  {
    N.Pow2Values();
    WeighedAll(b, 8);
  }

  /** The bits of a byte string: bytes in order, each from its least significant bit. */
  function Bits(m: seq<byte>): (r: seq<bit>)
    ensures |r| == 8 * |m|
  {
    seq(8 * |m|, i requires 0 <= i < 8 * |m| => BitOf(m[i / 8], i % 8))
  }

  // ----- the sponge of FIPS 202 -----

  /** `pad10*1`, section 5.1. */
  function Pad(rate: nat, length: nat): seq<bit>
    requires rate > 0
  {
    var m: int := length;
    [true] + Zeros((-m - 2) % rate) + [true]
  }

  /** A block followed by the zeros of the capacity. */
  function Widened(block: seq<bit>): StateBits
    requires |block| <= 1600
  {
    block + Zeros(1600 - |block|)
  }

  /** Steps 5 and 6 of the sponge: one permutation per block. */
  function Absorb(f: Permutation, rate: nat, s: StateBits, padded: seq<bit>): StateBits
    requires 0 < rate <= 1600
    decreases |padded|
  {
    if |padded| < rate then s
    else Absorb(f, rate, f(Xor(s, Widened(padded[..rate]))), padded[rate..])
  }

  /** `SPONGE[f, pad10*1, rate](message, d)` for `d <= rate`, section 4. */
  function Sponge(f: Permutation, rate: nat, message: seq<bit>, d: nat): seq<bit>
    requires 0 < rate <= 1600 && d <= rate
  {
    Absorb(f, rate, Zeros(1600), message + Pad(rate, |message|))[..d]
  }

  // ----- words and bits -----

  /** The state as one bit string: word `i` holds bits `64 * i` to `64 * i + 63`. */
  function Flat(s: seq<Lane>): (r: seq<bit>)
    ensures |r| == 64 * |s|
  {
    seq(64 * |s|, i requires 0 <= i < 64 * |s| => s[i / 64][i % 64])
  }

  function Lanes(s: StateBits): (r: seq<Lane>)
    ensures |r| == 25
  {
    seq<Lane>(25, k requires 0 <= k < 25 => s[64 * k..64 * k + 64])
  }

  lemma FlatOfLanes(s: StateBits)
    ensures Flat(Lanes(s)) == s
  {
    forall i | 0 <= i < 1600 ensures Flat(Lanes(s))[i] == s[i] {
      assert Lanes(s)[i / 64][i % 64] == s[i];
    }
  }

  lemma BitsConcat(a: seq<byte>, b: seq<byte>)
    ensures Bits(a + b) == Bits(a) + Bits(b)
  {
    hide BitOf;
    forall i | 0 <= i < 8 * (|a| + |b|) ensures Bits(a + b)[i] == (Bits(a) + Bits(b))[i] {
      if i >= 8 * |a| {
        assert (i - 8 * |a|) / 8 == i / 8 - |a| && (i - 8 * |a|) % 8 == i % 8;
      }
    }
  }

  /** Word `k` of the state takes in the next 64 bits of a block. */
  lemma LaneTakesIn(start: StateBits, s: seq<Lane>, k: nat, done: seq<bit>, w: Lane)
    requires |s| == 25 && k < 25 && |done| == 64 * k && Flat(s) == Xor(start, Widened(done))
    ensures Flat(s[k := Xor(s[k], w)]) == Xor(start, Widened(done + w))
  {
    var t := s[k := Xor(s[k], w)];
    forall i | 0 <= i < 1600 ensures Flat(t)[i] == Xor(start, Widened(done + w))[i] {
      assert Flat(s)[i] == Xor(start, Widened(done))[i];
      assert Flat(t)[i] == t[i / 64][i % 64];
    }
  }

  // ----- padding -----

  lemma PadSkipsBlock(rate: nat, length: nat)
    requires rate > 0
    ensures Pad(rate, length + rate) == Pad(rate, length)
  {
    var x: int := length;
    DivMod(-x - 2, rate);
    DivModIs(-x - rate - 2, (-x - 2) / rate - 1, (-x - 2) % rate, rate);
  }

  /** Absorbing a full block of input. */
  lemma AbsorbBlock(f: Permutation, words: nat, s: StateBits, m: seq<byte>)
    requires 0 < words <= 25 && 8 * words <= |m|
    ensures Absorb(f, 64 * words, s, Bits(m) + Pad(64 * words, 8 * |m|))
      == Absorb(f, 64 * words, f(Xor(s, Widened(Bits(m[..8 * words])))),
                Bits(m[8 * words..]) + Pad(64 * words, 8 * |m[8 * words..]|))
  {
    hide Bits;
    var rate := 64 * words;
    assert m == m[..8 * words] + m[8 * words..];
    BitsConcat(m[..8 * words], m[8 * words..]);
    PadSkipsBlock(rate, 8 * |m| - rate);
    var padded := Bits(m) + Pad(rate, 8 * |m|);
    assert padded[..rate] == Bits(m[..8 * words]);
    assert padded[rate..] == Bits(m[8 * words..]) + Pad(rate, 8 * |m|);
  }

  /** The last block: the rest of the input, a one, zeros, a one. */
  function LastBlock(rate: nat, rest: seq<byte>): seq<bit>
    requires 8 * |rest| + 8 <= rate
  {
    Bits(rest) + [true] + Zeros(rate - 8 * |rest| - 2) + [true]
  }

  lemma AbsorbLast(f: Permutation, words: nat, s: StateBits, rest: seq<byte>)
    requires 0 < words <= 25 && |rest| < 8 * words
    ensures Absorb(f, 64 * words, s, Bits(rest) + Pad(64 * words, 8 * |rest|))
      == f(Xor(s, Widened(LastBlock(64 * words, rest))))
  {
    hide Bits;
    var rate := 64 * words;
    DivModIs(-8 * |rest| - 2, -1, rate - 8 * |rest| - 2, rate);
    var padded := Bits(rest) + Pad(rate, 8 * |rest|);
    assert padded == LastBlock(rate, rest);
    assert padded[..rate] == padded && padded[rate..] == [];
  }

  const ONE_BYTE: byte := 0x01

  function ZeroBytes(n: nat): (r: seq<byte>)
    ensures |r| == n
  {
    seq(n, _ => 0)
  }

  lemma BitOfZero(i: nat)
    requires i < 8
    ensures !BitOf(0, i) && (BitOf(1, i) <==> i == 0)
  {
  }

  /** The bit 0x8000000000000000 of a word. */
  function TopBit(): Lane {
    Zeros(63) + [true]
  }

  /** Ending the input with a byte 0x01 and setting the top bit of the last word of the block gives
      the last block of the standard, also where both fall into one byte. */
  lemma LastWords(start: StateBits, s: seq<Lane>, words: nat, pos: nat, head: seq<byte>, rest: seq<byte>)
    requires |s| == 25 && 0 < words <= 25 && pos < words && |head| == 8 * pos && |rest| < 8
    requires Flat(s) == Xor(start, Widened(Bits(head)))
    ensures
      var last := Bits(rest + [ONE_BYTE] + ZeroBytes(7 - |rest|));
      var t := s[pos := Xor(s[pos], last)];
      Flat(t[words - 1 := Xor(t[words - 1], TopBit())]) == Xor(start, Widened(LastBlock(64 * words, head + rest)))
  {
    hide BitOf;
    var bytes := rest + [ONE_BYTE] + ZeroBytes(7 - |rest|);
    var t := s[pos := Xor(s[pos], Bits(bytes))];
    LaneTakesIn(start, s, pos, Bits(head), Bits(bytes));
    BitsConcat(head, bytes);
    var u := t[words - 1 := Xor(t[words - 1], TopBit())];
    var n := |head| + |rest|;
    forall i | 0 <= i < 1600
      ensures Flat(u)[i] == Xor(start, Widened(LastBlock(64 * words, head + rest)))[i]
    {
      assert Flat(u)[i] == u[i / 64][i % 64] == (Flat(t)[i] != (i == 64 * words - 1));
      assert Flat(t)[i] == Xor(start, Widened(Bits(head + bytes)))[i];
      LastBlockBit(head, rest, words, i);
    }
  }

  lemma LastBlockBit(head: seq<byte>, rest: seq<byte>, words: nat, i: nat)
    requires |rest| < 8 && |head| + 8 <= 8 * words && words <= 25 && i < 1600
    ensures |head + (rest + [ONE_BYTE] + ZeroBytes(7 - |rest|))| <= 200
    ensures Widened(LastBlock(64 * words, head + rest))[i]
      == (Widened(Bits(head + (rest + [ONE_BYTE] + ZeroBytes(7 - |rest|))))[i] != (i == 64 * words - 1))
  {
    hide BitOf;
    var all := head + (rest + [ONE_BYTE] + ZeroBytes(7 - |rest|));
    var n := |head| + |rest|;
    BitOfZero(i % 8);
    if i < 8 * n {
      assert all[i / 8] == (head + rest)[i / 8];
      assert Bits(all)[i] == Bits(head + rest)[i];
    } else if i < 8 * |all| {
      assert all[i / 8] == if i / 8 == n then ONE_BYTE else 0;
      assert Bits(all)[i] == (i == 8 * n);
    }
  }

  // ----- the code -----

  /** The branches of the loop that consumes the input. */
  datatype Branch = Block | Word | Rest

  /** The branches taken once less than a block is left. */
  function Tail(n: nat): seq<Branch> {
    if n >= 8 then [Word] + Tail(n - 8) else if n > 0 then [Rest] else []
  }

  /** All branches taken for `n` bytes: first full blocks, then words, then the rest. */
  function Branches(block: nat, n: nat): seq<Branch>
    requires block > 0
  {
    if n >= block then [Block] + Branches(block, n - block) else Tail(n)
  }

  /** The branches still to come, with `pos` words of the current block taken in. */
  function Left(block: nat, pos: nat, n: nat): seq<Branch>
    requires block > 0
  {
    if pos == 0 then Branches(block, n) else Tail(n)
  }

  lemma LeftNext(block: nat, pos: nat, n: nat, taken: seq<Branch>)
    requires block > 0 && (pos > 0 ==> n < block)
    ensures n >= block ==> taken + Left(block, pos, n) == (taken + [Block]) + Left(block, 0, n - block)
    ensures 8 <= n < block ==> taken + Left(block, pos, n) == (taken + [Word]) + Left(block, pos + 1, n - 8)
    ensures 0 < n < 8 && n < block ==> taken + Left(block, pos, n) == taken + [Rest]
    ensures n == 0 ==> taken + Left(block, pos, n) == taken
  {
  }

  method Permute(f: Permutation, state: array<Lane>)
    requires state.Length == 25
    modifies state
    ensures Flat(state[..]) == f(Flat(old(state[..])))
  {
    var r := Lanes(f(Flat(state[..])));
    FlatOfLanes(f(Flat(state[..])));
    for i := 0 to 25
      invariant state[..i] == r[..i]
    {
      state[i] := r[i];
    }
    assert state[..] == r;
  }

  /** The block branch. */
  method TakeBlock(f: Permutation, state: array<Lane>, words: nat, input: seq<byte>) returns (view: seq<byte>)
    requires state.Length == 25 && 0 < words <= 25 && 8 * words <= |input|
    modifies state
    ensures view == input[8 * words..]
    ensures Flat(state[..]) == f(Xor(Flat(old(state[..])), Widened(Bits(input[..8 * words]))))
  {
    hide Bits, Flat, Xor, Widened;
    view := input;
    ghost var start := Flat(state[..]);
    NothingTaken(start);
    for i := 0 to words
      invariant view == input[8 * i..]
      invariant Flat(state[..]) == Xor(start, Widened(Bits(input[..8 * i])))
    {
      LaneTakesIn(start, state[..], i, Bits(input[..8 * i]), Bits(view[..8]));
      BitsConcat(input[..8 * i], view[..8]);
      assert input[..8 * i] + view[..8] == input[..8 * (i + 1)];
      state[i] := Xor(state[i], Bits(view[..8]));
      view := view[8..];
    }
    Permute(f, state);
  }

  lemma NothingTaken(start: StateBits)
    ensures Xor(start, Widened(Bits([]))) == start
  {
    assert Bits([]) == [];
  }

  /** Where the loop stands: `head` of the current block is taken into the words before `pos`, `view`
      is what is left of the input. */
  ghost predicate Consuming(f: Permutation, words: nat, input: seq<byte>, s: seq<Lane>, pos: nat,
                            start: StateBits, head: seq<byte>, view: seq<byte>)
    requires 0 < words <= 25
  {
    && |s| == 25 && |head| == 8 * pos
    && (pos > 0 ==> pos < words && |head| + |view| < 8 * words)
    && Flat(s) == Xor(start, Widened(Bits(head)))
    && Absorb(f, 64 * words, Zeros(1600), Bits(input) + Pad(64 * words, 8 * |input|))
       == Absorb(f, 64 * words, start, Bits(head + view) + Pad(64 * words, 8 * |head + view|))
  }

  lemma ConsumingStarts(f: Permutation, words: nat, input: seq<byte>)
    requires 0 < words <= 25
    ensures Consuming(f, words, input, seq<Lane>(25, _ => Zeros(64)), 0, Zeros(1600), [], input)
  {
    hide Absorb, Pad;
    NothingTaken(Zeros(1600));
    assert Flat(seq<Lane>(25, _ => Zeros(64))) == Zeros(1600);
    assert [] + input == input;
  }

  lemma ConsumeBlock(f: Permutation, words: nat, input: seq<byte>, s: seq<Lane>, start: StateBits,
                     view: seq<byte>, t: seq<Lane>)
    requires 0 < words <= 25 && Consuming(f, words, input, s, 0, start, [], view) && 8 * words <= |view| && |t| == 25
    requires Flat(t) == f(Xor(Flat(s), Widened(Bits(view[..8 * words]))))
    ensures Consuming(f, words, input, t, 0, Flat(t), [], view[8 * words..])
  {
    hide Absorb, Pad;
    NothingTaken(start);
    NothingTaken(Flat(t));
    assert [] + view == view;
    assert [] + view[8 * words..] == view[8 * words..];
    hide Flat, Xor, Widened, Bits;
    AbsorbBlock(f, words, start, view);
  }

  lemma ConsumeWord(f: Permutation, words: nat, input: seq<byte>, s: seq<Lane>, pos: nat, start: StateBits,
                    head: seq<byte>, view: seq<byte>)
    requires 0 < words <= 25 && Consuming(f, words, input, s, pos, start, head, view) && 8 <= |view| < 8 * words
    ensures pos + 1 < words || |head| + |view| == 8 * words
    ensures Consuming(f, words, input, s[pos := Xor(s[pos], Bits(view[..8]))], pos + 1, start,
                      head + view[..8], view[8..])
  {
    hide Absorb, Pad, Flat, Xor, Widened, Bits;
    LaneTakesIn(start, s, pos, Bits(head), Bits(view[..8]));
    BitsConcat(head, view[..8]);
    assert head + view[..8] + view[8..] == head + view;
  }

  lemma ConsumedAll(f: Permutation, words: nat, input: seq<byte>, s: seq<Lane>, pos: nat, start: StateBits,
                    head: seq<byte>, rest: seq<byte>)
    requires 0 < words <= 25 && Consuming(f, words, input, s, pos, start, head, rest) && |rest| < 8
    ensures pos < words
    ensures
      var last := Bits(rest + [ONE_BYTE] + ZeroBytes(7 - |rest|));
      var t := s[pos := Xor(s[pos], last)];
      f(Flat(t[words - 1 := Xor(t[words - 1], TopBit())]))
      == Absorb(f, 64 * words, Zeros(1600), Bits(input) + Pad(64 * words, 8 * |input|))
  {
    hide Absorb, Pad, Flat, Xor, Widened, Bits, LastBlock;
    AbsorbLast(f, words, start, head + rest);
    LastWords(start, s, words, pos, head, rest);
  }

  /** The loop that consumes the input: `rest` is what it leaves in `last`. */
  method Consume(f: Permutation, state: array<Lane>, words: nat, input: seq<byte>)
    returns (pos: nat, last: seq<byte>, lastAt: nat, ghost start: StateBits, ghost head: seq<byte>,
             ghost rest: seq<byte>, ghost taken: seq<Branch>)
    requires state.Length == 25 && 0 < words <= 25 && state[..] == seq<Lane>(25, _ => Zeros(64))
    modifies state
    ensures Consuming(f, words, input, state[..], pos, start, head, rest) && |rest| < 8
    ensures last == rest + ZeroBytes(8 - |rest|) && lastAt == |rest|
    ensures taken == Left(8 * words, 0, |input|)
  {
    hide Consuming, Flat, Xor, Widened, Bits, Left;
    var block := 8 * words;
    var view: seq<byte> := input;
    pos, last, lastAt, taken := 0, ZeroBytes(8), 0, [];
    start, head := Zeros(1600), [];
    ConsumingStarts(f, words, input);
    while |view| > 0
      invariant Consuming(f, words, input, state[..], pos, start, head, view)
      invariant pos == 0 ==> head == []
      invariant pos > 0 ==> |view| < block
      invariant last == ZeroBytes(8) && lastAt == 0
      invariant Left(block, 0, |input|) == taken + Left(block, pos, |view|)
      decreases |view|
    {
      ConsumingFacts(f, words, input, state[..], pos, start, head, view);
      LeftNext(block, pos, |view|, taken);
      if |view| >= block {
        ghost var before, v := state[..], view;
        view := TakeBlock(f, state, words, view);
        ConsumeBlock(f, words, input, before, start, v, state[..]);
        start := Flat(state[..]);
        taken := taken + [Block];
      } else if |view| >= 8 {
        ConsumeWord(f, words, input, state[..], pos, start, head, view);
        state[pos] := Xor(state[pos], Bits(view[..8]));
        pos := pos + 1;
        head := head + view[..8];
        view := view[8..];
        taken := taken + [Word];
      } else {
        last := view + last[|view|..];
        lastAt := |view|;
        taken := taken + [Rest];
        break;
      }
    }
    rest := view;
    LeftNext(block, pos, 0, taken);
  }

  /** `keccak`: the sponge of the standard at rate `1600 - 2 * bits`, for every input. `taken` are the
      branches the loop took. */
  method Keccak(f: Permutation, bits: nat, input: seq<byte>) returns (out: seq<Lane>, ghost taken: seq<Branch>)
    requires bits == 256 || bits == 512
    ensures Flat(out) == Sponge(f, 1600 - 2 * bits, Bits(input), bits)
    ensures taken == Branches((1600 - 2 * bits) / 8, |input|)
  {
    hide Consuming, Flat, Xor, Widened, Bits, Pad, Absorb, Branches, Sponge;
    var words := (1600 - bits * 2) / 8 / 8;
    assert words == if bits == 256 then 17 else 9;
    var state := new Lane[25](_ => Zeros(64));
    assert state[..] == seq<Lane>(25, _ => Zeros(64));
    var pos, last, lastAt;
    ghost var start, head, rest;
    pos, last, lastAt, start, head, rest, taken := Consume(f, state, words, input);
    ConsumedAll(f, words, input, state[..], pos, start, head, rest);
    last := last[lastAt := ONE_BYTE];
    assert last == rest + [ONE_BYTE] + ZeroBytes(7 - |rest|);
    state[pos] := Xor(state[pos], Bits(last));
    state[words - 1] := Xor(state[words - 1], TopBit());
    Permute(f, state);
    out := state[..bits / 64];
    FlatPrefix(state[..], bits / 64);
    SpongeIs(f, 1600 - 2 * bits, input, bits);
  }

  lemma ConsumingFacts(f: Permutation, words: nat, input: seq<byte>, s: seq<Lane>, pos: nat, start: StateBits,
                       head: seq<byte>, view: seq<byte>)
    requires 0 < words <= 25 && Consuming(f, words, input, s, pos, start, head, view)
    ensures pos < words
  {
  }

  lemma FlatPrefix(s: seq<Lane>, n: nat)
    requires n <= |s|
    ensures Flat(s[..n]) == Flat(s)[..64 * n]
  {
  }

  lemma SpongeIs(f: Permutation, rate: nat, input: seq<byte>, d: nat)
    requires 0 < rate <= 1600 && d <= rate
    ensures Sponge(f, rate, Bits(input), d)
      == Absorb(f, rate, Zeros(1600), Bits(input) + Pad(rate, 8 * |input|))[..d]
  {
  }

  /** No block is taken in after a word was. */
  lemma {:induction false} NoBlockAfterWord(block: nat, n: nat, i: nat, j: nat)
    requires block > 0 && i < j < |Branches(block, n)| && Branches(block, n)[i] == Word
    ensures Branches(block, n)[j] != Block
  {
    if n >= block {
      NoBlockAfterWord(block, n - block, i - 1, j - 1);
    } else {
      TailHasNoBlock(n, j);
    }
  }

  lemma {:induction false} TailHasNoBlock(n: nat, j: nat)
    requires j < |Tail(n)|
    ensures Tail(n)[j] != Block
  {
    if n >= 8 && j > 0 {
      TailHasNoBlock(n - 8, j - 1);
    }
  }
}
