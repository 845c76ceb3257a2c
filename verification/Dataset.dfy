/** Dataset items and the lazily filled dataset (libcrypto/ethash.cpp). Keccak-512 on one hash is a
    parameter. */
module Datasets {
  import opened Words

  const ITEM_PARENTS: nat := 512
  const L1_SLOTS: nat := 256        // 16384 bytes of 512-bit hashes

  type Hash512 = s: seq<word> | |s| == 16 witness seq(16, _ => 0)

  /** What items are computed from. */
  datatype Source = Source(cache: seq<Hash512>, keccak: Hash512 -> Hash512)
  {
    predicate Valid() {
      0 < |cache| < M32
    }
  }

  function Fnv512(a: Hash512, b: Hash512): Hash512 {
    seq(16, i requires 0 <= i < 16 => Fnv1(a[i], b[i]))
  }

  // ----- one item -----

  function ItemStart(c: Source, seed: word): Hash512
    requires c.Valid()
  {
    var mix := c.cache[seed % |c.cache|];
    c.keccak(mix[0 := Xor32(mix[0], seed)])
  }

  function ItemUpdate(c: Source, seed: word, round: nat, mix: Hash512): Hash512
    requires c.Valid() && round < M32
  {
    var t := Fnv1(Xor32(seed, round), mix[round % 16]);
    Fnv512(mix, c.cache[t % |c.cache|])
  }

  /** The mix of item `seed` after `n` parents. */
  function ItemMix(c: Source, seed: word, n: nat): Hash512
    requires c.Valid() && n <= ITEM_PARENTS
  {
    if n == 0 then ItemStart(c, seed) else ItemUpdate(c, seed, n - 1, ItemMix(c, seed, n - 1))
  }

  function Item512(c: Source, seed: word): Hash512
    requires c.Valid()
  {
    c.keccak(ItemMix(c, seed, ITEM_PARENTS))
  }

  /** `item_state`: the mix of one item, updated in place. */
  class ItemState {
    const c: Source
    const seed: word
    var mix: Hash512

    constructor (c: Source, index: word)
      requires c.Valid()
      ensures this.c == c && seed == index && mix == ItemStart(c, index)
    {
      this.c, this.seed := c, index;
      var m := c.cache[index % |c.cache|];
      m := m[0 := Xor32(m[0], index)];
      mix := c.keccak(m);
    }

    method Update(round: word)
      requires c.Valid()
      modifies this
      ensures mix == ItemUpdate(c, seed, round, old(mix))
    {
      var t := Fnv1(Xor32(seed, round), mix[round % 16]);
      mix := Fnv512(mix, c.cache[t % |c.cache|]);
    }

    method Final() returns (h: Hash512)
      requires c.Valid()
      ensures h == c.keccak(mix)
    {
      h := c.keccak(mix);
    }
  }

  // ----- items of two and four hashes -----

  /** `static_cast<uint32_t>(static_cast<uint64_t>(index) * 2)`, and with 4. */
  function Seed2(index: word): (s: word)
    ensures s + 1 < M32
  {
    (2 * index) % M32
  }

  function Seed4(index: word): (s: word)
    ensures s + 3 < M32
  {
    (4 * index) % M32
  }

  function Item1024(c: Source, index: word): seq<Hash512>
    requires c.Valid()
  {
    [Item512(c, Seed2(index)), Item512(c, Seed2(index) + 1)]
  }

  function Item2048(c: Source, index: word): seq<Hash512>
    requires c.Valid()
  {
    var s := Seed4(index);
    [Item512(c, s), Item512(c, s + 1), Item512(c, s + 2), Item512(c, s + 3)]
  }

  /** A 2048-bit item is two consecutive 1024-bit items. */
  lemma WideIsTwoNarrow(c: Source, index: word)
    requires c.Valid() && 2 * index + 1 < M32
    ensures Item2048(c, index) == Item1024(c, 2 * index) + Item1024(c, 2 * index + 1)
  {
    hide Item512;
    assert Seed2(2 * index) == Seed4(index) && Seed2(2 * index + 1) == Seed4(index) + 2;
  }

  /** `calculate_dataset_item_1024`: two items advance together. */
  method CalculateDatasetItem1024(c: Source, index: word) returns (r: seq<Hash512>)
    requires c.Valid()
    ensures r == Item1024(c, index)
  {
    hide ItemStart, ItemUpdate;
    var s := Seed2(index);
    var item0 := new ItemState(c, s);
    var item1 := new ItemState(c, s + 1);
    for i := 0 to ITEM_PARENTS
      invariant item0.mix == ItemMix(c, s, i) && item1.mix == ItemMix(c, s + 1, i)
    {
      item0.Update(i);
      item1.Update(i);
    }
    var h0 := item0.Final();
    var h1 := item1.Final();
    r := [h0, h1];
  }

  /** `calculate_dataset_item_2048`: four items advance together. */
  method CalculateDatasetItem2048(c: Source, index: word) returns (r: seq<Hash512>)
    requires c.Valid()
    ensures r == Item2048(c, index)
  {
    hide ItemStart, ItemUpdate;
    var s := Seed4(index);
    var item0 := new ItemState(c, s);
    var item1 := new ItemState(c, s + 1);
    var item2 := new ItemState(c, s + 2);
    var item3 := new ItemState(c, s + 3);
    for i := 0 to ITEM_PARENTS
      invariant item0.mix == ItemMix(c, s, i) && item1.mix == ItemMix(c, s + 1, i)
      invariant item2.mix == ItemMix(c, s + 2, i) && item3.mix == ItemMix(c, s + 3, i)
    {
      item0.Update(i);
      item1.Update(i);
      item2.Update(i);
      item3.Update(i);
    }
    var h0 := item0.Final();
    var h1 := item1.Final();
    var h2 := item2.Final();
    var h3 := item3.Final();
    r := [h0, h1, h2, h3];
  }

  // ----- the lazily filled dataset, as 512-bit slots -----

  /** `word64s[0] == 0`: the code's test for "not filled yet". */
  predicate Unfilled(h: Hash512) {
    h[0] == 0 && h[1] == 0
  }

  lemma UnfilledIs(h: Hash512)
    ensures Unfilled(h) <==> h[0] as int + 0x1_0000_0000 * h[1] as int == 0
  {
  }

  /** Slot `s` holds the hash it should. */
  ghost predicate Right(c: Source, slots: seq<Hash512>, s: nat)
    requires c.Valid() && s < |slots|
  {
    s < M32 && slots[s] == Item512(c, s)
  }

  /** The first 64 items were filled when the context was created. */
  ghost predicate CacheFilled(c: Source, slots: seq<Hash512>)
    requires c.Valid()
  {
    |slots| >= L1_SLOTS && forall s :: 0 <= s < L1_SLOTS ==> Right(c, slots, s)
  }

  /** A 1024-bit item that looks filled is right. */
  ghost predicate NarrowSound(c: Source, slots: seq<Hash512>)
    requires c.Valid()
  {
    forall i {:trigger Unfilled(slots[2 * i])} :: 0 <= i && 2 * i + 1 < |slots| && !Unfilled(slots[2 * i])
      ==> Right(c, slots, 2 * i) && Right(c, slots, 2 * i + 1)
  }

  /** A 2048-bit item that looks filled is right. */
  ghost predicate WideSound(c: Source, slots: seq<Hash512>)
    requires c.Valid()
  {
    forall i {:trigger Unfilled(slots[4 * i])} :: 0 <= i && 4 * i + 3 < |slots| && !Unfilled(slots[4 * i])
      ==> Right(c, slots, 4 * i) && Right(c, slots, 4 * i + 1)
          && Right(c, slots, 4 * i + 2) && Right(c, slots, 4 * i + 3)
  }

  // ----- lookups, on values -----

  datatype Lookup = Narrow(index: word) | Wide(index: word)
  {
    /** The item's first slot and how many it takes. */
    function First(): nat {
      match this case Narrow(i) => 2 * i case Wide(i) => 4 * i
    }

    function Width(): nat {
      if Narrow? then 2 else 4
    }

    predicate Fits(slots: nat) {
      First() + Width() <= slots
    }

    /** The item as freshly calculated. */
    function Item(c: Source): (r: seq<Hash512>)
      requires c.Valid()
      ensures |r| == Width()
    {
      match this case Narrow(i) => Item1024(c, i) case Wide(i) => Item2048(c, i)
    }
  }

  /** The item is copied from the level-one cache. */
  predicate InCache(l: Lookup) {
    l.First() < L1_SLOTS
  }

  /** The slots after a lookup in a full dataset: an item that looks unfilled is calculated into its
      place. */
  function Fill(c: Source, slots: seq<Hash512>, l: Lookup): (r: seq<Hash512>)
    requires c.Valid() && l.Fits(|slots|)
    ensures |r| == |slots|
  {
    if InCache(l) || !Unfilled(slots[l.First()]) then slots
    else slots[..l.First()] + l.Item(c) + slots[l.First() + l.Width()..]
  }

  /** What a lookup in a full dataset returns. */
  function Found(c: Source, slots: seq<Hash512>, l: Lookup): seq<Hash512>
    requires c.Valid() && l.Fits(|slots|)
  {
    Fill(c, slots, l)[l.First()..l.First() + l.Width()]
  }

  lemma ItemSlots(c: Source, l: Lookup, k: nat)
    requires c.Valid() && l.Fits(M32) && k < l.Width()
    ensures l.Item(c)[k] == Item512(c, l.First() + k)
  {
    hide Item512;
  }

  lemma FillAt(c: Source, slots: seq<Hash512>, l: Lookup, s: nat)
    requires c.Valid() && l.Fits(|slots|) && |slots| <= M32 && s < |slots|
    ensures Fill(c, slots, l)[s] ==
      if l.First() <= s < l.First() + l.Width() && !InCache(l) && Unfilled(slots[l.First()])
      then Item512(c, s) else slots[s]
  {
    hide Item512;
    if l.First() <= s < l.First() + l.Width() && !InCache(l) && Unfilled(slots[l.First()]) {
      ItemSlots(c, l, s - l.First());
    }
  }

  /** Any lookup keeps the cache and what narrow lookups rely on. */
  lemma FillKeepsNarrow(c: Source, slots: seq<Hash512>, l: Lookup)
    requires c.Valid() && l.Fits(|slots|) && |slots| <= M32
    requires CacheFilled(c, slots) && NarrowSound(c, slots)
    ensures CacheFilled(c, Fill(c, slots, l)) && NarrowSound(c, Fill(c, slots, l))
  {
    hide Item512, Fill;
    var t := Fill(c, slots, l);
    forall s | 0 <= s < L1_SLOTS ensures Right(c, t, s) {
      FillAt(c, slots, l, s);
      assert Right(c, slots, s);
    }
    forall i {:trigger Unfilled(t[2 * i])} | 0 <= i && 2 * i + 1 < |t| && !Unfilled(t[2 * i])
      ensures Right(c, t, 2 * i) && Right(c, t, 2 * i + 1)
    {
      FillAt(c, slots, l, 2 * i);
      FillAt(c, slots, l, 2 * i + 1);
      assert Unfilled(slots[2 * i]) || (Right(c, slots, 2 * i) && Right(c, slots, 2 * i + 1));
    }
  }

  /** Wide lookups also keep what wide lookups rely on. */
  lemma FillKeepsWide(c: Source, slots: seq<Hash512>, l: Lookup)
    requires c.Valid() && l.Wide? && l.Fits(|slots|) && |slots| <= M32
    requires WideSound(c, slots)
    ensures WideSound(c, Fill(c, slots, l))
  {
    hide Item512, Fill;
    var t := Fill(c, slots, l);
    forall i {:trigger Unfilled(t[4 * i])} | 0 <= i && 4 * i + 3 < |t| && !Unfilled(t[4 * i])
      ensures Right(c, t, 4 * i) && Right(c, t, 4 * i + 1) && Right(c, t, 4 * i + 2) && Right(c, t, 4 * i + 3)
    {
      FillAt(c, slots, l, 4 * i);
      FillAt(c, slots, l, 4 * i + 1);
      FillAt(c, slots, l, 4 * i + 2);
      FillAt(c, slots, l, 4 * i + 3);
      assert Unfilled(slots[4 * i]) || (Right(c, slots, 4 * i) && Right(c, slots, 4 * i + 1)
        && Right(c, slots, 4 * i + 2) && Right(c, slots, 4 * i + 3));
    }
  }

  /** All slots of the looked-up item are right. */
  ghost predicate AllRight(c: Source, slots: seq<Hash512>, l: Lookup)
    requires c.Valid() && l.Fits(|slots|)
  {
    forall s :: l.First() <= s < l.First() + l.Width() ==> Right(c, slots, s)
  }

  /** A lookup returns the freshly calculated item exactly when the item is in the cache, looks
      unfilled, or is right already. */
  lemma FoundExactly(c: Source, slots: seq<Hash512>, l: Lookup)
    requires c.Valid() && l.Fits(|slots|) && |slots| <= M32 && CacheFilled(c, slots)
    ensures Found(c, slots, l) == l.Item(c)
      <==> InCache(l) || Unfilled(slots[l.First()]) || AllRight(c, slots, l)
  {
    hide Item512, Fill, CacheFilled;
    var r := Found(c, slots, l);
    if InCache(l) {
      CacheRight(c, slots, l);
    }
    assert forall k :: 0 <= k < l.Width() ==> r[k] == Fill(c, slots, l)[l.First() + k];
    forall k | 0 <= k < l.Width()
      ensures r[k] == if !InCache(l) && Unfilled(slots[l.First()]) then l.Item(c)[k] else slots[l.First() + k]
      ensures l.Item(c)[k] == Item512(c, l.First() + k)
    {
      FillAt(c, slots, l, l.First() + k);
      ItemSlots(c, l, k);
    }
    if AllRight(c, slots, l) {
      forall k | 0 <= k < l.Width() ensures r[k] == l.Item(c)[k] {
        assert Right(c, slots, l.First() + k);
      }
    }
    if r == l.Item(c) && !InCache(l) && !Unfilled(slots[l.First()]) {
      forall s | l.First() <= s < l.First() + l.Width() ensures Right(c, slots, s) {
        assert r[s - l.First()] == l.Item(c)[s - l.First()];
      }
    }
  }

  lemma CacheRight(c: Source, slots: seq<Hash512>, l: Lookup)
    requires c.Valid() && l.Fits(|slots|) && CacheFilled(c, slots) && InCache(l)
    ensures AllRight(c, slots, l)
  {
    hide Item512;
    forall s | l.First() <= s < l.First() + l.Width() ensures Right(c, slots, s) {
      assert s < L1_SLOTS;
    }
  }

  // ----- whole runs -----

  function ZeroHash(): Hash512 {
    seq(16, _ => 0)
  }

  /** A newly created full dataset: the cache filled, everything else zero. */
  ghost predicate Fresh(c: Source, slots: seq<Hash512>)
    requires c.Valid()
  {
    CacheFilled(c, slots) && |slots| <= M32 && forall s :: L1_SLOTS <= s < |slots| ==> slots[s] == ZeroHash()
  }

  /** The slots after a sequence of lookups. */
  function After(c: Source, slots: seq<Hash512>, run: seq<Lookup>): (r: seq<Hash512>)
    requires c.Valid() && forall l :: l in run ==> l.Fits(|slots|)
    ensures |r| == |slots|
  {
    if |run| == 0 then slots else Fill(c, After(c, slots, run[..|run| - 1]), run[|run| - 1])
  }

  lemma FreshSound(c: Source, slots: seq<Hash512>)
    requires c.Valid() && Fresh(c, slots)
    ensures NarrowSound(c, slots) && WideSound(c, slots)
  {
    hide Item512;
    forall i {:trigger Unfilled(slots[2 * i])} | 0 <= i && 2 * i + 1 < |slots| && !Unfilled(slots[2 * i])
      ensures Right(c, slots, 2 * i) && Right(c, slots, 2 * i + 1)
    {
      assert 2 * i < L1_SLOTS;
    }
    forall i {:trigger Unfilled(slots[4 * i])} | 0 <= i && 4 * i + 3 < |slots| && !Unfilled(slots[4 * i])
      ensures Right(c, slots, 4 * i) && Right(c, slots, 4 * i + 1)
      ensures Right(c, slots, 4 * i + 2) && Right(c, slots, 4 * i + 3)
    {
      assert 4 * i < L1_SLOTS;
    }
  }

  lemma {:induction false} RunsKeep(c: Source, slots: seq<Hash512>, run: seq<Lookup>)
    requires c.Valid() && Fresh(c, slots) && forall l :: l in run ==> l.Fits(|slots|)
    ensures CacheFilled(c, After(c, slots, run)) && NarrowSound(c, After(c, slots, run))
    ensures (forall l :: l in run ==> l.Wide?) ==> WideSound(c, After(c, slots, run))
  {
    hide NarrowSound, WideSound, CacheFilled, Fill;
    if |run| == 0 {
      FreshSound(c, slots);
      FreshFacts(c, slots);
    } else {
      var front, l := run[..|run| - 1], run[|run| - 1];
      FreshFacts(c, slots);
      RunsKeep(c, slots, front);
      FillKeepsNarrow(c, After(c, slots, front), l);
      if forall m :: m in run ==> m.Wide? {
        FillKeepsWide(c, After(c, slots, front), l);
      }
    }
  }

  lemma FreshFacts(c: Source, slots: seq<Hash512>)
    requires c.Valid() && Fresh(c, slots)
    ensures CacheFilled(c, slots) && |slots| <= M32
  {
  }

  /** In every run that mixes both widths, each narrow lookup returns the item as freshly
      calculated. */
  lemma NarrowLookupsRight(c: Source, slots: seq<Hash512>, run: seq<Lookup>, l: Lookup)
    requires c.Valid() && Fresh(c, slots) && forall m :: m in run ==> m.Fits(|slots|)
    requires l.Narrow? && l.Fits(|slots|)
    ensures Found(c, After(c, slots, run), l) == l.Item(c)
  {
    hide Item512, Fill, Found, After;
    RunsKeep(c, slots, run);
    FreshFacts(c, slots);
    var now := After(c, slots, run);
    FoundExactly(c, now, l);
    assert Unfilled(now[2 * l.index]) || (Right(c, now, 2 * l.index) && Right(c, now, 2 * l.index + 1));
  }

  /** In every run of wide lookups only, each returns the item as freshly calculated. */
  lemma WideLookupsRight(c: Source, slots: seq<Hash512>, run: seq<Lookup>, l: Lookup)
    requires c.Valid() && Fresh(c, slots) && forall m :: m in run ==> m.Wide? && m.Fits(|slots|)
    requires l.Wide? && l.Fits(|slots|)
    ensures Found(c, After(c, slots, run), l) == l.Item(c)
  {
    hide Item512, Fill, Found, After;
    RunsKeep(c, slots, run);
    FreshFacts(c, slots);
    var now, i := After(c, slots, run), l.index;
    FoundExactly(c, now, l);
    assert Unfilled(now[4 * i]) || (Right(c, now, 4 * i) && Right(c, now, 4 * i + 1)
      && Right(c, now, 4 * i + 2) && Right(c, now, 4 * i + 3));
  }

  /** The first half of the item was looked up by itself before the whole item ever was. */
  predicate HalfFirst(run: seq<Lookup>, i: word)
    requires 2 * i + 1 < M32
  {
    run != [] && var front, l := run[..|run| - 1], run[|run| - 1];
      HalfFirst(front, i) || (l == Narrow(2 * i) && Wide(i) !in front)
  }

  /** Whether the first and the second half of the item's slots are filled after `run`. */
  ghost predicate FirstFilled(run: seq<Lookup>, i: word)
    requires 2 * i + 1 < M32
  {
    Narrow(2 * i) in run || Wide(i) in run
  }

  ghost predicate SecondFilled(c: Source, run: seq<Lookup>, i: word)
    requires c.Valid() && 4 * i + 4 <= M32
  {
    Narrow(2 * i + 1) in run || (Wide(i) in run && (Unfilled(Item512(c, 4 * i)) || !HalfFirst(run, i)))
  }

  /** The slots of item `i` hold their hashes if filled, and zero otherwise. */
  ghost predicate SlotsAre(c: Source, slots: seq<Hash512>, i: word, first: bool, second: bool)
    requires c.Valid() && 4 * i + 4 <= |slots| <= M32
  {
    && slots[4 * i] == (if first then Item512(c, 4 * i) else ZeroHash())
    && slots[4 * i + 1] == (if first then Item512(c, 4 * i + 1) else ZeroHash())
    && slots[4 * i + 2] == (if second then Item512(c, 4 * i + 2) else ZeroHash())
    && slots[4 * i + 3] == (if second then Item512(c, 4 * i + 3) else ZeroHash())
  }

  /** What one lookup does to the slots of item `i`. */
  lemma LookupFills(c: Source, slots: seq<Hash512>, l: Lookup, i: word, first: bool, second: bool)
    requires c.Valid() && l.Fits(|slots|) && 64 <= i && 4 * i + 4 <= |slots| <= M32
    requires SlotsAre(c, slots, i, first, second)
    ensures SlotsAre(c, Fill(c, slots, l), i, first || l == Narrow(2 * i) || l == Wide(i),
                     second || l == Narrow(2 * i + 1)
                     || (l == Wide(i) && (!first || Unfilled(Item512(c, 4 * i)))))
  {
    hide Item512, Fill;
    FillAt(c, slots, l, 4 * i);
    FillAt(c, slots, l, 4 * i + 1);
    FillAt(c, slots, l, 4 * i + 2);
    FillAt(c, slots, l, 4 * i + 3);
  }

  lemma {:induction false} SlotsAfter(c: Source, slots: seq<Hash512>, run: seq<Lookup>, i: word)
    requires c.Valid() && Fresh(c, slots) && (forall l :: l in run ==> l.Fits(|slots|))
    requires 64 <= i && 4 * i + 4 <= |slots|
    ensures SlotsAre(c, After(c, slots, run), i, FirstFilled(run, i), SecondFilled(c, run, i))
  {
    hide Item512, Fill, SlotsAre;
    if |run| == 0 {
      FreshSlots(c, slots, i);
    } else {
      var front, l := run[..|run| - 1], run[|run| - 1];
      SlotsAfter(c, slots, front, i);
      LookupFills(c, After(c, slots, front), l, i, FirstFilled(front, i), SecondFilled(c, front, i));
      LastLookup(c, run, i);
    }
  }

  lemma FreshSlots(c: Source, slots: seq<Hash512>, i: word)
    requires c.Valid() && Fresh(c, slots) && 64 <= i && 4 * i + 4 <= |slots|
    ensures SlotsAre(c, slots, i, false, false)
  {
    hide Item512;
  }

  lemma LastLookup(c: Source, run: seq<Lookup>, i: word)
    requires c.Valid() && 4 * i + 4 <= M32 && |run| > 0
    ensures
      var front, l := run[..|run| - 1], run[|run| - 1];
      && FirstFilled(run, i) == (FirstFilled(front, i) || l == Narrow(2 * i) || l == Wide(i))
      && SecondFilled(c, run, i) == (SecondFilled(c, front, i) || l == Narrow(2 * i + 1)
           || (l == Wide(i) && (!FirstFilled(front, i) || Unfilled(Item512(c, 4 * i)))))
  {
    hide Item512, Unfilled;
    var front, l := run[..|run| - 1], run[|run| - 1];
    assert run == front + [l];
    assert forall x :: x in run <==> x in front || x == l;
    HalfBeforeWhole(front, i);
  }

  /** The half came first only if it was looked up, and certainly if the whole never was. */
  lemma {:induction false} HalfBeforeWhole(run: seq<Lookup>, i: word)
    requires 2 * i + 1 < M32
    ensures HalfFirst(run, i) ==> Narrow(2 * i) in run
    ensures Narrow(2 * i) in run && Wide(i) !in run ==> HalfFirst(run, i)
  {
    if run != [] {
      var front, l := run[..|run| - 1], run[|run| - 1];
      assert run == front + [l];
      HalfBeforeWhole(front, i);
    }
  }

  /** After any run mixing both widths the 2048-bit lookup of item `i` is right exactly when its first
      half was not looked up first, or looks unfilled anyway, or the second half was looked up too or
      is all zero. */
  lemma WideRightExactly(c: Source, slots: seq<Hash512>, run: seq<Lookup>, i: word)
    requires c.Valid() && Fresh(c, slots) && (forall l :: l in run ==> l.Fits(|slots|))
    requires 64 <= i && 4 * i + 4 <= |slots|
    ensures Found(c, After(c, slots, run), Wide(i)) == Wide(i).Item(c)
      <==> !HalfFirst(run, i) || Unfilled(Item512(c, 4 * i)) || Narrow(2 * i + 1) in run
           || (Item512(c, 4 * i + 2) == ZeroHash() && Item512(c, 4 * i + 3) == ZeroHash())
  {
    hide Item512, Fill, Found, AllRight, CacheFilled, NarrowSound, WideSound, After, SlotsAre, HalfFirst;
    var now := After(c, slots, run);
    RunsKeep(c, slots, run);
    FreshFacts(c, slots);
    FoundExactly(c, now, Wide(i));
    SlotsAfter(c, slots, run, i);
    SlotsRight(c, now, i, FirstFilled(run, i), SecondFilled(c, run, i));
    HalfBeforeWhole(run, i);
  }

  /** The shortest such run, looking up the first half alone: the item is right after it exactly when the
      first half looks unfilled anyway or the second half is all zero. */
  lemma FirstHalfAlone(c: Source, slots: seq<Hash512>, i: word)
    requires c.Valid() && Fresh(c, slots) && 64 <= i && 4 * i + 4 <= |slots| <= M32
    ensures Found(c, After(c, slots, [Narrow(2 * i)]), Wide(i)) == Wide(i).Item(c)
      <==> Unfilled(Item512(c, 4 * i))
           || (Item512(c, 4 * i + 2) == ZeroHash() && Item512(c, 4 * i + 3) == ZeroHash())
  {
    hide Item512, Fill, Found, Fresh, After;
    var run := [Narrow(2 * i)];
    assert run[..0] == [];
    WideRightExactly(c, slots, run, i);
  }

  /** It is wrong for every cache and item if no hash has a zero word. */
  lemma FirstHalfAloneIsWrong(c: Source, slots: seq<Hash512>, i: word)
    requires c.Valid() && Fresh(c, slots) && 64 <= i && 4 * i + 4 <= |slots| <= M32
    requires forall h: Hash512 :: 0 !in c.keccak(h)
    ensures Found(c, After(c, slots, [Narrow(2 * i)]), Wide(i)) != Wide(i).Item(c)
  {
    hide ItemMix, Fill, Found, Fresh, After;
    FirstHalfAlone(c, slots, i);
    assert Item512(c, 4 * i)[0] != 0 && Item512(c, 4 * i + 2)[0] != 0;
    assert ZeroHash()[0] == 0;
  }

  lemma SlotsRight(c: Source, slots: seq<Hash512>, i: word, first: bool, second: bool)
    requires c.Valid() && 4 * i + 4 <= |slots| <= M32 && SlotsAre(c, slots, i, first, second)
    ensures Unfilled(slots[4 * i]) <==> !first || Unfilled(Item512(c, 4 * i))
    ensures first ==> (AllRight(c, slots, Wide(i)) <==>
      second || (Item512(c, 4 * i + 2) == ZeroHash() && Item512(c, 4 * i + 3) == ZeroHash()))
  {
    hide Item512;
    assert AllRight(c, slots, Wide(i)) <==>
      && Right(c, slots, 4 * i) && Right(c, slots, 4 * i + 1)
      && Right(c, slots, 4 * i + 2) && Right(c, slots, 4 * i + 3);
  }

  // ----- the epoch context -----

  /** The first `n` slots hold their items and the others are zero. */
  ghost predicate Filled(c: Source, n: nat, slots: seq<Hash512>)
    requires c.Valid()
  {
    && n <= |slots| <= M32
    && (forall s :: 0 <= s < n ==> Right(c, slots, s))
    && (forall s :: n <= s < |slots| ==> slots[s] == ZeroHash())
  }

  lemma FillNext(c: Source, i: nat, before: seq<Hash512>, slots: seq<Hash512>)
    requires c.Valid() && 4 * i + 4 <= |before| && Filled(c, 4 * i, before)
    requires slots == before[4 * i := Item2048(c, i)[0]][4 * i + 1 := Item2048(c, i)[1]]
                            [4 * i + 2 := Item2048(c, i)[2]][4 * i + 3 := Item2048(c, i)[3]]
    ensures Filled(c, 4 * i + 4, slots)
  {
    hide Item512, ItemMix;
    forall s | 0 <= s < 4 * i + 4 ensures Right(c, slots, s) {
      if s < 4 * i {
        assert Right(c, before, s);
      } else {
        ItemSlots(c, Wide(i), s - 4 * i);
      }
    }
  }

  lemma FilledIsFresh(c: Source, slots: seq<Hash512>)
    requires c.Valid() && Filled(c, L1_SLOTS, slots)
    ensures Fresh(c, slots)
  {
  }

  class EpochContext {
    const c: Source
    const full: bool
    const slots: array<Hash512>

    ghost predicate Valid()
      reads slots
    {
      c.Valid() && slots.Length <= M32 && CacheFilled(c, slots[..])
    }

    /** `create_epoch_context`: zeroed memory for `count` items of 1024 bits (or the cache alone),
        whose first 64 items of 2048 bits are filled. */
    constructor (c: Source, full: bool, count: word)
      requires c.Valid() && 128 <= count < 0x8000_0000
      ensures this.c == c && this.full == full && fresh(slots)
      ensures slots.Length == if full then 2 * count else L1_SLOTS
      ensures Valid() && Fresh(c, slots[..])
    {
      this.c, this.full := c, full;
      slots := new Hash512[if full then 2 * count else L1_SLOTS](i => ZeroHash());
      new;
      for i := 0 to 64
        invariant Filled(c, 4 * i, slots[..])
      {
        var item := CalculateDatasetItem2048(c, i);
        ghost var before := slots[..];
        slots[4 * i] := item[0];
        slots[4 * i + 1] := item[1];
        slots[4 * i + 2] := item[2];
        slots[4 * i + 3] := item[3];
        FillNext(c, i, before, slots[..]);
      }
      FilledIsFresh(c, slots[..]);
    }

    /** `lazy_lookup_1024`. */
    method LazyLookup1024(index: word) returns (r: seq<Hash512>)
      requires Valid() && (full || index < 128 ==> Narrow(index).Fits(slots.Length))
      modifies slots
      ensures Valid()
      ensures !full && index >= 128 ==> r == Item1024(c, index) && slots[..] == old(slots[..])
      ensures full || index < 128 ==>
        && slots[..] == Fill(c, old(slots[..]), Narrow(index))
        && r == Found(c, old(slots[..]), Narrow(index))
    {
      hide Item512, ItemMix;
      ghost var old_slots := slots[..];
      if index < 128 {
        r := slots[2 * index..2 * index + 2];
        return;
      }
      if full {
        if Unfilled(slots[2 * index]) {
          r := CalculateDatasetItem1024(c, index);
          slots[2 * index] := r[0];
          slots[2 * index + 1] := r[1];
          assert slots[..] == Fill(c, old_slots, Narrow(index));
          StillCached(c, old_slots, Narrow(index));
        }
        r := slots[2 * index..2 * index + 2];
        return;
      }
      r := CalculateDatasetItem1024(c, index);
    }

    /** `lazy_lookup_2048`. */
    method LazyLookup2048(index: word) returns (r: seq<Hash512>)
      requires Valid() && (full || index < 64 ==> Wide(index).Fits(slots.Length))
      modifies slots
      ensures Valid()
      ensures !full && index >= 64 ==> r == Item2048(c, index) && slots[..] == old(slots[..])
      ensures full || index < 64 ==>
        && slots[..] == Fill(c, old(slots[..]), Wide(index))
        && r == Found(c, old(slots[..]), Wide(index))
    {
      hide Item512, ItemMix;
      ghost var old_slots := slots[..];
      if index < 64 {
        r := slots[4 * index..4 * index + 4];
        return;
      }
      if full {
        if Unfilled(slots[4 * index]) {
          r := CalculateDatasetItem2048(c, index);
          slots[4 * index] := r[0];
          slots[4 * index + 1] := r[1];
          slots[4 * index + 2] := r[2];
          slots[4 * index + 3] := r[3];
          assert slots[..] == Fill(c, old_slots, Wide(index));
          StillCached(c, old_slots, Wide(index));
        }
        r := slots[4 * index..4 * index + 4];
        return;
      }
      r := CalculateDatasetItem2048(c, index);
    }
  }

  lemma StillCached(c: Source, slots: seq<Hash512>, l: Lookup)
    requires c.Valid() && l.Fits(|slots|) && |slots| <= M32 && CacheFilled(c, slots)
    ensures CacheFilled(c, Fill(c, slots, l))
  {
    hide Item512, Fill;
    forall s | 0 <= s < L1_SLOTS ensures Right(c, Fill(c, slots, l), s) {
      FillAt(c, slots, l, s);
      assert Right(c, slots, s);
    }
  }
}
