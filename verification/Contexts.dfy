/** The epoch that `round` interprets is the one an epoch context holds: items come out of
    `lazy_lookup_2048`, the level-one cache is the start of the dataset (libcrypto/ethash.cpp). */
module Contexts {
  import opened Words
  import opened Programs
  import opened Rounds
  import opened Datasets
  import opened SearchKernels

  /** The 64 words of a 2048-bit item. */
  function ItemWords(hashes: seq<Hash512>): Item
    requires |hashes| == 4
  {
    seq(64, j requires 0 <= j < 64 => hashes[j / 16][j % 16])
  }

  /** The words of the level-one cache. */
  function CacheWords(slots: seq<Hash512>): Cache
    requires |slots| >= L1_SLOTS
  {
    seq(4096, j requires 0 <= j < 4096 => slots[j / 16][j % 16])
  }

  /** The epoch of a source with `numItems` items of 2048 bits. */
  function EpochOf(c: Source, numItems: word): Epoch
    requires c.Valid()
  {
    Epoch(i => ItemWords(Item2048(c, i)), numItems,
          CacheWords(seq(L1_SLOTS, s requires 0 <= s < L1_SLOTS => Item512(c, s))))
  }

  /** Its cache is the start of its dataset. */
  lemma EpochCache(c: Source, numItems: word)
    requires c.Valid()
    ensures HostCache(EpochOf(c, numItems))
  {
    hide Item512;
    var e := EpochOf(c, numItems);
    forall j | 0 <= j < 4096 ensures e.l1[j] == e.item(j / 64)[j % 64] {
      CacheIndex(c, j);
    }
  }

  lemma CacheIndex(c: Source, j: nat)
    requires c.Valid() && j < 4096
    ensures ItemWords(Item2048(c, j / 64))[j % 64] == Item512(c, j / 16)[j % 16]
  {
    hide Item512;
    ItemSlots(c, Wide(j / 64), j % 64 / 16);
    assert 4 * (j / 64) + j % 64 / 16 == j / 16 && j % 64 % 16 == j % 16;
  }

  /** In every context, after every run of 2048-bit lookups, the cache and each item looked up are those
      of the epoch. */
  lemma ContextIsEpoch(c: Source, numItems: word, slots: seq<Hash512>, run: seq<Lookup>, i: word)
    requires c.Valid() && Fresh(c, slots) && (forall m :: m in run ==> m.Wide? && m.Fits(|slots|))
    requires Wide(i).Fits(|slots|)
    ensures
      var e, now := EpochOf(c, numItems), After(c, slots, run);
      CacheWords(now) == e.l1 && ItemWords(Found(c, now, Wide(i))) == e.item(i)
  {
    hide Item512, After, Found, WideSound, NarrowSound;
    RunsKeep(c, slots, run);
    WideLookupsRight(c, slots, run, Wide(i));
    var e, now := EpochOf(c, numItems), After(c, slots, run);
    forall j | 0 <= j < 4096 ensures CacheWords(now)[j] == e.l1[j] {
      assert Right(c, now, j / 16);
    }
  }
}
