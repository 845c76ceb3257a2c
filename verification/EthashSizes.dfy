/** Item counts and byte sizes of an epoch (libcrypto/ethash.cpp). */
module EthashSizes {
  import opened Arith
  import opened Words
  import opened Primes

  const LIGHT_INIT: nat := 262144       // 2^24 bytes in items of 64
  const LIGHT_GROWTH: nat := 2048       // 2^17 bytes in items of 64
  const FULL_INIT: nat := 12582912      // 2^30 + 2^29 bytes in items of 128
  const FULL_GROWTH: nat := 65536       // 2^23 bytes in items of 128
  const FULL_ITEM_SIZE: nat := 128

  function LightBound(epoch: nat): nat {
    LIGHT_INIT + epoch * LIGHT_GROWTH
  }

  function FullBound(epoch: nat): nat {
    FULL_INIT + epoch * FULL_GROWTH
  }

  /** The bounds in bytes: 2^24 and 2^17 more each epoch, 2^30 + 2^29 and 2^23 more each epoch. */
  lemma BoundsInBytes(epoch: nat)
    ensures 64 * LightBound(0) == 0x100_0000 && 64 * (LightBound(epoch + 1) - LightBound(epoch)) == 0x2_0000
    ensures 128 * FullBound(0) == 0x6000_0000 && 128 * (FullBound(epoch + 1) - FullBound(epoch)) == 0x80_0000
  {
  }

  /** `calculate_light_cache_num_items`, in 32-bit arithmetic. */
  method LightCacheNumItems(epoch: word) returns (n: word)
    ensures LightBound(epoch) < M32 ==> IsLargestPrime(LightBound(epoch), n)
    ensures LightBound(epoch) < M32 <==> epoch <= 2097023
  {
    n := FindLargestUnsignedPrime((LIGHT_INIT + (epoch * LIGHT_GROWTH) % M32) % M32);
  }

  /** `calculate_full_dataset_num_items`, in 32-bit arithmetic. */
  method FullDatasetNumItems(epoch: word) returns (n: word)
    ensures FullBound(epoch) < M32 ==> IsLargestPrime(FullBound(epoch), n)
    ensures FullBound(epoch) < M32 <==> epoch <= 65343
  {
    n := FindLargestUnsignedPrime((FULL_INIT + (epoch * FULL_GROWTH) % M32) % M32);
  }

  /** A `uint32_t` passed as `int`. */
  function AsInt(n: word): int {
    if n < M31 then n else n - M32
  }

  /** `get_full_dataset_size`: the count goes through `int` and is widened to `size_t`. */
  function FullDatasetSize(n: word): nat {
    ((AsInt(n) % M64) * FULL_ITEM_SIZE) % M64
  }

  /** What `create_epoch_context` allocates for a full dataset. */
  function AllocatedSize(n: word): nat {
    n * FULL_ITEM_SIZE
  }

  /** The recorded size is the allocated size exactly for counts below 2^31. */
  lemma SizesMatch(n: word)
    ensures AllocatedSize(n) == 128 * n
    ensures FullDatasetSize(n) == AllocatedSize(n) <==> n < M31
  {
    if n >= M31 {
      DivModIs(n - M32, -1, n - M32 + M64, M64);
      var x := (n - M32 + M64) * FULL_ITEM_SIZE;
      DivModIs(x, FULL_ITEM_SIZE - 1, x - (FULL_ITEM_SIZE - 1) * M64, M64);
    }
  }

  lemma Prime131()
    ensures IsPrime(131)
  {
    forall d: nat | 2 <= d < 12 ensures 131 % d != 0 {
      assert 131 % 2 != 0 && 131 % 3 != 0 && 131 % 4 != 0 && 131 % 5 != 0 && 131 % 6 != 0;
      assert 131 % 7 != 0 && 131 % 8 != 0 && 131 % 9 != 0 && 131 % 10 != 0 && 131 % 11 != 0;
    }
    SquareRootSuffices(131, 12);
  }

  /** Up to epoch 32575 the count does not wrap, the recorded size is the allocated one, and every
      2048-bit index the hash can form lies inside the dataset. */
  lemma DatasetBounds(epoch: word, n: word, index: nat)
    requires epoch <= 32575 && IsLargestPrime(FullBound(epoch), n)
    ensures FullBound(epoch) < M31 && 131 <= n < M31
    ensures FullDatasetSize(n) == AllocatedSize(n)
    ensures n / 2 >= 64
    ensures index < n / 2 ==> (index + 1) * 256 <= AllocatedSize(n)
  {
    Prime131();
    SizesMatch(n);
  }

  /** Up to epoch 8000 the dataset has at most 2^28 items of 2048 bits: all of them can be addressed
      by a kernel's 32-bit element index. */
  lemma AddressableUpTo8000(epoch: word, n: word)
    requires epoch <= 8000 && IsLargestPrime(FullBound(epoch), n)
    ensures 0 < n / 2 <= 0x1000_0000
  {
    Prime131();
  }
}
