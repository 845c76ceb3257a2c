/** 256-bit hashes on a little-endian host and their big-endian order
    (libcrypto/hash_types.hpp). */
module HashTypes {
  import opened Arith
  import opened Words
  import opened HashMixes

  /** `bswap32`: the four bytes in reverse. */
  function Bswap32(x: word): word {
    (x % 0x100) * 0x100_0000 + (x / 0x100 % 0x100) * 0x1_0000 + (x / 0x1_0000 % 0x100) * 0x100 + x / 0x100_0000
  }

  /** `word64s[i]`: two consecutive 32-bit words, the lower one first. */
  function Word64(h: Digest, i: nat): word64
    requires i < 4
  {
    h[2 * i] + h[2 * i + 1] * M32
  }

  /** `bswap64`. */
  function Bswap64(x: word64): word64 {
    Bswap32(x % M32) * M32 + Bswap32(x / M32)
  }

  /** `be::uint64(h.word64s[i])`. */
  function Be64(h: Digest, i: nat): word64
    requires i < 4
  {
    Bswap64(Word64(h, i))
  }

  /** Half by half. */
  lemma Be64Is(h: Digest, i: nat)
    requires i < 4
    ensures Be64(h, i) == Bswap32(h[2 * i]) * M32 + Bswap32(h[2 * i + 1])
  {
    hide Bswap32;
    DivModIs(Word64(h, i), h[2 * i + 1], h[2 * i], M32);
  }

  /** Byte `k` of a hash as it lies in memory: the lowest byte of a word comes first. */
  function Byte(h: Digest, k: nat): (b: nat)
    requires k < 32
    ensures b < 0x100
  {
    var x := h[k / 4];
    match k % 4
    case 0 => x % 0x100
    case 1 => x / 0x100 % 0x100
    case 2 => x / 0x1_0000 % 0x100
    case _ => x / 0x100_0000
  }

  /** The number the first `n` bytes denote, most significant byte first. */
  function BytesValue(h: Digest, n: nat): nat
    requires n <= 32
  {
    if n == 0 then 0 else 0x100 * BytesValue(h, n - 1) + Byte(h, n - 1)
  }

  /** The number all 32 bytes denote. */
  function BigEndian(h: Digest): nat {
    BytesValue(h, 32)
  }

  lemma OneByte(h: Digest, n: nat)
    requires n < 32
    ensures BytesValue(h, n + 1) == 0x100 * BytesValue(h, n) + Byte(h, n)
  {
    hide Byte;
  }

  lemma BytesOfWord(h: Digest, i: nat)
    requires i < 8
    ensures Bswap32(h[i])
      == 0x100_0000 * Byte(h, 4 * i) + 0x1_0000 * Byte(h, 4 * i + 1) + 0x100 * Byte(h, 4 * i + 2) + Byte(h, 4 * i + 3)
  {
    assert (4 * i) / 4 == (4 * i + 1) / 4 == (4 * i + 2) / 4 == (4 * i + 3) / 4 == i;
    assert (4 * i) % 4 == 0 && (4 * i + 1) % 4 == 1 && (4 * i + 2) % 4 == 2 && (4 * i + 3) % 4 == 3;
  }

  /** Four bytes are a swapped word. */
  lemma FourBytes(h: Digest, i: nat)
    requires i < 8
    ensures BytesValue(h, 4 * i + 4) == BytesValue(h, 4 * i) * M32 + Bswap32(h[i])
  {
    hide BytesValue, Byte, Bswap32;
    OneByte(h, 4 * i);
    OneByte(h, 4 * i + 1);
    OneByte(h, 4 * i + 2);
    OneByte(h, 4 * i + 3);
    BytesOfWord(h, i);
  }

  /** Eight bytes are a swapped 64-bit word. */
  lemma EightBytes(h: Digest, i: nat)
    requires i < 4
    ensures BytesValue(h, 8 * i + 8) == BytesValue(h, 8 * i) * M64 + Be64(h, i)
  {
    hide BytesValue, Bswap32, Be64;
    FourBytes(h, 2 * i);
    FourBytes(h, 2 * i + 1);
    Be64Is(h, i);
    assert 4 * (2 * i) == 8 * i && 4 * (2 * i) + 4 == 4 * (2 * i + 1) && 4 * (2 * i + 1) + 4 == 8 * i + 8;
  }

  lemma BigEndianIs(h: Digest)
    ensures BigEndian(h) == ((Be64(h, 0) * M64 + Be64(h, 1)) * M64 + Be64(h, 2)) * M64 + Be64(h, 3)
  {
    EightBytes(h, 0);
    EightBytes(h, 1);
    EightBytes(h, 2);
    EightBytes(h, 3);
    hide Be64;
    assert BytesValue(h, 0) == 0;
    hide BytesValue;
  }

  /** The order of the numbers is the order of the first bytes that differ. */
  lemma {:induction false} OrderedByFirstByte(a: Digest, b: Digest, k: nat, n: nat)
    requires k < n <= 32 && (forall j :: 0 <= j < k ==> Byte(a, j) == Byte(b, j)) && Byte(a, k) < Byte(b, k)
    ensures BytesValue(a, n) < BytesValue(b, n)
  {
    hide Byte;
    if n == k + 1 {
      SameBytes(a, b, k);
    } else {
      OrderedByFirstByte(a, b, k, n - 1);
    }
  }

  lemma {:induction false} SameBytes(a: Digest, b: Digest, n: nat)
    requires n <= 32 && forall j :: 0 <= j < n ==> Byte(a, j) == Byte(b, j)
    ensures BytesValue(a, n) == BytesValue(b, n)
  {
    hide Byte;
    if n > 0 {
      SameBytes(a, b, n - 1);
    }
  }

  /** The most significant 64 bits of that number. */
  lemma UpperBits(h: Digest)
    ensures BigEndian(h) / (M64 * M64 * M64) == Be64(h, 0)
  {
    hide Be64, BigEndian;
    BigEndianIs(h);
  }

  lemma OrderedByFirstDifference(a: Digest, b: Digest, i: nat)
    requires i < 4 && forall k :: 0 <= k < i ==> Be64(a, k) == Be64(b, k)
    requires Be64(a, i) < Be64(b, i)
    ensures BigEndian(a) < BigEndian(b)
  {
    hide Be64, BigEndian;
    BigEndianIs(a);
    BigEndianIs(b);
  }

  /** `is_less_or_equal`: word by word, it decides the order of the two numbers. */
  method IsLessOrEqual(a: Digest, b: Digest) returns (r: bool)
    ensures r <==> BigEndian(a) <= BigEndian(b)
  {
    hide Be64, BigEndian;
    for i := 0 to 4
      invariant forall k :: 0 <= k < i ==> Be64(a, k) == Be64(b, k)
    {
      if Be64(a, i) > Be64(b, i) {
        OrderedByFirstDifference(b, a, i);
        return false;
      }
      if Be64(a, i) < Be64(b, i) {
        OrderedByFirstDifference(a, b, i);
        return true;
      }
    }
    SameWords(a, b);
    return true;
  }

  lemma SameWords(a: Digest, b: Digest)
    requires forall k :: 0 <= k < 4 ==> Be64(a, k) == Be64(b, k)
    ensures BigEndian(a) == BigEndian(b)
  {
    hide Be64, BigEndian;
    BigEndianIs(a);
    BigEndianIs(b);
  }
}
