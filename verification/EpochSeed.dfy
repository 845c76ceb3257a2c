/** Epoch seeds and the per-thread cache that finds an epoch back from its seed
    (libcrypto/ethash.cpp). Keccak-256 on one hash is a parameter. */
module EpochSeeds {
  import opened Words
  import opened HashMixes

  const NUM_TRIES: nat := 30000

  datatype Option<T> = None | Some(value: T)

  type Hasher = Digest -> Digest

  function ZeroDigest(): Digest {
    seq(8, _ => 0)
  }

  /** The seed of epoch `n`: the zero hash hashed `n` times. */
  function Seed(keccak: Hasher, n: nat): Digest {
    if n == 0 then ZeroDigest() else keccak(Seed(keccak, n - 1))
  }

  lemma SeedsAre(keccak: Hasher, n: nat)
    ensures Seed(keccak, 0) == [0, 0, 0, 0, 0, 0, 0, 0] && Seed(keccak, n + 1) == keccak(Seed(keccak, n))
  {
  }

  /** `calculate_seed_from_epoch`. */
  method CalculateSeedFromEpoch(keccak: Hasher, epoch: word) returns (seed: Digest)
    ensures seed == Seed(keccak, epoch)
  {
    seed := ZeroDigest();
    for i := 0 to epoch
      invariant seed == Seed(keccak, i)
    {
      seed := keccak(seed);
    }
  }

  // ----- one call, on values -----

  datatype CacheState = CacheState(number: Option<word>, seed: Digest)

  const EMPTY := CacheState(None, ZeroDigest())

  /** The least epoch from `i` on, below the number of tries, whose seed is `seed`. */
  function FirstMatch(keccak: Hasher, seed: Digest, i: nat): (r: Option<word>)
    requires i <= NUM_TRIES
    decreases NUM_TRIES - i
  {
    if i == NUM_TRIES then None
    else if Seed(keccak, i) == seed then Some(i)
    else FirstMatch(keccak, seed, i + 1)
  }

  /** The cache after a call; the call's answer is the number in it. */
  function Find(keccak: Hasher, c: CacheState, seed: Digest): (r: CacheState) {
    if c.number.Some? && seed == c.seed then c
    else if c.number.Some? && keccak(c.seed) == seed then CacheState(Some((c.number.value + 1) % M32), seed)
    else
      match FirstMatch(keccak, seed, 0)
      case Some(i) => CacheState(Some(i), seed)
      case None => CacheState(None, Seed(keccak, NUM_TRIES))
  }

  // ----- the cache -----

  /** The two `thread_local` variables of one thread. */
  class SeedCache {
    const keccak: Hasher
    var number: Option<word>
    var seed: Digest

    function State(): CacheState
      reads this
    {
      CacheState(number, seed)
    }

    constructor (keccak: Hasher)
      ensures this.keccak == keccak && State() == EMPTY
    {
      this.keccak, number, seed := keccak, None, ZeroDigest();
    }

    /** `calculate_epoch_from_seed`. */
    method CalculateEpochFromSeed(wanted: Digest) returns (r: Option<word>)
      modifies this
      ensures State() == Find(keccak, old(State()), wanted) && r == number
    {
      if number.Some? {
        if wanted == seed {
          return number;
        }
        var next := keccak(seed);
        if next == wanted {
          seed := next;
          number := Some((number.value + 1) % M32);
          return number;
        }
      }
      seed := ZeroDigest();
      ghost var cached := number;
      for i := 0 to NUM_TRIES
        invariant number == cached && seed == Seed(keccak, i)
        invariant FirstMatch(keccak, wanted, 0) == FirstMatch(keccak, wanted, i)
      {
        if seed == wanted {
          number := Some(i);
          return number;
        }
        seed := keccak(seed);
      }
      number := None;
      return None;
    }
  }

  // ----- whole runs -----

  /** The cache of a thread after the calls `run`. */
  function After(keccak: Hasher, run: seq<Digest>): CacheState {
    if run == [] then EMPTY else Find(keccak, After(keccak, run[..|run| - 1]), run[|run| - 1])
  }

  /** The answer to a call made after the calls `run`. */
  function Answer(keccak: Hasher, run: seq<Digest>, seed: Digest): Option<word> {
    Find(keccak, After(keccak, run), seed).number
  }

  lemma {:induction false} FirstMatchIs(keccak: Hasher, seed: Digest, i: nat)
    requires i <= NUM_TRIES
    ensures match FirstMatch(keccak, seed, i)
      case Some(e) => i <= e < NUM_TRIES && Seed(keccak, e) == seed
      case None => forall n :: i <= n < NUM_TRIES ==> Seed(keccak, n) != seed
    decreases NUM_TRIES - i
  {
    if i < NUM_TRIES && Seed(keccak, i) != seed {
      FirstMatchIs(keccak, seed, i + 1);
    }
  }

  /** The cached number counts, modulo 2^32, how often the zero hash was hashed to give the cached
      seed. */
  ghost predicate Counts(keccak: Hasher, c: CacheState, bound: nat) {
    c.number.Some? ==> exists n: nat :: CountsTo(keccak, c, n) && n < bound
  }

  ghost predicate CountsTo(keccak: Hasher, c: CacheState, n: nat)
    requires c.number.Some?
  {
    n % M32 == c.number.value && Seed(keccak, n) == c.seed
  }

  lemma NextCount(n: nat)
    ensures (n + 1) % M32 == (n % M32 + 1) % M32
  {
  }

  lemma NextSeed(keccak: Hasher, n: nat)
    ensures Seed(keccak, n + 1) == keccak(Seed(keccak, n))
  {
  }

  lemma FindCounts(keccak: Hasher, c: CacheState, seed: Digest, bound: nat)
    requires Counts(keccak, c, bound)
    ensures Counts(keccak, Find(keccak, c, seed), if bound < NUM_TRIES then NUM_TRIES else bound + 1)
    ensures Find(keccak, c, seed).number.Some? ==> Find(keccak, c, seed).seed == seed
  {
    hide FirstMatch, Seed;
    var r := Find(keccak, c, seed);
    FirstMatchIs(keccak, seed, 0);
    if c.number.Some? && (seed == c.seed || keccak(c.seed) == seed) {
      var n: nat :| CountsTo(keccak, c, n) && n < bound;
      if seed == c.seed {
        assert CountsTo(keccak, r, n);
      } else {
        NextCount(n);
        NextSeed(keccak, n);
        assert CountsTo(keccak, r, n + 1);
      }
    } else if r.number.Some? {
      assert CountsTo(keccak, r, r.number.value);
    }
  }

  /** A bound for it: the first search ends below the number of tries, each later call adds one. */
  function CountBound(run: seq<Digest>): nat {
    if run == [] then 0 else NUM_TRIES + |run| - 1
  }

  lemma {:induction false} RunCounts(keccak: Hasher, run: seq<Digest>)
    ensures Counts(keccak, After(keccak, run), CountBound(run))
  {
    if run != [] {
      RunCounts(keccak, run[..|run| - 1]);
      FindCounts(keccak, After(keccak, run[..|run| - 1]), run[|run| - 1], CountBound(run[..|run| - 1]));
    }
  }

  /** Epoch `n` has the seed, and `e` is its number in 32 bits. */
  ghost predicate Names(keccak: Hasher, e: word, seed: Digest, n: nat) {
    n % M32 == e && Seed(keccak, n) == seed
  }

  /** After every history, an answer is the number, in 32 bits, of an epoch whose seed was asked for; so
      it is that epoch itself until the counter can wrap. */
  lemma AnswersAreRight(keccak: Hasher, run: seq<Digest>, seed: Digest)
    ensures var r := Answer(keccak, run, seed);
      r.Some? ==> exists n: nat :: n < NUM_TRIES + |run| && Names(keccak, r.value, seed, n)
    ensures var r := Answer(keccak, run, seed);
      r.Some? && NUM_TRIES + |run| <= M32 ==> Seed(keccak, r.value) == seed && r.value < NUM_TRIES + |run|
  {
    hide Seed, Find, FirstMatch;
    RunCounts(keccak, run);
    var c := After(keccak, run);
    FindCounts(keccak, c, seed, CountBound(run));
    var r := Find(keccak, c, seed);
    if r.number.Some? {
      var n: nat :| CountsTo(keccak, r, n) && n < NUM_TRIES + |run|;
      assert Names(keccak, r.number.value, seed, n);
      if NUM_TRIES + |run| <= M32 {
        assert n % M32 == n;
      }
    }
  }

  /** After any history at all, no seed of the first 30000 epochs is reported missing, and a seed is
      reported missing only if it is none of theirs. */
  lemma NoneMissing(keccak: Hasher, run: seq<Digest>, n: nat)
    requires n < 30000
    ensures Answer(keccak, run, Seed(keccak, n)).Some?
  {
    FirstMatchIs(keccak, Seed(keccak, n), 0);
  }

  ghost predicate Injective(keccak: Hasher, bound: nat) {
    forall m, n :: 0 <= m < bound && 0 <= n < bound && Seed(keccak, m) == Seed(keccak, n) ==> m == n
  }

  /** Where epochs have distinct seeds the search undoes `calculate_seed_from_epoch`: after every
      history an answer is the one epoch with that seed, in 32 bits, and there is an answer for each of
      the first 30000. */
  lemma FindsTheEpoch(keccak: Hasher, run: seq<Digest>, n: nat)
    requires Injective(keccak, NUM_TRIES + |run|) && n < NUM_TRIES + |run|
    ensures var r := Answer(keccak, run, Seed(keccak, n)); r == Some(n % M32) || (r == None && n >= NUM_TRIES)
  {
    hide Answer, Seed, Injective;
    var r := Answer(keccak, run, Seed(keccak, n));
    AnswersAreRight(keccak, run, Seed(keccak, n));
    if n < NUM_TRIES {
      NoneMissing(keccak, run, n);
    }
    if r.Some? {
      var m: nat :| m < NUM_TRIES + |run| && Names(keccak, r.value, Seed(keccak, n), m);
      Distinct(keccak, NUM_TRIES + |run|, m, n);
    }
  }

  lemma Distinct(keccak: Hasher, bound: nat, m: nat, n: nat)
    requires Injective(keccak, bound) && m < bound && n < bound && Seed(keccak, m) == Seed(keccak, n)
    ensures m == n
  {
  }

  /** A fresh cache finds exactly the first 30000 epochs. */
  lemma FirstAnswer(keccak: Hasher, n: nat)
    requires Injective(keccak, n + 1) && Injective(keccak, 30000)
    ensures Answer(keccak, [], Seed(keccak, n)) == if n < 30000 then Some(n) else None
  {
    hide Seed, Injective;
    FirstMatchIs(keccak, Seed(keccak, n), 0);
    match FirstMatch(keccak, Seed(keccak, n), 0)
    case Some(m) => Distinct(keccak, if n < 30000 then 30000 else n + 1, m, n);
    case None =>
  }

  /** The seeds of `k` consecutive epochs. */
  function Consecutive(keccak: Hasher, n: nat, k: nat): seq<Digest> {
    seq<Digest>(k, i requires 0 <= i < k => Seed(keccak, n + i))
  }

  /** Asking for consecutive epochs never searches again: each next one is answered out of the
      cache, also beyond the number of tries. */
  lemma {:induction false} SequentialAccess(keccak: Hasher, n: nat, k: nat)
    requires n < NUM_TRIES && n + k < M32 && Injective(keccak, M32)
    ensures After(keccak, Consecutive(keccak, n, k + 1)) == CacheState(Some(n + k), Seed(keccak, n + k))
  {
    hide FirstMatch, Seed, Injective;
    var run := Consecutive(keccak, n, k + 1);
    assert run[k] == Seed(keccak, n + k);
    assert run[..k] == Consecutive(keccak, n, k);
    FirstMatchIs(keccak, Seed(keccak, n), 0);
    if k == 0 {
      var r := Find(keccak, EMPTY, run[k]).number.value;
      Distinct(keccak, M32, r, n);
    } else {
      SequentialAccess(keccak, n, k - 1);
      NextSeed(keccak, n + k - 1);
      if Seed(keccak, n + k) == Seed(keccak, n + k - 1) {
        Distinct(keccak, M32, n + k, n + k - 1);
        assert false;
      }
    }
  }
}
