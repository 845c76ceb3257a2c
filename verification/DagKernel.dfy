/** The dataset as the CUDA miner generates it (libethash-cuda/CUDAMiner_cuda.cu): quads of threads
    compute four hashes together, fetching parents for each other. Quads write different hashes and
    run one after the other here; Keccak-512 is the parameter of `Datasets`. */
module DagKernels {
  import opened Arith
  import opened Words
  import opened Programs
  import opened Rounds
  import opened Device
  import opened Datasets
  import opened SearchKernels
  import opened Contexts

  type quadIndex = t: int | 0 <= t < 4

  /** Four consecutive words, a `uint4`. */
  type Uint4 = s: seq<word> | |s| == 4 witness seq(4, _ => 0)

  /** `fnv`. */
  function Fnv(x: word, y: word): word {
    Xor32((x * 0x01000193) % 0x1_0000_0000, y)
  }

  /** `fnv4`. */
  function Fnv4(a: Uint4, b: Uint4): Uint4 {
    [Fnv(a[0], b[0]), Fnv(a[1], b[1]), Fnv(a[2], b[2]), Fnv(a[3], b[3])]
  }

  /** `uint4s[w]`. */
  function Quarter(h: Hash512, w: quadIndex): Uint4 {
    h[4 * w..4 * w + 4]
  }

  function WithQuarter(h: Hash512, w: quadIndex, q: Uint4): Hash512 {
    h[..4 * w] + q + h[4 * w + 4..]
  }

  // ----- one quad -----

  /** The first `w` quarters of `now` are those of `mix` combined with `parent`, the others still those
      of `mix`. */
  ghost predicate Combined(now: Hash512, mix: Hash512, parent: Hash512, w: nat) {
    forall k :: 0 <= k < 16 ==> now[k] == if k < 4 * w then Fnv1(mix[k], parent[k]) else mix[k]
  }

  /** Thread `t` combines its node with the parent that all four threads fetch a quarter of. */
  method CombineWith(light: seq<Hash512>, node: array<Hash512>, t: quadIndex, shuffleIndex: word)
    requires node.Length == 4 && shuffleIndex < |light|
    modifies node
    ensures node[..] == old(node[..])[t := Fnv512(old(node[t]), light[shuffleIndex])]
  {
    hide Xor32;
    var p4: seq<Uint4> := seq(4, th requires 0 <= th < 4 => Quarter(light[shuffleIndex], th));
    for w := 0 to 4
      invariant node[..] == old(node[..])[t := node[t]]
      invariant Combined(node[t], old(node[t]), light[shuffleIndex], w)
    {
      var s4 := p4[w];
      node[t] := WithQuarter(node[t], w, Fnv4(Quarter(node[t], w), s4));
    }
    assert node[t] == Fnv512(old(node[t]), light[shuffleIndex]);
  }

  /** Parent number `i`: each thread chooses one, then they are fetched thread after thread. */
  method TakeParents(c: Source, base: word, node: array<Hash512>, i: word)
    requires c.Valid() && node.Length == 4 && base + 3 < M32
    modifies node
    ensures forall t: quadIndex :: node[t] == ItemUpdate(c, base + t, i, old(node[t]))
  {
    hide Xor32, Fnv512;
    var parent: seq<word> :=
      seq(4, t requires 0 <= t < 4 && node.Length == 4 reads node =>
        Fnv(Xor32(base + t, i), node[t][i % 16]) % |c.cache|);
    for t := 0 to 4
      invariant forall th: quadIndex ::
        node[th] == if th < t then ItemUpdate(c, base + th, i, old(node[th])) else old(node[th])
    {
      ParentInLight(c, Fnv(Xor32(base + t, i), node[t][i % 16]));
      CombineWith(c.cache, node, t, parent[t]);
    }
  }

  lemma ParentInLight(c: Source, x: word)
    requires c.Valid()
    ensures 0 <= x % |c.cache| < |c.cache|
  {
  }

  /** What the threads of a quad hold after `n` parents. */
  ghost predicate Holding(c: Source, base: word, nodes: seq<Hash512>, n: nat)
    requires c.Valid() && base + 3 < M32 && n <= ITEM_PARENTS
  {
    |nodes| == 4 && forall t: quadIndex :: nodes[t] == ItemMix(c, base + t, n)
  }

  /** `ethash_calculate_dag_item` for the four threads with node indices from `base`. */
  method CalculateDagQuad(c: Source, base: word, dag: array<Hash512>)
    requires c.Valid() && base + 3 < M32 && dag.Length <= M32
    modifies dag
    ensures forall j :: 0 <= j < dag.Length ==>
      dag[j] == if base <= j < base + 4 then Item512(c, j) else old(dag[j])
  {
    hide ItemUpdate, ItemStart;
    var node := new Hash512[4];
    for t := 0 to 4
      invariant forall th: quadIndex :: th < t ==> node[th] == ItemMix(c, base + th, 0)
      invariant dag[..] == old(dag[..])
    {
      StartOf(c, base + t);
      var light := c.cache[(base + t) % |c.cache|];
      node[t] := c.keccak(light[0 := Xor32(light[0], base + t)]);
    }
    for i := 0 to 512
      invariant Holding(c, base, node[..], i)
      invariant dag[..] == old(dag[..])
    {
      TakeParents(c, base, node, i);
    }
    for t := 0 to 4
      invariant forall th: quadIndex ::
        node[th] == if th < t then Item512(c, base + th) else ItemMix(c, base + th, ITEM_PARENTS)
      invariant dag[..] == old(dag[..])
    {
      node[t] := c.keccak(node[t]);
    }
    hide Item512, ItemMix;
    for t := 0 to 4
      invariant forall th: quadIndex :: node[th] == Item512(c, base + th)
      invariant forall j :: 0 <= j < dag.Length ==>
        dag[j] == if base <= j < base + t then Item512(c, j) else old(dag[j])
    {
      var shuffleIndex := base + t;
      if shuffleIndex * 64 < dag.Length * 64 {
        dag[shuffleIndex] := node[t];
      }
    }
  }

  lemma StartOf(c: Source, seed: word)
    requires c.Valid()
    ensures var light := c.cache[seed % |c.cache|]; ItemMix(c, seed, 0) == c.keccak(light[0 := Xor32(light[0], seed)])
  {
  }

  // ----- whole launches -----

  /** The hashes from `from` up to `to` are generated, the others are as in `was`. */
  ghost predicate GeneratedBetween(c: Source, was: seq<Hash512>, now: seq<Hash512>, from: nat, to: nat)
    requires c.Valid()
  {
    |now| == |was| <= M32
    && forall j :: 0 <= j < |now| ==> now[j] == if from <= j < to then Item512(c, j) else was[j]
  }

  /** The number of nodes rounded up to whole quads. */
  function Rounded(nodes: nat): nat {
    (nodes + 3) / 4 * 4
  }

  /** One launch of the kernel, `blocks * threads` nodes from `start`; quads with nothing to do return. */
  method Launch(c: Source, start: word, blocks: word, threads: word, dag: array<Hash512>)
    requires c.Valid() && start % 4 == 0 && threads % 4 == 0 && dag.Length <= M32
    modifies dag
    ensures GeneratedBetween(c, old(dag[..]), dag[..], start, start + blocks * threads)
  {
    hide GeneratedBetween;
    LaunchSize(blocks, threads);
    Quads(c, start, blocks * threads, dag);
  }

  /** The quads of a launch of `size` nodes. */
  method Quads(c: Source, start: word, size: nat, dag: array<Hash512>)
    requires c.Valid() && start % 4 == 0 && size % 4 == 0 && dag.Length <= M32
    modifies dag
    ensures GeneratedBetween(c, old(dag[..]), dag[..], start, start + size)
  {
    hide Item512, GeneratedBetween, Rounded;
    NothingYet(c, dag[..], start);
    var n := 0;
    while n < size
      invariant 0 <= n <= size && n % 4 == 0
      invariant GeneratedBetween(c, old(dag[..]), dag[..], start, start + n)
    {
      ghost var was := dag[..];
      if start + n < Rounded(dag.Length) {
        WholeQuad(start + n, dag.Length);
        CalculateDagQuad(c, start + n, dag);
      }
      OneQuadMore(c, old(dag[..]), was, dag[..], start, start + n);
      n := n + 4;
    }
  }

  lemma NothingYet(c: Source, dag: seq<Hash512>, from: nat)
    requires c.Valid() && |dag| <= M32
    ensures GeneratedBetween(c, dag, dag, from, from)
  {
    hide Item512;
  }

  /** A quad that starts below the rounded number of nodes has 32-bit indices. */
  lemma WholeQuad(base: nat, nodes: nat)
    requires base % 4 == 0 && base < Rounded(nodes) && nodes <= M32
    ensures base + 3 < M32
  {
  }

  lemma OneQuadMore(c: Source, first: seq<Hash512>, was: seq<Hash512>, now: seq<Hash512>, from: nat, base: nat)
    requires c.Valid() && from <= base && base % 4 == 0 && GeneratedBetween(c, first, was, from, base) && |now| == |was|
    requires
      if base < Rounded(|was|)
      then forall j :: 0 <= j < |now| ==> now[j] == if base <= j < base + 4 then Item512(c, j) else was[j]
      else now == was
    ensures GeneratedBetween(c, first, now, from, base + 4)
  {
    hide Item512;
  }

  lemma LaunchSize(blocks: word, threads: word)
    requires threads % 4 == 0
    ensures blocks * threads >= 0 && (blocks * threads) % 4 == 0
  {
    MulMonotonic(0, blocks, threads);
    MulAssociates(blocks, threads / 4, 4);
    DivModIs(blocks * threads, blocks * (threads / 4), 0, 4);
  }

  /** `ethash_generate_dag`: launch after launch until the last node; for every grid and block size the
      whole dataset is generated, hash `j` being the one the host calculates for index `j`. */
  method GenerateDag(c: Source, blocks: word, threads: word, dag: array<Hash512>)
    requires c.Valid() && threads % 4 == 0 && 0 < blocks * threads < M32 && dag.Length <= M32
    modifies dag
    ensures forall j :: 0 <= j < dag.Length ==> dag[j] == Item512(c, j)
  {
    hide Item512;
    var work, size := dag.Length, blocks * threads;
    var fullRuns := work / size;
    var restWork := work % size;
    DivMod(work, size);
    if restWork > 0 {
      fullRuns := fullRuns + 1;
    }
    MulDistributes(work / size, 1, size);
    MulMonotonic(0, work / size, size);
    for i := 0 to fullRuns
      invariant GeneratedBetween(c, old(dag[..]), dag[..], 0, i * size)
    {
      MulMonotonic(0, i, size);
      MulMonotonic(i + 1, fullRuns, size);
      MulDistributes(i, 1, size);
      LaunchSize(blocks, threads);
      StartAligned(i, size);
      StartBelow(i, size, fullRuns, work);
      Launch(c, i * size, blocks, threads, dag);
    }
  }

  lemma StartAligned(i: nat, size: nat)
    requires size % 4 == 0
    ensures (i * size) % 4 == 0
  {
    MulAssociates(i, size / 4, 4);
    DivModIs(i * size, i * (size / 4), 0, 4);
  }

  lemma StartBelow(i: nat, size: nat, fullRuns: nat, work: nat)
    requires i < fullRuns && 0 < size && (fullRuns - 1) * size < work <= M32
    ensures 0 <= i * size < M32
  {
    MulMonotonic(0, i, size);
    MulMonotonic(i, fullRuns - 1, size);
  }

  // ----- what the search kernels read -----

  /** The generated hashes as 4-word elements. */
  function Elements(dag: seq<Hash512>): word -> Loads {
    (a: word) => if a / 4 < |dag| then Quarter(dag[a / 4], a % 4) else [0, 0, 0, 0]
  }

  /** A generated dataset is what the search kernels rely on: the items of the epoch in chunks. */
  lemma GeneratedIsUploaded(c: Source, numItems: word, dag: seq<Hash512>, gpu: Gpu)
    requires c.Valid() && 64 <= numItems && 4 * numItems <= |dag| <= M32
    requires forall j :: 0 <= j < |dag| ==> dag[j] == Item512(c, j)
    requires gpu.dag == Elements(dag) && gpu.elements == numItems && gpu.cache == CacheOf(gpu.dag)
    requires gpu.platform.Harmless()
    ensures Uploaded(gpu, EpochOf(c, numItems)) && HostCache(EpochOf(c, numItems))
  {
    hide Item512, Item2048, CacheOf, HostCache, Elements, Quarter, Chunk, ItemWords;
    EpochCache(c, numItems);
    var e := EpochOf(c, numItems);
    forall i: word, k: laneIndex | i < numItems && i * 16 + k < M32
      ensures gpu.dag(i * 16 + k) == Chunk(e.item(i), k)
    {
      ChunkOfItem(c, i, k);
      ElementIs(dag, i, k);
    }
  }

  lemma ElementIs(dag: seq<Hash512>, i: word, k: laneIndex)
    requires 4 * i + 4 <= |dag| && i * 16 + k < M32
    ensures Elements(dag)(i * 16 + k) == Quarter(dag[4 * i + k / 4], k % 4)
  {
    assert (i * 16 + k) / 4 == 4 * i + k / 4 && (i * 16 + k) % 4 == k % 4;
  }

  lemma ChunkOfItem(c: Source, i: word, k: laneIndex)
    requires c.Valid() && 4 * i + 3 < M32
    ensures Chunk(ItemWords(Item2048(c, i)), k) == Quarter(Item512(c, 4 * i + k / 4), k % 4)
  {
    hide Item512;
    ItemSlots(c, Wide(i), k / 4);
    forall x | 0 <= x < 4
      ensures Chunk(ItemWords(Item2048(c, i)), k)[x] == Quarter(Item512(c, 4 * i + k / 4), k % 4)[x]
    {
      assert (4 * k + x) / 16 == k / 4 && (4 * k + x) % 16 == 4 * (k % 4) + x;
    }
  }
}
