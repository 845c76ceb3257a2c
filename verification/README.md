# firominer in Dafny

A model of the hard cores of firominer, a GPU miner for FiroPoW (ProgPoW, EIP-1057), with proofs.

- **ProgPoW.** `getKern` compiles a seed into a program that each GPU lane runs by itself; `round`
  interprets the same program in lock-step over sixteen lanes. The model gives the emitted code a
  semantics per lane and lets the lanes of a group run at any pace between barriers and shuffles. On
  CUDA every schedule ends with the host's registers, mix hash and verdict; on OpenCL exactly the
  schedules in which no lane is overtaken keep all lanes right (`Words`, `Kiss`, `MixRngs`,
  `Programs`, `Kernels`, `Device`, `Rounds`, `Groups`, `Interleavings`, `Completion`, `Races`, `WrongRuns`,
  `HashMixes`, `SearchKernels`, `Contexts`, `HashTypes`, `Verify`, `ProgramProps`, `WordLaws`).
- **256-bit numbers and compact targets.** The limb loops of `base_uint`, division included, against
  arithmetic on natural numbers; both decoders of compact targets and the encoder (`Arith`, `Bits`,
  `Limbs`, `LimbArith`, `Uint256`, `Compact`, `FromCompact`).
- **Ethash.** Prime search and sizes, dataset items, the lazily filled dataset over whole runs of
  lookups, the dataset as the GPU generates it, the per-thread cache of epoch seeds (`Primes`,
  `EthashSizes`, `Datasets`, `DagKernels`, `EpochSeeds`).
- **The CUDA miner.** The nonce pipeline over several streams, and the two kernel slots with their
  independent indices; from there, with the results above, everything a search submits verifies on the
  host (`NoncePipeline`, `KernelSlots`, `Submissions`).
- **The worker thread.** Its atomic protocol with the controllers, every interleaving (`Worker`).
- **Keccak.** The sponge, both unrolled permutations of the host and both rolled ones of the CUDA kernels
  against FIPS 202 (`Keccak`, `KeccakF`, `KeccakKernels`).
- **Nonce segments and pools.** `Farm` and `PoolManager`.

`dafny verify dfyconfig.toml` checks everything.

## How the source is read

- A `uint32_t` is a natural number below 2^32 and a `uint64_t` one below 2^64; wherever the code can
  wrap, the model reduces explicitly. Bit operations are defined bit by bit; in the Keccak modules a
  word is the list of its bits.
- The host is little-endian.
- Loops that change arrays or fields are methods on arrays and classes, tied to functions on values;
  the claims about whole runs are lemmas about those functions.
- Parameters stand for what the model cannot see: the dataset, the Keccak permutations where they are
  not the subject, hits found by the device, stop and new-work flags, random numbers, and the result
  of a shift that C++ leaves undefined.
- Concurrency is a state machine of atomic, sequentially consistent steps.

## Where code and documentation differ

The model follows the code.

- `find_largest_unsigned_prime(2)` is 1; its documentation promises the largest prime not above the
  bound (`Primes.DocumentedUnlessTwo`).
- The API documentation gives a default segment width of 40; the code starts with 32.
- `PoolManager::setActiveConnection` by text reports "Not found." also when it found and activated
  the connection (`PoolManager.SetActiveConnectionByText`).
- The comments above `removeConnection` and `setActiveConnection` speak of return codes; the code
  throws.
- The recovery branch for an unexpected period, meant to restore the right kernel, swaps the slots:
  the miner then runs the wrong kernel until the branch is taken once more
  (`KernelSlots.ExecutedIsRight`).
- The command line accepts grid, block and stream numbers whose product exceeds 2^32, for which the
  recovered nonces are wrong (`NoncePipeline.CommandLineAllowsWrap`).
- `startWorking` promises to start the thread; called while the thread is still stopping it does nothing
  (`Worker.StartWhileStoppingIsLost`).
- A kill can be lost after a spurious failure of the weak compare-exchange in the worker thread
  (`Worker.SpuriousFailureLosesKill`).
- The CUDA kernel reports only hashes strictly below the top 64 bits of the boundary; the farm also
  accepts ties (`Verify.DroppedExactly`, `Verify.TieIsDropped`). The OpenCL kernel lets all ties pass, and the farm
  refuses those above the boundary (`Verify.TieIsRefused`).
- The OpenCL code writes its shared cell again in the next call without a barrier after reading it, so
  a lane can be overtaken, read the wrong word and end with the wrong registers
  (`Races.SomeScheduleIsWrong`, `WrongRuns.RaceChangesRegisters`); lanes in lock-step never are
  (`Interleavings.TogetherInTime`).
- 1024-bit lookups into a full dataset can spoil later 2048-bit lookups
  (`Datasets.WideRightExactly`, `Datasets.FirstHalfAloneIsWrong`).

## Model

| member | source | states |
|---|---|---|
| `Words.RotrUndoesRotl` | libcrypto/bitwise.hpp:26-49 | `rotr32` undoes `rotl32` for every word and every amount, also amounts above 31 |
| `Words.RotlUndoesRotr` | libcrypto/bitwise.hpp:26-49 | `rotl32` undoes `rotr32` likewise |
| `Words.DeviceRotlAgrees` | libcrypto/progpow.cpp:147-184 | each device spelling of `ROTL32` (shift macro, funnel shift, OpenCL `rotate`) computes `rotl32` for every word and amount, exactly unless the macro's undefined shift by 32, at amounts 0 modulo 32, shows |
| `Words.DeviceRotrAgrees` | libcrypto/progpow.cpp:147-184 | the same for `ROTR32` and `rotr32` |
| `Kiss.Kiss99.constructor` | libcrypto/kiss99.hpp:37-39 | a generator starts in the given state |
| `Kiss.Kiss99.Next` | libcrypto/kiss99.hpp:43-55 | one call advances the four fields to the next KISS99 state and returns its output |
| `WordLaws.MulLaw` | libcrypto/bitwise.hpp:63-67 | `mul_hi32` and the wrapped product are the two halves of the product |
| `WordLaws.BitwiseLaws` | libcrypto/bitwise.hpp:26-49 | and, or and exclusive or bit by bit |
| `WordLaws.RotlLaw` | libcrypto/bitwise.hpp:26-32 | rotating left moves bit z to z + s, round the end, for every amount |
| `WordLaws.ClzLaw` | libcrypto/bitwise.hpp:51-55 | the highest one bit is bit 31 - `clz32`; 32 for zero |
| `WordLaws.PopcntLaw` | libcrypto/bitwise.hpp:57-61 | `popcnt32` counts the one bits |
| `WordLaws.Fnv1Law` | libcrypto/bitwise.hpp:74-78 | an `fnv1` step is the product with 0x01000193 modulo 2^32 combined with the data |
| `WordLaws.Fnv1aLaw` | libcrypto/bitwise.hpp:85-89 | the data of an `fnv1a` step can be read back from the hashes before and after |
| `WordLaws.FnvVectors` | libcrypto/bitwise.hpp:19-22 | both hashes of the letter "a" are the published ones |
| `WordLaws.MwcLaw` | libcrypto/kiss99.hpp:45-46 | both multiply-with-carry generators divide by 2^16 modulo 2^16 * 36969 - 1 and 2^16 * 18000 - 1 |
| `WordLaws.LcgLaw` | libcrypto/kiss99.hpp:48-48 | the congruential generator by its value at 0 and its difference |
| `WordLaws.XorshiftLaw` | libcrypto/kiss99.hpp:50-52 | the shift register bit by bit: left by 17, right by 13, left by 5 |
| `WordLaws.OutputLaw` | libcrypto/kiss99.hpp:54-54 | from an output and two of the generators the other two, combined, can be read back |
| `WordLaws.SeedReadBack` | libcrypto/progpow.cpp:14-22 | both halves of the seed can be read back, twice, from a freshly seeded generator |
| `WordLaws.ShufflePicks` | libcrypto/progpow.cpp:32-36 | position i - 1 ends with the entry that a draw modulo i picked, destinations with the first draw, sources with the second |
| `MixRngs.Seeded` | libcrypto/progpow.cpp:12-37 | for every 64-bit seed both Fisher-Yates sequences are permutations of 0..31 and both counters start at zero |
| `MixRngs.PermutationOnce` | libcrypto/progpow.cpp:24-36 | such a sequence holds every register number exactly once |
| `MixRngs.MixRng.constructor` | libcrypto/progpow.cpp:12-37 | the in-place constructor reaches the state `Seeded` for the seed |
| `MixRngs.MixRng.Shuffle` | libcrypto/progpow.cpp:32-36 | the swapping loop over both arrays is the shuffle, drawing destination and source alternately |
| `MixRngs.MixRng.NextDst` | libcrypto/progpow.hpp:45-45 | returns the next destination and advances only that counter |
| `MixRngs.MixRng.NextSrc` | libcrypto/progpow.hpp:46-46 | returns the next source and advances only that counter |
| `MixRngs.MixRng.NextWord` | libcrypto/progpow.hpp:48-48 | draws one word from the generator and changes nothing else |
| `Programs.MergeBijective` | libcrypto/progpow.cpp:39-58 | for fixed data and selector `random_merge` is a bijection on its first argument: the stated inverse undoes it on both sides (0x3E0F83E1 inverts 33) |
| `Programs.MathSources` | libcrypto/progpow.cpp:365-371 | the first source, plus 32 times the place of the second among the other registers, is the word drawn modulo 992 |
| `Programs.EachPairOnce` | libcrypto/progpow.cpp:365-371 | every ordered pair of different registers comes from exactly one residue modulo 992 |
| `Programs.MergeAmount` | libcrypto/progpow.cpp:42-42 | from 1 to 31, and congruent to the high half of the selector plus one modulo 31 |
| `Kernels.GetKern` | libcrypto/progpow.cpp:142-332 | for every seed and both kernel types the emitted statement list is the one the abstract program of that seed compiles to, with the draws in the order of the code |
| `Device.MergeStatement` | libcrypto/progpow.cpp:63-79 | on every platform the statement emitted for a merge does what `random_merge` does |
| `Device.MathStatement` | libcrypto/progpow.cpp:112-140 | the statement emitted for a math operation does what `random_math` does, on every platform on which that shift does not show |
| `Device.KernelRuns` | libcrypto/progpow.cpp:142-332 | compiler correctness for one lane: running the emitted list from any lane state gives what interpreting the abstract program on that lane alone gives |
| `Rounds.CacheLanes` | libcrypto/progpow.cpp:350-361 | a cache access advances all sixteen lanes by one cache operation |
| `Rounds.MathLanes` | libcrypto/progpow.cpp:362-382 | a math operation advances all sixteen lanes by one math operation |
| `Rounds.RoundPass` | libcrypto/progpow.cpp:348-383 | one pass of the loop draws in the order of the code and advances every lane by the operations drawn |
| `Rounds.DrawDagPattern` | libcrypto/progpow.cpp:385-392 | destinations and selectors of the dataset merges are those the program draws, register 0 first |
| `Rounds.DagLanes` | libcrypto/progpow.cpp:394-403 | the nested loops over lanes and words perform the dataset merges of every lane |
| `Rounds.Round` | libcrypto/progpow.cpp:336-404 | lock-step `round` on the 16 x 32 array equals running the abstract program on each lane separately with the shared dataset item |
| `Groups.AddressWraps` | libcrypto/progpow.cpp:253-255 | the 32-bit element index of the generated code names the item modulo 2^28, for every item, lane and loop |
| `Groups.AddressExact` | libcrypto/progpow.cpp:253-255 | so it is the true one exactly for items below 2^28 |
| `Groups.LoadsAgree` | libcrypto/progpow.cpp:253-255 | for every dataset a device lane loads the four words the host reads for that lane, of the dataset whose items wrap at 2^28 |
| `Groups.CallIsRound` | libcrypto/progpow.cpp:142-404 | one call of the generated function by sixteen lanes leaves the registers one host `round` leaves, on that dataset |
| `Groups.CallsAreRounds` | libcrypto/progpow.cpp:450-458 | any number of calls leaves what that many rounds leave |
| `Groups.WrapsUnseen` | libcrypto/progpow.cpp:336-343 | while every item loaded is below 2^28, in particular for datasets of up to 2^28 items, the wrapping makes no difference |
| `Interleavings.AdvanceKeeps` | libcrypto/progpow.cpp:243-260 | every step of a lane, barrier or shuffle, from a state in which all lanes hold what their positions call for, leaves them so, except exactly the reads of the shared cell after the next call has published a word for another item |
| `Interleavings.ExpectedExactly` | libcrypto/progpow.cpp:243-260 | in every run, finished or not, of both kernel types, with lanes returning from calls freely: all lanes hold what they should throughout exactly when no such late read occurs |
| `Interleavings.FinishedExactly` | libcrypto/progpow.cpp:246-252 | in every finished run this is so exactly when no lane is ever overtaken, that is, has yet to read in call c when call c + 1 publishes a word for another item |
| `Interleavings.CudaInTime` | libcrypto/progpow.cpp:244-245 | on CUDA no lane is ever overtaken |
| `Interleavings.TogetherInTime` | libcrypto/progpow.cpp:246-252 | no lane is overtaken while none enters a call before all have read in the call before, as in lock-step |
| `Interleavings.EveryScheduleIsTheHost` | libcrypto/progpow.cpp:142-404 | for both kernel types, every seed, dataset, cache and number of loops: every finished schedule in which no lane is overtaken by a word for another item (another one modulo the number of items), on CUDA every finished schedule, leaves the registers of the host's rounds (on the dataset as the device addresses it) |
| `Interleavings.NeverStuck` | libcrypto/progpow.cpp:243-260 | no schedule deadlocks: while a lane has not finished, some step is possible |
| `Completion.RunsAreBounded` | libcrypto/progpow.cpp:243-260 | no schedule takes more steps than sixteen times the statements and returns of all calls |
| `Completion.RunsComplete` | libcrypto/progpow.cpp:243-260 | every partial schedule can be continued until all lanes have finished; with the bound, every schedule that goes on as long as it can ends with the host's registers |
| `Races.LockStepInTime` | libethash-cl/CLMiner_kernel.cl:226-228 | every OpenCL launch has a schedule, the lock-step one, that finishes with no lane overtaken |
| `Races.OvertakingHappens` | libethash-cl/CLMiner_kernel.cl:226-228 | for every OpenCL launch, every call but the last and every lane but the one sharing in the next call there is a finished schedule in which that lane is overtaken in that call |
| `Races.SomeScheduleIsWrong` | libcrypto/progpow.cpp:246-252 | so wherever the words of two consecutive calls name different items, some finished schedule has a lane that does not hold what it should |
| `WrongRuns.OvertakenEnds` | libcrypto/progpow.cpp:246-252 | in every finished OpenCL run of two calls a lane overtaken in the first ends as if the second word had reached it in both |
| `WrongRuns.RaceChangesRegisters` | libcrypto/progpow.cpp:246-252 | for every random program, number of items from 2 to 2^28, cache, lane but lane 1 and registers of the lanes (but the word lane 0 shares) there are a dataset and a finished OpenCL schedule of two calls that leaves this lane with registers other than the host's |
| `HashMixes.InitMix` | libcrypto/progpow.cpp:407-424 | the registers are the first 32 outputs of each lane's own generator |
| `HashMixes.LaneHashes` | libcrypto/progpow.cpp:460-469 | each lane is folded with FNV-1a over its 32 registers in order |
| `HashMixes.ReduceHost` | libcrypto/progpow.cpp:471-482 | digest word `w` folds lanes `w` and `w + 8`, in that order |
| `HashMixes.HashMix` | libcrypto/progpow.cpp:450-492 | the digest of 64 rounds from the initial registers |
| `WordLaws.LaneSeedReadBack` | libcrypto/progpow.cpp:407-424 | seed and lane can be read back from the generator that fills a lane |
| `WordLaws.LaneHashReadBack` | libcrypto/progpow.cpp:459-469 | a lane's hash takes the registers in order from the offset basis |
| `WordLaws.DigestReadBack` | libcrypto/progpow.cpp:471-482 | word w of the digest takes lane w and then lane w + 8 from the offset basis |
| `SearchKernels.FillCache` | libethash-cuda/CUDAMiner_kernel.cu:170-176 | the threads of a block of any size together copy the first 4096 words of the dataset |
| `SearchKernels.UploadedServes` | libethash-cuda/CUDAMiner_kernel.cu:170-179 | that cache is the level-one cache of the host |
| `SearchKernels.FillMix` | libethash-cuda/CUDAMiner_kernel.cu:139-152 | the kernel's own generator fills a lane with the registers `init_mix` gives it |
| `SearchKernels.FilledIsInit` | libethash-cuda/CUDAMiner_kernel.cu:127-152 | they are the registers `init_mix` gives that lane |
| `SearchKernels.DeviceLaneHash` | libethash-cuda/CUDAMiner_kernel.cu:227-231 | a lane's own FNV-1a hash of its registers |
| `SearchKernels.ReduceDevice` | libethash-cuda/CUDAMiner_kernel.cu:233-242 | two sweeps of eight shuffles gather the lane hashes as the host does |
| `SearchKernels.DeviceDigestIsMixHash` | libethash-cuda/CUDAMiner_kernel.cu:211-246 | from `fill_mix` over every finished schedule with no lane overtaken to the gathered digest: it is the host's mix hash, for every dataset as the device addresses it and for the real one if no item loaded is out of reach |
| `Contexts.EpochCache` | libcrypto/ethash.cpp:245-280 | the level-one cache is the start of the dataset |
| `Contexts.ContextIsEpoch` | libcrypto/progpow.cpp:336-343 | after every run of 2048-bit lookups, cache and items of an epoch context are those `round` works with |
| `HashTypes.BigEndianIs` | libcrypto/hash_types.hpp:68-72 | the number that the 32 bytes denote, first byte most significant, is made of the four swapped 64-bit words |
| `HashTypes.OrderedByFirstByte` | libcrypto/hash_types.hpp:110-121 | the order of these numbers is the order of the first bytes that differ |
| `HashTypes.IsLessOrEqual` | libcrypto/hash_types.hpp:110-121 | decides the order of the two numbers that the bytes denote, first byte most significant |
| `HashTypes.UpperBits` | libcrypto/hash_types.hpp:110-120 | the first 64-bit word is the number divided by 2^192 |
| `Verify.SeedBlockIs` | libcrypto/progpow.cpp:427-440 | the block absorbed for the seed, word by word: header, nonce, the padding words 10 and 18 |
| `Verify.FinalBlockIs` | libcrypto/progpow.cpp:494-501 | the block absorbed for the final hash: seed, mix, the padding words 17 and 24 |
| `Verify.VerifyFull` | libcrypto/progpow.cpp:517-531 | the verdict is the boundary test on the final hash first and the mix comparison second |
| `Verify.VerdictsAre` | libcrypto/progpow.cpp:517-531 | a hash above the boundary is an invalid nonce whatever mix is claimed, and otherwise exactly one mix is accepted |
| `Verify.SearchedIsHost` | libethash-cuda/CUDAMiner_kernel.cu:185-270 | the device computes the host's mix and final hash of a nonce |
| `Verify.ReportedSolutionsVerify` | libethash-cuda/CUDAMiner_kernel.cu:272-284 | for every nonce, dataset, schedule and slot drawn: CUDA reports exactly the hashes whose top 64 bits are strictly below the boundary's and whose slot is one of the four, and all it reports verifies as Ok; OpenCL reports exactly those not above in the top 64 bits whose slot is one of the fifteen, so everything the farm accepts that draws such a slot, and what it reports verifies as Ok exactly if it is strictly below or the whole hash is not above the boundary |
| `Verify.TestsCompared` | libethash-cl/CLMiner_kernel.cl:278-280 | for every hash and boundary: passing on CUDA implies not above the boundary, which implies passing on OpenCL |
| `Verify.DroppedExactly` | libethash-cuda/CUDAMiner_kernel.cu:272-278 | of the nonces the farm accepts CUDA drops exactly those that tie with the boundary in the top 64 bits or draw a slot past the fourth, OpenCL exactly those that draw a slot past the fifteenth |
| `Verify.TieIsDropped` | libethash-cuda/CUDAMiner_kernel.cu:272-274 | for every nonce, against its own hash as the boundary: the farm accepts it, the CUDA test does not |
| `Verify.TieIsRefused` | libethash-cl/CLMiner_kernel.cl:278-280 | for every permutation, dataset, work and nonce whose hash is not zero below its top 64 bits, against those bits as the boundary: the OpenCL test passes, the farm refuses |
| `Submissions.ThreadIsRight` | libethash-cuda/CUDAMiner_kernel.cu:185-284 | a thread running the kernel of the work's period: its digest is the host's mix, it passes exactly when the host's hash is below the boundary in the top 64 bits, and then the host accepts it |
| `Submissions.EverySubmissionVerifies` | libethash-cuda/CUDAMiner.cpp:501-636 | end to end: for every permutation, dataset, work, history of jobs, schedule of the lanes, order of the hits and number of launches, everything the miner submits verifies as Ok, if the recoveries so far are even and batch size times streams is below 2^32 |
| `Submissions.SubmittedExactly` | libethash-cuda/CUDAMiner.cpp:501-636 | and of up to 2^64 nonces a nonce is submitted exactly when the host's hash is below the boundary in the top 64 bits and its thread drew one of the four slots |
| `ProgramProps.ProgramCounts` | libcrypto/progpow.hpp:23-25 | every program has 11 cache accesses, 18 math operations and 4 dataset merges |
| `ProgramProps.EachRegisterDrawnOnce` | libcrypto/progpow.cpp:348-392 | for every seed one round draws each of the 32 destinations exactly once (11 + 18 + 3) |
| `ProgramProps.ChunkIsXor` | libcrypto/progpow.cpp:397-397 | the chunk of a lane is the lane number xor the loop number, modulo 16 |
| `ProgramProps.ChunkInvolution` | libcrypto/progpow.cpp:397-397 | applying the choice of chunk twice gives the lane back |
| `ProgramProps.EachWordConsumedOnce` | libcrypto/progpow.cpp:395-403 | each of the 64 dataset words is consumed by exactly one lane, once |
| `ProgramProps.RunBijective` | libcrypto/progpow.cpp:39-58 | a sequence of reversible operations is undone by its reverse, on both sides |
| `ProgramProps.DagTailBijective` | libcrypto/progpow.cpp:385-403 | for a fixed dataset item the merges at the end of `round` are a bijection on the registers of every lane |
| `ProgramProps.LastMerge` | libcrypto/progpow.cpp:385-403 | in every program the last operation merges dataset word 3, no other does, and its register is written by dataset merges only |
| `ProgramProps.LastWordSeen` | libcrypto/progpow.cpp:395-403 | another last dataset word always leaves another value in that register |
| `ProgramProps.LastWordRemembered` | libcrypto/progpow.cpp:395-403 | and a further round, whatever it loads, does not make up for it |
| `Limbs.ShlLimbsValue` | libpoolprotocols/stratum/arith_uint256.cpp:25-39 | limb-wise shifting with carried bits multiplies the number by the power of two |
| `Limbs.ShrLimbsValue` | libpoolprotocols/stratum/arith_uint256.cpp:42-56 | limb-wise shifting right divides it, rounding down |
| `Limbs.ValOrder` | libpoolprotocols/stratum/arith_uint256.cpp:113-122 | limbs compare from the most significant down exactly as the numbers do |
| `Limbs.BitLengthIs` | libpoolprotocols/stratum/arith_uint256.cpp:175-187 | the position of the top bit of the top non-zero limb is the bit length of the number |
| `Uint256.ShiftedLeftValue` | libpoolprotocols/stratum/arith_uint256.cpp:25-39 | a left shift by whole limbs and bits is multiplication modulo 2^256 |
| `Uint256.ShiftedRightValue` | libpoolprotocols/stratum/arith_uint256.cpp:42-56 | a right shift is division by the power of two |
| `Uint256.BaseUint.ShiftLeft` | libpoolprotocols/stratum/arith_uint256.cpp:25-39 | `<<=` is multiplication by 2^shift modulo 2^256, for every shift of 32 bits |
| `Uint256.BaseUint.ShiftRight` | libpoolprotocols/stratum/arith_uint256.cpp:42-56 | `>>=` is floor division by 2^shift, for every shift |
| `Uint256.BaseUint.MulWord` | libpoolprotocols/stratum/arith_uint256.cpp:59-68 | `*=` by a 32-bit word is the product modulo 2^256 |
| `LimbArith.ProductFits` | libpoolprotocols/stratum/arith_uint256.cpp:76-80 | carry, limb and product never exceed 64 bits |
| `Uint256.BaseUint.MulRow` | libpoolprotocols/stratum/arith_uint256.cpp:74-81 | one row of the schoolbook product adds its multiple, its carry sum within 64 bits |
| `Uint256.BaseUint.Mul` | libpoolprotocols/stratum/arith_uint256.cpp:71-84 | `*=` is the product modulo 2^256; called on itself it gives 0 |
| `Uint256.BaseUint.Add` | libpoolprotocols/stratum/arith_uint256.h:141-151 | `+=` is the sum modulo 2^256 |
| `Uint256.BaseUint.Increment` | libpoolprotocols/stratum/arith_uint256.h:179-186 | `++` adds one modulo 2^256 |
| `Uint256.BaseUint.Negated` | libpoolprotocols/stratum/arith_uint256.h:83-90 | unary minus is the negative modulo 2^256 |
| `Uint256.BaseUint.Sub` | libpoolprotocols/stratum/arith_uint256.h:153-157 | `-=` is the difference modulo 2^256 |
| `Uint256.BaseUint.CompareTo` | libpoolprotocols/stratum/arith_uint256.cpp:113-122 | the sign of the result is the order of the two numbers |
| `Uint256.BaseUint.NumBits` | libpoolprotocols/stratum/arith_uint256.cpp:175-187 | `bits` is the bit length, 0 for zero |
| `Uint256.BitLengthBounds` | libpoolprotocols/stratum/arith_uint256.cpp:175-187 | the bit length brackets the number between two powers of two |
| `Uint256.BaseUint.Div` | libpoolprotocols/stratum/arith_uint256.cpp:87-110 | for every pair: division by zero is refused, otherwise the quotient is floor(a / b) |
| `Uint256.BaseUint.DivideAligned` | libpoolprotocols/stratum/arith_uint256.cpp:98-109 | the shift-subtract loop ends, keeping num + quotient * b = a and num below twice the aligned divisor |
| `Compact.OverflowExact` | libpoolprotocols/stratum/arith_uint256.cpp:220-224 | the three-way overflow test is true exactly when the denoted value needs more than 256 bits |
| `Compact.ArithUint256.SetCompact` | libpoolprotocols/stratum/arith_uint256.cpp:207-225 | the value is the denoted one modulo 2^256; overflow and sign flags are exact |
| `Compact.ArithUint256.GetLow64` | libpoolprotocols/stratum/arith_uint256.h:251-255 | the value modulo 2^64 |
| `Compact.ArithUint256.GetCompact` | libpoolprotocols/stratum/arith_uint256.cpp:227-248 | the encoding of the value; the two assertions of the code always hold |
| `Compact.DecodeOfEncode` | libpoolprotocols/stratum/arith_uint256.cpp:207-248 | decoding an encoding gives the value with everything below the mantissa cleared |
| `Compact.CompactRoundTrip` | libpoolprotocols/stratum/arith_uint256.cpp:207-248 | for every value below 2^256: the decoded encoding is that value cleared below the mantissa, never exceeds it, keeps the bit length, and encodes to the same word; the sign bit is set exactly for a negative non-zero mantissa |
| `Compact.EncodeIsCanonical` | libpoolprotocols/stratum/arith_uint256.cpp:227-248 | every encoding is canonical |
| `Compact.EncodeOfDecode` | libpoolprotocols/stratum/arith_uint256.cpp:207-248 | re-encoding a decoded word that fits gives it back exactly when the word is canonical |
| `FromCompact.ByteSwapIsTransparent` | libcrypto/hash_types.hpp:137-171 | storing and combining words through the byte swap loses nothing, on all bit patterns |
| `FromCompact.ShiftLeft` | libcrypto/hash_types.hpp:137-171 | what the in-place loop leaves in each of the four words, the 64-bit shift that C++ leaves undefined being a parameter |
| `FromCompact.ShiftLeftExact` | libcrypto/hash_types.hpp:137-171 | for every amount but 64 and 128 this is multiplication modulo 2^256 |
| `FromCompact.FromCompact` | libcrypto/hash_types.hpp:173-204 | words and flags of the second decoder |
| `FromCompact.FromCompactAgrees` | libcrypto/hash_types.hpp:173-204 | it denotes the number `SetCompact` denotes for every word, exactly unless the undefined shift shows (sizes 11 and 19 only) |
| `Primes.SquareRootSuffices` | libcrypto/ethash.cpp:291-311 | trial division up to the square root suffices |
| `Primes.IsUnsignedOddPrime` | libcrypto/ethash.cpp:291-311 | true exactly for odd primes and 1; the products it forms stay within 64 bits |
| `Primes.FindLargestUnsignedPrime` | libcrypto/ethash.cpp:313-329 | ends for every bound; from 3 on the answer is the largest prime not above it, below 2 it is 0, for 2 it is 1 |
| `Primes.DocumentedUnlessTwo` | libcrypto/ethash.hpp:95-102 | the documented result is met exactly for bounds other than 2 |
| `EthashSizes.LightCacheNumItems` | libcrypto/ethash.cpp:341-352 | the largest prime not above the linear bound of the epoch |
| `EthashSizes.FullDatasetNumItems` | libcrypto/ethash.cpp:354-365 | the largest prime not above the linear bound of the epoch |
| `EthashSizes.BoundsInBytes` | libcrypto/ethash.hpp:34-43 | the linear bounds in bytes: 2^24 growing by 2^17, and 2^30 + 2^29 growing by 2^23 |
| `EthashSizes.SizesMatch` | libcrypto/ethash.cpp:336-339 | 128 bytes are allocated per item, and the size computed from a signed count equals the allocated one exactly for counts below 2^31 |
| `EthashSizes.DatasetBounds` | libcrypto/ethash.cpp:245-281 | for epochs up to 32575 counts do not wrap, sizes match the allocation, the cache fits and every 2048-bit index below count / 2 lies inside the dataset |
| `EthashSizes.AddressableUpTo8000` | libcrypto/ethash.cpp:354-365 | up to epoch 8000 the dataset stays below the 2^28 items the generated code can address |
| `Datasets.ItemState.constructor` | libcrypto/ethash.cpp:71-77 | the starting mix of an item |
| `Datasets.CalculateDatasetItem1024` | libcrypto/ethash.cpp:140-152 | two interleaved item states give the items of both halves, parent by parent |
| `Datasets.CalculateDatasetItem2048` | libcrypto/ethash.cpp:154-170 | four interleaved item states give four items |
| `Datasets.WideIsTwoNarrow` | libcrypto/ethash.cpp:140-170 | item 2048(i) is items 1024(2i) and 1024(2i + 1) joined |
| `Datasets.EpochContext.constructor` | libcrypto/ethash.cpp:245-280 | zeroed slots whose first 64 items of 2048 bits are calculated |
| `Datasets.EpochContext.LazyLookup1024` | libcrypto/ethash.cpp:90-113 | cache, then memoised dataset, then fresh calculation: result and new slots |
| `Datasets.EpochContext.LazyLookup2048` | libcrypto/ethash.cpp:115-138 | the same for 2048 bits |
| `Datasets.UnfilledIs` | libcrypto/ethash.cpp:96-110 | a hash looks unfilled exactly when its first 64-bit word is zero |
| `Datasets.FoundExactly` | libcrypto/ethash.cpp:115-138 | a lookup returns the freshly calculated item exactly when the item is in the cache, looks unfilled, or all its slots are right |
| `Datasets.FillKeepsNarrow` | libcrypto/ethash.cpp:90-138 | lookups of either width keep "first word non-zero implies the 1024-bit item is right" |
| `Datasets.FillKeepsWide` | libcrypto/ethash.cpp:115-138 | lookups of 2048 bits keep "first word non-zero implies all four quarters are right" |
| `Datasets.NarrowLookupsRight` | libcrypto/ethash.cpp:90-138 | after any run mixing both widths every 1024-bit lookup returns the freshly calculated item |
| `Datasets.WideLookupsRight` | libcrypto/ethash.cpp:115-138 | after any run of 2048-bit lookups every 2048-bit lookup returns the freshly calculated item |
| `Datasets.WideRightExactly` | libcrypto/ethash.cpp:90-138 | after every run mixing both widths, the 2048-bit lookup of an item is right exactly when its first half was not looked up by itself first, or looks unfilled anyway, or its second half was looked up too or is all zero |
| `Datasets.FirstHalfAlone` | libcrypto/ethash.cpp:90-138 | after the lookup of an item's first half alone, the lookup of the item is right exactly when the first half looks unfilled or the second is all zero |
| `Datasets.FirstHalfAloneIsWrong` | libcrypto/ethash.cpp:90-138 | for every light cache and item of a dataset whose hashes have no zero word it is wrong |
| `DagKernels.CombineWith` | libethash-cuda/CUDAMiner_cuda.cu:119-136 | four threads fetch a quarter of the parent each, and one of them combines all of it into its node |
| `DagKernels.TakeParents` | libethash-cuda/CUDAMiner_cuda.cu:117-138 | one parent for each of the four nodes of a quad: one update of the host for each |
| `DagKernels.CalculateDagQuad` | libethash-cuda/CUDAMiner_cuda.cu:101-152 | a quad stores, for its four indices inside the dataset, the hashes the host calculates for them, and nothing else |
| `DagKernels.Launch` | libethash-cuda/CUDAMiner_cuda.cu:103-106 | one launch of any grid and block size generates exactly its range of hashes |
| `DagKernels.GenerateDag` | libethash-cuda/CUDAMiner_cuda.cu:154-176 | for every grid and block size the launches generate the whole dataset, hash j being `Item512` of j |
| `DagKernels.GeneratedIsUploaded` | libethash-cuda/CUDAMiner_cuda.cu:154-176 | so the search kernels find the items of the epoch, in chunks of four words, and the level-one cache in front |
| `EpochSeeds.CalculateSeedFromEpoch` | libcrypto/ethash.cpp:367-375 | the zero hash hashed as often as the epoch number says |
| `EpochSeeds.SeedsAre` | libcrypto/ethash.cpp:364-375 | the seed of epoch 0 is all zero, and each seed is the hash of the one before |
| `EpochSeeds.SeedCache.constructor` | libcrypto/ethash.cpp:380-381 | an empty cache |
| `EpochSeeds.SeedCache.CalculateEpochFromSeed` | libcrypto/ethash.cpp:377-416 | answer and new cache: hit, next seed, search from 0 or reset |
| `EpochSeeds.RunCounts` | libcrypto/ethash.cpp:377-416 | after every history, however long, the cached number is, modulo 2^32, how often the zero hash was hashed to give the cached seed |
| `EpochSeeds.AnswersAreRight` | libcrypto/ethash.cpp:377-416 | after every call history an answer is the number, modulo 2^32, of an epoch whose seed was asked for, at most 30000 plus the calls made; until the counter can wrap it is that epoch itself |
| `EpochSeeds.NoneMissing` | libcrypto/ethash.cpp:402-416 | after every history no seed of the first 30000 epochs is reported missing |
| `EpochSeeds.FirstAnswer` | libcrypto/ethash.cpp:379-416 | where seeds differ a fresh cache finds exactly the first 30000 epochs |
| `EpochSeeds.FindsTheEpoch` | libcrypto/ethash.cpp:367-416 | where epochs have distinct seeds, after every history the answer is the very epoch (modulo 2^32), so the search undoes `calculate_seed_from_epoch` |
| `EpochSeeds.SequentialAccess` | libcrypto/ethash.cpp:390-397 | consecutive epochs are answered from the cache, also beyond 30000 |
| `NoncePipeline.CudaMiner.constructor` | libethash-cuda/CUDAMiner.cpp:41-48 | an idle miner with its settings |
| `NoncePipeline.CudaMiner.Prime` | libethash-cuda/CUDAMiner.cpp:524-542 | every stream is launched once, on consecutive batches |
| `NoncePipeline.CudaMiner.Collect` | libethash-cuda/CUDAMiner.cpp:568-593 | the first four hits of the batch the stream was running; the count is cleared |
| `NoncePipeline.CudaMiner.Submit` | libethash-cuda/CUDAMiner.cpp:609-624 | one solution per hit, in order |
| `NoncePipeline.CudaMiner.Harvest` | libethash-cuda/CUDAMiner.cpp:561-625 | one stream of a pass keeps the pipeline invariant and restarts the stream unless done |
| `NoncePipeline.CudaMiner.RunPass` | libethash-cuda/CUDAMiner.cpp:553-625 | one pass harvests every stream once and restarts those before the first stop request |
| `NoncePipeline.CudaMiner.Search` | libethash-cuda/CUDAMiner.cpp:501-636 | over whole searches: launches are consecutive batches, launches are harvested in order and once each, and after the last pass exactly the streams restarted in it are pending; a target of all ones launches nothing |
| `NoncePipeline.NothingPending` | libethash-cuda/CUDAMiner.cpp:551-608 | nothing is pending exactly when the last pass saw new work or a pause, or the stop came at its first stream |
| `NoncePipeline.LeadingIs` | libethash-cuda/CUDAMiner.cpp:571-575 | the streams restarted are those before the first stop request |
| `NoncePipeline.BaseExact` | libethash-cuda/CUDAMiner.cpp:609-611 | `start_nonce - m_streams_batch_size` is the first nonce of the batch harvested exactly when batch size times streams is below 2^32 |
| `NoncePipeline.NonceExact` | libethash-cuda/CUDAMiner.cpp:609-615 | so a submitted nonce is the hashed one under that condition and never otherwise |
| `NoncePipeline.SubmittedIsReported` | libethash-cuda/CUDAMiner.cpp:579-615 | all submissions of a search are the first four hits of each batch under the nonces that were hashed |
| `NoncePipeline.HashedOnce` | libethash-cuda/CUDAMiner.cpp:526-542 | until 2^64 nonces are hashed no nonce is hashed by two launches or threads |
| `NoncePipeline.HashedAll` | libethash-cuda/CUDAMiner.cpp:526-542 | consecutive launches leave no gap |
| `NoncePipeline.CommandLineAllowsWrap` | firominer/main.cpp:330-344 | settings within the accepted ranges under which every recovered base is wrong |
| `KernelSlots.CudaKernels.constructor` | libethash-cuda/CUDAMiner.h:55-56 | two empty slots, compile index 0, execute index 1 |
| `KernelSlots.CudaKernels.SwitchPeriod` | libethash-cuda/CUDAMiner.cpp:234-293 | first period, recovery and regular switch: the new state |
| `KernelSlots.RunKeeps` | libethash-cuda/CUDAMiner.cpp:234-293 | the state of slots and indices after every run, by the parity of recoveries |
| `KernelSlots.JobIsCurrent` | libethash-cuda/CUDAMiner.cpp:279-282 | whatever came before, a job makes its period the current one |
| `KernelSlots.CurrentIsLast` | libethash-cuda/CUDAMiner.cpp:234-293 | in every run the current period is that of the last job |
| `KernelSlots.ExecutedIsRight` | libethash-cuda/CUDAMiner.cpp:234-293 | at every moment of every run the executed slot holds the kernel for the last job's period, and a running compile writes the other slot, exactly when the number of recoveries is even |
| `KernelSlots.SequentialNeverRecovers` | libethash-cuda/CUDAMiner.cpp:270-285 | if each period is the previous or the one after it the recovery branch is never taken |
| `KernelSlots.SequentialIsRight` | libethash-cuda/CUDAMiner.cpp:234-293 | such runs always execute the right kernel |
| `KernelSlots.SkipIsWrong` | libethash-cuda/CUDAMiner.cpp:270-293 | the first skipped period is searched with the wrong kernel |
| `Worker.StoppedIsOutside` | libdevcore/Worker.cpp:31-84 | in every interleaving, spurious failures included, `Stopped` means the thread is outside `workLoop` |
| `Worker.StartTakes` | libdevcore/Worker.cpp:31-39 | `startWorking` sets a thread going exactly if there is none yet or it has stopped |
| `Worker.StartIsObeyed` | libdevcore/Worker.cpp:31-84 | in every interleaving without spurious failures a new or stopped thread calls `workLoop` before `startWorking` returns, and is there as `Started` after two, three or four steps of its own |
| `Worker.StartWhileStoppingIsLost` | libdevcore/Worker.cpp:35-39 | a start while the thread is stopping changes nothing, and the thread goes on to rest |
| `Worker.StopHolds` | libdevcore/Worker.cpp:87-109 | from a stop on the state is not `Started` until `workLoop` is called anew, and `Stopping` or `Killing` while the thread is inside |
| `Worker.StopReturns` | libdevcore/Worker.cpp:98-109 | `stopWorking` can return two steps of the thread after `workLoop` is about to return |
| `Worker.KillIsObeyed` | libdevcore/Worker.cpp:46-120 | from any state but one: `Killing` is in place at every later test, `workLoop` is called at most once more and the thread exits within six steps |
| `Worker.KillIsLost` | libdevcore/Worker.cpp:72-77 | in that one state, about to put `Starting` back, the thread's next step always overwrites `Killing` |
| `Worker.KillIsNeverLost` | libdevcore/Worker.cpp:46-77 | without spurious failures of the thread's compare-exchange that state is never reached |
| `Worker.StopIsObeyed` | libdevcore/Worker.cpp:98-109 | when `stopWorking` returns the thread is outside `workLoop` and stays outside until the next start or destruction |
| `Worker.SpuriousFailureLosesKill` | libdevcore/Worker.cpp:50-77 | a run with one spurious failure that ends with the destructor waiting and the thread back in `workLoop` as `Started` |
| `Keccak.Permute` | libcrypto/keccak.cpp:569-569 | the permutation applied to the words is the permutation of the bits they hold |
| `Keccak.TakeBlock` | libcrypto/keccak.cpp:562-571 | one block of input is xored in word by word and permuted |
| `Keccak.Consume` | libcrypto/keccak.cpp:557-582 | what the loop leaves: all full blocks absorbed, whole words of the rest taken in, the last bytes kept; and which branches it took |
| `Keccak.LastWords` | libcrypto/keccak.cpp:584-586 | the byte 0x01 and the top bit give the last block of `pad10*1`, also where both fall into one byte |
| `Keccak.Keccak` | libcrypto/keccak.cpp:544-594 | for every input and 256 or 512 bits the output is the sponge of section 4 of FIPS 202 with `pad10*1` of section 5.1 |
| `Keccak.NoBlockAfterWord` | libcrypto/keccak.cpp:557-578 | the block branch is never taken after the word branch |
| `Keccak.BitsMakeByte` | libcrypto/keccak.cpp:15-25 | bit i of a byte counts 2^i |
| `KeccakF.UnrolledRound1600` | libcrypto/keccak.cpp:97-164 | one unrolled round of `keccakf1600` is iota, chi, pi, rho and theta of section 3.2 of FIPS 202 |
| `KeccakF.UnrolledRound800` | libcrypto/keccak.cpp:311-378 | one unrolled round of `keccakf800`, with its own rotation counts, is the same on 32-bit lanes |
| `KeccakF.OffsetsAreTheStandards` | libcrypto/keccak.cpp:111-159 | the 24 rotation counts are those of the walk of section 3.2.2 |
| `KeccakF.EveryLaneReached` | libcrypto/keccak.cpp:111-159 | that walk reaches every lane but the first |
| `KeccakF.RotlIsShifts` | libcrypto/bitwise.hpp:26-40 | the two shifts of `rotl32` and `rotl64` joined by or are the rotation of the bits, for every count and width |
| `KeccakF.RotlModulo` | libcrypto/keccak.cpp:325-378 | in 32-bit lanes rotating by a count modulo 32 is rotating by the count |
| `KeccakF.RhoIsTheStandards` | libcrypto/keccak.cpp:111-159 | every lane is rotated by the count (t + 1)(t + 2) / 2 of its place in the walk, in lanes of 64 and 32 bits |
| `KeccakF.TablesAreTheStandards` | libcrypto/keccak.cpp:27-40 | both tables of round constants are those the shift register of section 3.2.5 produces |
| `KeccakF.TableLaneIs` | libcrypto/keccak.cpp:27-40 | bit by bit, each table entry is the round constant of the standard |
| `KeccakF.KeccakF` | libcrypto/keccak.cpp:51-473 | the two loops of two rounds each are 24 rounds of the standard on 64-bit lanes and 22 on 32-bit lanes |
| `KeccakF.PermutationOnLanes` | libcrypto/keccak.cpp:506-509 | on the words of the sponge the standard's permutation is that loop |
| `KeccakKernels.ThetaInPlace` | libethash-cuda/CUDAMiner_kernel.cu:46-55 | the two loops of theta in place |
| `KeccakKernels.WalkOf` | libethash-cuda/CUDAMiner_kernel.cu:37-44 | the tables are a walk over all lanes but the first: each comes once, after the lane pi puts into it, with the rotation of that lane |
| `KeccakKernels.RhoPiInPlace` | libethash-cuda/CUDAMiner_kernel.cu:57-64 | moving lanes along the walk in place is rho followed by pi |
| `KeccakKernels.ChiInPlace` | libethash-cuda/CUDAMiner_kernel.cu:66-72 | chi in place, row by row |
| `KeccakKernels.RndcIs` | libethash-cuda/CUDAMiner_kernel.cu:26-31 | the kernels' tables of round constants are the standard's |
| `KeccakKernels.RoundInPlace` | libethash-cuda/CUDAMiner_kernel.cu:34-76 | one rolled round, on 32-bit and 64-bit lanes, is one round of section 3.3 |
| `KeccakKernels.KeccakInPlace` | libethash-cuda/CUDAMiner_cuda.cu:73-84 | 24 rounds on 64-bit lanes and 22 on 32-bit lanes: the device's permutations are the standard's, as the host's are |
| `Farm.WidthIsFloorLog` | libethcore/Farm.cpp:220-220 | the width is the integer part of the logarithm: n * 2^w <= 2^residual < n * 2^(w + 1) |
| `Farm.Farm.constructor` | libethcore/Farm.h:293-294 | the default width of 32 lets the segments fit exactly for up to 2^32 miners |
| `Farm.Farm.SetWork` | libethcore/Farm.cpp:190-233 | without an epoch nothing changes; otherwise scrambler, width and the package each miner is given; segments that fit keep fitting, and with an extranonce they fit whatever was before |
| `Farm.Farm.SetSegmentWidth` | libethcore/Farm.h:220-224 | the width changes only without an extranonce, and the segments fit afterwards exactly if the new width lets them |
| `Farm.Farm.SetScramblerInfo` | libapicore/ApiServer.cpp:670-675 | the clamp leaves a width of 10 to 50 (above 50 it takes 40), and segments of up to 16384 miners that fit keep fitting |
| `Farm.DisjointExactly` | libethcore/Farm.cpp:228-232 | the segments are disjoint modulo 2^64 exactly when n * 2^width <= 2^64 |
| `Farm.ExtranonceKept` | libethcore/Farm.cpp:216-232 | with an extranonce every nonce of every segment keeps its digits |
| `Farm.ClientExtranonceFits` | libpoolprotocols/stratum/EthStratumClient.cpp:736-750 | extranonces the client accepts leave room for every miner |
| `PoolManager.PoolManager.constructor` | libpoolprotocols/PoolManager.h:73-82 | the first connection is active, no attempt counted |
| `PoolManager.PoolManager.AddConnection` | libpoolprotocols/PoolManager.cpp:242-250 | appended at the end, the active index stays |
| `PoolManager.PoolManager.RemoveConnection` | libpoolprotocols/PoolManager.cpp:258-276 | the four outcomes, and the active connection stays the same one |
| `PoolManager.PoolManager.SetActiveConnectionCommon` | libpoolprotocols/PoolManager.cpp:278-297 | the index, counters and flag, or a refusal while operations are outstanding |
| `PoolManager.PoolManager.SetActiveConnection` | libpoolprotocols/PoolManager.cpp:303-310 | out of bounds is refused |
| `PoolManager.PoolManager.SetActiveConnectionByText` | libpoolprotocols/PoolManager.cpp:312-323 | the first match is activated and the call fails all the same |
| `PoolManager.PoolManager.MarkUnrecoverable` | libpoolprotocols/PoolURI.h:84-85 | marks one connection only |
| `PoolManager.PoolManager.MoveOn` | libpoolprotocols/PoolManager.cpp:369-401 | discarding an unrecoverable connection, retrying forever on the only one, moving on after the allowed attempts |
| `PoolManager.PoolManager.RotateConnect` | libpoolprotocols/PoolManager.cpp:360-449 | selected index, exit, or the exception of an empty list, and the new state |
| `PoolManager.PoolManager.FailoverTimerElapsed` | libpoolprotocols/PoolManager.cpp:464-480 | back to the first connection while running |
| `PoolManager.PoolManager.Start` | libpoolprotocols/PoolManager.cpp:352-358 | running, with operations outstanding |
| `PoolManager.PoolManager.Stop` | libpoolprotocols/PoolManager.cpp:211-217 | a running manager is stopping, with operations outstanding |
| `PoolManager.PoolManager.OnDisconnected` | libpoolprotocols/PoolManager.cpp:113-142 | a stopping manager no longer runs; otherwise operations are outstanding |
| `PoolManager.FailoverActs` | libpoolprotocols/PoolManager.cpp:464-480 | from a fresh manager there is a run to any other connection, from which the timer leads back to the first |
| `PoolManager.NextValid` | libpoolprotocols/PoolManager.cpp:242-480 | every event keeps the active index in range, and a removal keeps the active connection |
| `PoolManager.SwitchesAreCounted` | libpoolprotocols/PoolManager.cpp:360-405 | the switch counter counts exactly the starts and the changes of the active connection, and each change clears the attempts |
| `PoolManager.FlagsFollowEvents` | libpoolprotocols/PoolManager.cpp:352-358 | which events make operations outstanding, and from when to when the manager runs and stops |
| `PoolManager.ActiveInRange` | libpoolprotocols/PoolManager.cpp:242-480 | in every interleaving of start, stop, add, remove, activate, mark, connect, disconnect, rotate and failover the active index is below the size of a non-empty list |
| `PoolManager.AttemptsBounded` | libpoolprotocols/PoolManager.cpp:378-422 | the attempt counter never exceeds the allowed retries (1 if none are allowed) |
| `PoolManager.RotationsStand` | libpoolprotocols/PoolManager.cpp:360-427 | with R >= 1 retries, rotation t selects index (t / R) mod n, for every t and n |
| `PoolManager.NoRetriesMoveOn` | libpoolprotocols/PoolManager.cpp:378-401 | with no retries rotation t selects (t + 1) mod n, so the first one already skips a connection |
| `PoolManager.DiscardSelectsNext` | libpoolprotocols/PoolManager.cpp:369-377 | discarding an unrecoverable connection selects the one after it, round the end, and the others keep their order |
| `PoolManager.DiscardOfTheLast` | libpoolprotocols/PoolManager.cpp:369-377 | discarding the only connection ends the run |

## Left out

- Device.KernelRuns: devices on which a shift by 32, which C++ leaves undefined, yields bits that show in a rotation by 0
  are excluded; `Words.DeviceRotlAgrees` says exactly which.
- Verify.SearchedIsHost: datasets of more than 2^28 items are covered as long as no item out of reach of the 32-bit
  index is loaded; `SearchKernels.DeviceDigestIsMixHash` says what happens otherwise.
- Verify.Reports: the OpenCL kernel also raises a flag on a hit, and groups that start while it is up
  return without hashing; which nonces are then skipped is not modelled.
- Submissions.EverySubmissionVerifies: a search whose threads all run to the end, as long as the executed slot does not
  change.
- NoncePipeline.CudaMiner.Search: outcomes are stated for the observations it makes; that a pass ever sees
  one that ends the search is up to the caller.
- KernelSlots.ExecutedIsRight: one activation of `workLoop` with compiles that succeed; a failed compile and
  a device reset between two activations are not modelled.
- FromCompact.FromCompactAgrees: for sizes 11 and 19 the code shifts a 64-bit word by 64, which C++ leaves undefined; the
  result of that shift is a parameter, and the lemma says for which results the decoders still agree.
- Farm.Farm.SetWork: the logarithm is exact; rounding of `log2` and `pow` in double precision is not modelled, nor is
  handing a new epoch context to the miners. Extranonces that leave fewer nonces than miners, for which the conversion of
  a negative logarithm is undefined, and widths of 64 or more, for which the shift is, are excluded.
- The OpenCL miner's own search loop, and how the OpenCL kernel passes seeds and lane hashes between its lanes.
- The OpenCL kernels' own Keccak and their generation of the dataset.
- DagKernels.Launch: quads run one after the other, and blocks are whole quads, as all accepted block sizes are.
- `build_light_cache`, and the Ethash (not ProgPoW) hash and its verification.
- Weak memory ordering, and memory exhaustion.
- Sockets, JSON, HTTP, TLS, hardware monitoring, logging and command line parsing.
- Difficulty and hash rate in floating point, and the parsing of pool addresses.
