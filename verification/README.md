# A verified model of the ProgPoW miner

The miner computes the same functions several times over: a CPU reference, a generator of GPU programs, hand-made
GPU kernels, caches that are filled as they are used, and schedulers that split work among devices. This project models
those forms in Dafny and proves that each fast form agrees with the simple one, and that the schedulers and the small
concurrent protocols around them keep what they are meant to keep, in every run.

The parts, in the order in which they build on each other:

- **Keccak** (`KeccakSpec`, `KeccakGpu`, `KeccakUnrolled`, `Rotation`, `KeccakCl`, `Keccak`, `LaneLaws`, `Sponge`). `KeccakSpec` transcribes
  sections 3.2 to 3.4 of FIPS 202 over any lane type: the rho walk of algorithm 2, the shift register of algorithm 5.
  Against it stand the unrolled double rounds of the CPU, the in-place round shared by the OpenCL 800-bit and the CUDA
  1600-bit kernels, the OpenCL 1600-bit round on pairs of 32-bit words, and the streaming hash, which is the sponge of
  section 4 with the padding of section 5.1 and no domain bits.
- **Words** (`Words`, `WordValues`, `LongValues`). Machine words are bit vectors; the laws say what each operation does as
  integer arithmetic modulo 2^32 or to the single bits, so that no model of it can be taken for another.
- **ProgPoW programs** (`Kiss99`, `Program`, `ProgramLaws`, `ProgPowCpu`, `ProgPowKernel`, `ProgPowAgreement`,
  `LocalMemory`). A program seed
  determines a list of operations. The CPU interprets it with the operation outermost and the lane innermost; `getKern`
  emits it as statements that each lane executes by itself. Emitted code is a small syntax tree with an evaluator in which
  an access out of bounds has no result. The main theorem is that the kernel's digest is the CPU's mix hash.
- **The hash around the mix** (`Bytes`, `ProgPowHash`, `SearchOutput`, `KernelSearch`, `DeviceSearch`). Hashing,
  verification, search, 256-bit order, and the search kernel from nonce to report: a launch is any order in which
  groups of lanes begin, work items come to their test and the host raises the abort flag, and any order in which the
  groups of a work group end their passes, and what it leaves in the output buffer is told from the CPU's hashes. `DeviceSearch` joins the parts from the epoch number to the reports.
- **The dataset** (`FastMod`, `Primes`, `Dataset`, `DagKernels`, `Epochs`). Division by reciprocal multiplication, item
  counts, interleaved item computation, the lazily filled dataset, generation by the OpenCL and the CUDA kernels, and
  the memoised epoch search.
- **Nonces and work** (`Nonces`, `CudaStreams`, `ClWorkLoop`). Extranonces and segments, the multi-stream pipeline, and the
  one-behind reading of results.
- **Protocols** (`Worker`, `Stratum`). State machines whose runs are arbitrary sequences of steps.

Where something that the design promises is not what the code does, the code is kept, a lemma shows the failing case,
and another says exactly when the promise is met:

- The kernel's DAG address is 32 bits wide: it is right for every lane and value exactly when the dataset has at most
  2^28 items of 2048 bits (`ProgPowAgreement.AddressesAgree`).
- The kernel's output buffer has 15 slots, and a group of lanes that begins after the abort flag is up does nothing: a
  work item that meets the boundary goes unreported exactly if its group began with the flag up or the slots were taken
  (`KernelSearch.MeetingItemMissed`), and under a boundary that every hash meets the sixteenth lane of the first group
  is lost (`SearchOutput.SixteenHits`). A launch reports all that pass exactly if none was turned away and at most
  fifteen passed (`SearchOutput.CompleteExactly`); a lone hit is always reported (`SearchOutput.LoneHitIsReported`).
- The host reads as many results as were counted, and more than fifteen are more than the buffer holds: the read fails
  and ends the work loop (`ClWorkLoop.OverfullEnds`).
- A program has the number of elements of the dataset built in, and only a change of period loads another: two packages
  in order, of one period and two epochs, make the loop search the second dataset with the first one's element count
  (`ClWorkLoop.StaleElements`). It holds the right count in every launch exactly if no turn launches a package with
  another count than the package the program was compiled for (`ClWorkLoop.ElementsFitExactly`).
- A header that comes back after a package of its own period and of another epoch is launched on the other epoch's
  dataset (`ClWorkLoop.StaleDataset`). Every launch reads its own dataset exactly if no turn launches a package of
  another epoch than the one generated last (`ClWorkLoop.DagsFitExactly`), which packages in order never do
  (`ClWorkLoop.OrderlyFits`).
- A header that comes back after a package of another period meets a kernel without arguments, which ends the work loop
  (`ClWorkLoop.OldHeaderEnds`), exactly if a program has been loaded since its last launch
  (`ClWorkLoop.RepeatEndsExactly`); this too packages in order never do. So programs fit the launches in every run,
  whatever the order of the packages, if equal headers mean equal blocks (`ClWorkLoop.PeriodsAlwaysFit`). The failing
  side of the exact condition (`ClWorkLoop.PeriodsFitExactly`) takes one header for two blocks
  (`ClWorkLoop.OneHeaderTwoBlocks`).
- A device without room for a dataset is meant to resume with another epoch or coin. It pauses itself instead and never
  launches again, for only the change of epoch that a paused miner does not reach takes the pause back
  (`ClWorkLoop.SkipIsForGood`).
- In a work group of several wavefronts group 0 can overwrite the address of another group at the end of a hash, for no
  barrier comes between: a group gets its own address exactly if group 0 has not yet written its lane hashes
  (`LocalMemory.AddressSurvives`, `LocalMemory.AddressLost`). A launch is run with that order as a parameter: of every
  work item whose pass was not disturbed the kernel makes the CPU's hash (`KernelSearch.MadeIsHash`).
- The OpenCL rotation of a lane by 0 or 32 gives the union of its halves: it is a rotation exactly at the other counts
  or when the halves are equal (`KeccakCl.LaneTurn`). The permutation uses neither count.
- A search whose range reaches past 2^64 searches nothing (`ProgPowHash.Search`).
- An extranonce comes back from a submission in lower case (`Nonces.Submitted`, `Nonces.OnlyLowerComesBack`), and a
  submission fails exactly if the extranonce's size, in the 16 bits of a package, is above 16
  (`Nonces.SubmissionFails`).
- One failure without a reason of the worker thread's weak compare-exchange loses both safety properties of the worker
  (`Worker.SpuriousFailure`); without such a failure both hold in every interleaving.

Words are bit-vectors where the code computes with their bits and integers, with explicit remainders, where it
computes with their values. Calls to devices, clocks, sockets and random numbers are parameters. Hosts are little-endian.

## Model

| member | source | states |
|---|---|---|
| KeccakSpec.WalkVisitsEveryLane | libethash-cl/CLMiner_kernel.cl:42-44 | the walk of FIPS 202 algorithm 2 visits every lane but the first exactly once |
| KeccakSpec.PiFollowsWalk | libethash-cl/CLMiner_kernel.cl:58-66 | pi moves each lane to the next stop of the walk, which is why one in-place cycle performs rho and pi |
| KeccakGpu.TablesFollowTheWalk | libethash-cl/CLMiner_kernel.cl:40-44 | the tables of destinations and rotations are the stops of the walk and its offsets modulo 64 |
| KeccakGpu.ThetaInPlace | libethash-cl/CLMiner_kernel.cl:46-56 | the loops over columns compute theta |
| KeccakGpu.RhoPiInPlace | libethash-cl/CLMiner_kernel.cl:58-66 | carrying one lane along the tables leaves pi after rho of the whole state |
| KeccakGpu.ChiInPlace | libethash-cl/CLMiner_kernel.cl:68-75 | the row buffer makes the in-place loop compute chi of the old rows |
| KeccakGpu.RoundInPlace | libethash-cuda/CUDAMiner_cuda.cu:29-71 | one in-place round is the FIPS 202 round at either lane width |
| KeccakUnrolled.UnrolledRound | libethash/keccakf1600.c:90-158 | the 25-local unrolled round is the FIPS 202 round |
| KeccakUnrolled.Permute | libethash/keccakf1600.c:40-255 | loading, double rounds and storing leave the state after all rounds |
| Keccak.RoundConstants | libethash/keccakf1600.c:13-38 | the constant tables are what the shift register of algorithm 5 generates, halved for 32-bit lanes |
| Keccak.PermuteCpu1600 | libethash/keccakf1600.c:40-255 | the C function is Keccak-f[1600] |
| Keccak.PermuteCpu800 | libethash/keccakf800.c:38-253 | the C function is Keccak-f[800], all rotation counts taken modulo 32, over lanes whose operations LaneLaws.Lane32Bits fixes bit by bit |
| Keccak.PermuteGpu1600 | libethash-cuda/CUDAMiner_cuda.cu:73-84 | the CUDA round loop is Keccak-f[1600] |
| Keccak.PermuteGpu800 | libethash-cl/CLMiner_kernel.cl:96-101 | the OpenCL round loop is Keccak-f[800] over the same lanes |
| LaneLaws.Lane32Bits | libethash/keccakf800.c:8-11 | bit j of a lane is bit (j + s) mod 32 of the lane rotated by s, for every s; xor and and-not work bit by bit |
| LaneLaws.Lane64Bits | libethash/keccakf1600.c:8-11 | the same for 64-bit lanes |
| KeccakCl.SelectIsChi | libethash-cl/CLMiner_kernel.cl:341-348 | chi written with bitselect is chi |
| KeccakCl.RoundCl | libethash-cl/CLMiner_kernel.cl:350-434 | the round with a second array is the FIPS 202 round for any lanes with bitselect |
| Rotation.TurnHalves | libethash-cl/CLMiner_kernel.cl:324-338 | rotating a lane by any count below 64 is splicing its halves, in either half of the range |
| KeccakCl.LaneTurn | libethash-cl/CLMiner_kernel.cl:324-338 | for every pair and every count below 64, the function rotates the lane if and only if the count is neither 0 nor 32 or the halves are equal |
| KeccakCl.RoundMaps | libethash-cl/CLMiner_kernel.cl:350-434 | a round on pairs of halves is the round on the 64-bit lanes they stand for |
| KeccakCl.SameConstant | libethash-cl/CLMiner_kernel.cl:267-292 | the constants in halves are the 64-bit constants |
| KeccakCl.PermuteCl | libethash-cl/CLMiner_kernel.cl:436-463 | the kernel's permutation on pairs is Keccak-f[1600] on lanes |
| Sponge.LoadedBits | libethash/keccak.c:29-40 | bit 8k + j of a word loaded from eight bytes is bit j of byte k, the bit of the byte string at that place |
| LaneLaws.AbsorbedBits | libethash/keccak.c:55-62 | absorbing a block adds each of its bits to the bit of the state at that place |
| Sponge.PaddedBits | libethash/keccak.c:79-89 | the padding bytes 0x01 and 0x80, or 0x81, are the bits of pad10*1 for every length |
| Sponge.Digest | libethash/keccak.c:42-95 | for every message of every length the streaming hash is the sponge on the padded message |
| Sponge.XorWords | libethash/keccak.c:69-77 | the whole words are added to the front of the state and the word cursor stays in the rate |
| Sponge.HashNodeGpu | libethash-cuda/CUDAMiner_cuda.cu:73-84 | the kernel's hash of a node is the permutation of one block with fixed padding |
| Sponge.NodeHash | libethash-cuda/CUDAMiner_cuda.cu:73-84 | that block is the padded 64-byte message, so its permutation is the 512-bit hash |
| Words.RotationsAgree | libprogpow/ProgPow.cpp:57-87 | all rotation macros of the targets agree with the CPU rotation, for every count |
| Words.RotationsInvert | libethash/bit_manipulation.h:17-33 | left and right rotation by the same count undo each other |
| WordValues.PlusValue | libethash/progpow.cpp:120-121 | the sum of two words is that of the numbers modulo 2^32 |
| WordValues.TimesValue | libethash/progpow.cpp:122-123 | the product is that of the numbers modulo 2^32 |
| LongValues.MulHiValue | libethash/bit_manipulation.h:45-48 | mul_hi32 is the product of the numbers divided by 2^32, and the low product is the rest |
| WordValues.MinValue | libethash/progpow.cpp:126-127 | the minimum is that of the numbers |
| WordValues.LogicBits | libethash/progpow.cpp:132-137 | and, or and xor work bit by bit |
| WordValues.RotationBits | libethash/bit_manipulation.h:17-33 | rotl32 moves bit j to place (j + n) mod 32 and rotr32 moves it back, for every count n |
| WordValues.ShiftBits | libethash/kiss99.hpp:51-58 | shifts move every bit by the count and bring in zeros |
| WordValues.ClzValue | libethash/bit_manipulation.h:35-38 | clz32 is 32 for zero, and otherwise 2^(31 - clz) <= x < 2^(32 - clz) |
| WordValues.PopcountValue | libethash/bit_manipulation.h:40-43 | popcount32 is the number of places that hold a one |
| WordValues.BitsDecide | libethash/bit_manipulation.h:17-48 | words with the same 32 bits are equal, so that the laws on bits fix the results |
| WordValues.Fnv1Means | libethash/bit_manipulation.h:62-66 | fnv1 multiplies its first word by 16777619 modulo 2^32, passes changes of the second on unchanged, and is injective in each |
| WordValues.Fnv1aMeans | libethash/bit_manipulation.h:73-77 | fnv1a depends on the xor of its words, which it multiplies by 16777619 modulo 2^32, and is injective in each |
| Kiss99.Generator.Next | libethash/kiss99.hpp:49-61 | a draw returns the generator's output and leaves its next state |
| Kiss99.Draw | libprogpow/ProgPow.cpp:250-260 | the generator of the program emitter, updated in another order, makes the same draws |
| ProgramLaws.DrawMeans | libethash/kiss99.hpp:49-61 | the multiply-with-carry and congruential parts and the number drawn, as integer arithmetic modulo 2^32 |
| ProgramLaws.ShiftRegisterMeans | libethash/kiss99.hpp:56-58 | the shift-register part, bit by bit |
| ProgramLaws.FirstNumbers | libethash/kiss99.hpp:31-40 | the first three numbers drawn from the default state are 769445856, 742012328 and 2121196314 |
| Program.StartIsValid | libethash/progpow.cpp:85-110 | for every seed both shuffled sequences are permutations of the registers |
| Program.SourcesAreBijective | libethash/progpow.cpp:200-205 | the source draw maps the numbers below 992 one to one onto ordered pairs of distinct registers |
| Program.RandomMergeInjective | libethash/progpow.cpp:148-166 | a merge loses nothing of the register, for every data word and selector |
| ProgramLaws.RandomMathNumbers | libethash/progpow.cpp:113-127 | for the remainders 0 to 3 of the selector random_math is the sum, the product and its high half, and the minimum, as numbers |
| ProgramLaws.RandomMathBits | libethash/progpow.cpp:128-137 | for the remainders 4 to 8 it rotates and combines bits: which bit of the operands each bit of the result is |
| ProgramLaws.RandomMathCounts | libethash/progpow.cpp:138-142 | for the remainders 9 and 10 it adds up leading zeros and places of ones of both operands |
| ProgramLaws.RandomMergeMeans | libethash/progpow.cpp:148-166 | the four merges as numbers and bits, with rotation counts 1 to 31 from the high half of the selector |
| ProgramLaws.Periods | libethash/progpow.cpp:262 | the program seed of every block number: all share one but the greatest and the two lowest |
| ProgramLaws.SlotDigits | libethash/progpow.cpp:231 | the part of an item that a lane reads has the binary digits of the lane, turned where the loop number has a one |
| ProgramLaws.SlotsDiffer | libethash/progpow.cpp:231 | in every loop no two lanes read the same part |
| ProgramLaws.SeedOfHalves | libethash/progpow.cpp:87-88 | the two words of a seed or a nonce give it back |
| Program.ProgramTakes | libethash/progpow.cpp:184-226 | the 32 drawn destinations are the destination sequence and the cache sources the first eleven of the other |
| Program.EveryRegisterMerged | libethash/progpow.cpp:184-226 | every loop merges into every register, and into register 0 once more |
| Program.LoopInterchange | libethash/progpow.cpp:184-237 | running the operations outermost over all lanes gives each lane what running them on it alone gives |
| ProgPowCpu.MixRngState.constructor | libethash/progpow.cpp:85-110 | seeding and the two interleaved shuffles give the specified generator and sequences |
| ProgPowCpu.CacheStep | libethash/progpow.cpp:186-197 | draws the next cache operation and applies it to all lanes |
| ProgPowCpu.MathStep | libethash/progpow.cpp:198-216 | draws the next math operation and applies it to all lanes; what it computes for each selector ProgramLaws says in numbers and bits |
| ProgPowCpu.DagDraws | libethash/progpow.cpp:219-226 | draws the operations that consume the DAG words |
| ProgPowCpu.DagOnLanes | libethash/progpow.cpp:228-237 | the lane-outermost loop applies those operations as the operation-outermost order does |
| ProgPowCpu.Round | libethash/progpow.cpp:172-238 | one round looks up the addressed item and runs the whole program on the lanes |
| ProgPowCpu.InitMix | libethash/progpow.cpp:240-256 | fills the registers of all lanes from the seed |
| ProgPowCpu.HashMix | libethash/progpow.cpp:258-284 | for every int block number, 64 rounds and the two reductions, independently of how items are looked up |
| ProgPowKernel.MathExprIsMath | libprogpow/ProgPow.cpp:212-240 | the emitted math expression evaluates to the CPU's math, fixed by the same laws, on every target |
| ProgPowKernel.MergeExprIsMerge | libprogpow/ProgPow.cpp:193-209 | the emitted merge expression evaluates to the CPU's merge on every target |
| ProgPowKernel.OpCodeRuns | libprogpow/ProgPow.cpp:138-183 | the statements of an operation do to a lane what the operation does, without leaving the arrays |
| ProgPowKernel.OpsCodeRuns | libprogpow/ProgPow.cpp:138-183 | so do the statements of a whole program |
| ProgPowKernel.Sequences | libprogpow/ProgPow.cpp:31-50 | the emitter's shuffles are the CPU's |
| ProgPowKernel.GetKern | libprogpow/ProgPow.cpp:18-188 | the code emitted for a seed is the compilation of the program that the CPU interprets for it |
| ProgPowAgreement.GeneratedHolds | libethash-cl/CLMiner_kernel.cl:539-540 | a buffer of generated 512-bit items is the dataset of 2048-bit items that a search reads |
| ProgPowAgreement.AddressesAgree | libprogpow/ProgPow.cpp:128-129 | the 32-bit address is the intended one for all values and lanes if and only if the dataset has at most 2^28 items of 2048 bits |
| ProgPowAgreement.AddressWraps | libprogpow/ProgPow.cpp:128-129 | in any larger dataset one value of mix[0] addresses item 0 instead of item 2^28 |
| ProgPowAgreement.PrologueLoads | libprogpow/ProgPow.cpp:119-130 | the first statements load the lane's words of the item that the shared register addresses |
| ProgPowAgreement.CacheIsL1 | libethash-cl/CLMiner_kernel.cl:186-193 | the front of the DAG is the L1 cache of the CPU |
| ProgPowAgreement.LaneAgrees | libethash-cl/CLMiner_kernel.cl:218-220 | one loop of the emitted code in one lane leaves that lane's registers of the CPU round, at whatever address is shared |
| ProgPowAgreement.FillMix | libethash-cl/CLMiner_kernel.cl:130-143 | the kernel's own seeding and draws fill the registers of a lane as the CPU does |
| ProgPowAgreement.ShareMix | libprogpow/ProgPow.cpp:119-127 | by a shuffle or through local memory every lane receives mix[0] of the same lane |
| ProgPowAgreement.ReduceLanes | libethash-cl/CLMiner_kernel.cl:222-238 | the lane hashes in local memory and their fold give the digest of the CPU's reductions |
| ProgPowAgreement.RunLoop | libethash-cl/CLMiner_kernel.cl:217-220 | one loop of the kernel on a group of lanes is one round of the CPU |
| ProgPowAgreement.OwnAddressCompletes | libethash/progpow.cpp:264-265 | the last loop at its own address completes the mix hash of the CPU |
| ProgPowAgreement.HashSeed | libethash-cl/CLMiner_kernel.cl:206-238 | 64 loops and the reductions give the mix hash for the shared seed, the last loop at the address that the order of accesses leaves |
| ProgPowAgreement.HashGroup | libethash-cl/CLMiner_kernel.cl:203-239 | with the seed of lane h shared in pass h, for every period and dataset and every end of each pass no access is out of bounds, and the digest of each lane whose pass was not disturbed is the CPU's mix hash of its own seed |
| ProgPowAgreement.FillCache | libethash-cl/CLMiner_kernel.cl:186-193 | for every group size the strided loads fill the whole cache |
| LocalMemory.AddressRead | libethash-cl/CLMiner_kernel.cl:232 | in every order of accesses a group reads its own address or, after group 0's reduction, one of its lane hashes |
| LocalMemory.AddressSurvives | libprogpow/ProgPow.cpp:123-126 | a group reads its own address for all values if and only if group 0 has not written its hashes; group 0 always does |
| LocalMemory.AddressLost | libethash-cl/CLMiner_kernel.cl:217-233 | an order of two groups, each in program order, in which the second loses its address |
| LocalMemory.ReadThrough | libprogpow/ProgPow.cpp:123-126 | the accesses on the shared words give a group its own address, or the hash of group 0 if that was written first |
| Bytes.Less | libdevcore/FixedHash.h:152-162 | the byte-wise order is numeric order, for every width |
| Bytes.IsLessOrEqual | libethash/ethash-internal.hpp:33-43 | the comparison of byte-swapped words is 256-bit numeric order |
| Bytes.FromBigEndian | libdevcore/CommonData.h:121-129 | the number of the bytes, modulo what the type holds |
| Bytes.ToBigEndian | libdevcore/CommonData.h:105-115 | bytes whose number is the value modulo what they hold |
| Bytes.Increment | libdevcore/FixedHash.h:198-204 | the carry loop adds one modulo 256 to the width |
| Bytes.TopDecides | libethash-cl/CLMiner.cpp:384 | the boundary shifted right by 192 is its first eight bytes, and a smaller prefix decides the order |
| Bytes.TopIsNotEnough | libethash-cl/CLMiner_kernel.cl:245 | a hash above its boundary can pass the test on the top 64 bits |
| ProgPowHash.KeccakProgPow256 | libethash/progpow.cpp:28-52 | header, nonce and mix absorbed into Keccak-f[800], first 256 bits |
| ProgPowHash.AbsorbedInjective | libethash/progpow.cpp:34-44 | the absorbed words give back header, nonce and mix |
| ProgPowHash.KeccakGpu64 | libethash-cl/CLMiner_kernel.cl:83-106 | the kernel's form gives the byte-swapped first 64 bits of the same hash |
| ProgPowHash.Hash | libethash/progpow.cpp:287-317 | light and lazily filled contexts give the same result, a function of the dataset alone |
| ProgPowHash.HashAll | libethash/progpow.cpp:296-317 | so does every sequence of calls through one context, and the words of the L1 cache never change |
| ProgPowHash.Verify | libethash/progpow.cpp:319-330 | accepts exactly the mix hash of the nonce with a final hash that meets the boundary |
| ProgPowHash.Search | libethash/progpow.cpp:332-358 | the least nonce of the range that meets the boundary, or none meets it; nothing if the range passes 2^64 |
| ProgPowHash.SearchAndVerify | libethash/progpow.cpp:319-358 | what a search through the full dataset finds, verify accepts on a light context |
| KernelSearch.TopValue | libethash-cl/CLMiner_kernel.cl:103-105 | the kernel's 64-bit value is the first eight bytes of the hash as a number |
| KernelSearch.KernelTest | libethash-cl/CLMiner_kernel.cl:245 | the test passes for every hash that meets the boundary, and for others only if the top 64 bits are equal |
| KernelSearch.NonceCounts | libethash-cl/CLMiner_kernel.cl:180-199 | the nonce of a work item is the first nonce plus its number, modulo 2^64 |
| SearchOutput.SlotsHoldFirst | libethash-cl/CLMiner_kernel.cl:245-255 | in every order of events the counter counts the hits that arrive, the slots hold the first fifteen, and the flag is up exactly after a hit or a kick |
| SearchOutput.MissedExactly | libethash-cl/CLMiner_kernel.cl:173-255 | a passing work item is missing if and only if its group began with the flag up or the slots were taken at its test |
| SearchOutput.ReportsAreGenuine | libethash-cl/CLMiner_kernel.cl:247-253 | every report is of a passing work item with its own mix, and none is reported twice |
| SearchOutput.CompleteExactly | libethash-cl/CLMiner_kernel.cl:173-255 | all passing work items are reported if and only if none of them was turned away and at most fifteen pass |
| SearchOutput.CountsPassing | libethash-cl/CLMiner_kernel.cl:247 | if none is turned away the counter ends at the number of passing work items |
| SearchOutput.LoneHitIsReported | libethash-cl/CLMiner_kernel.cl:173-255 | a work item that alone passes is reported in every order without a kick |
| SearchOutput.SixteenHits | libethash-cl/CLMiner_kernel.cl:247-248 | under the greatest target the sixteen hits of a group count sixteen and the last is not reported |
| SearchOutput.SearchResults.Report | libethash-cl/CLMiner_kernel.cl:247-254 | a hit always counts and raises the flag, and takes the next slot while there is one |
| KernelSearch.StartGroup | libethash-cl/CLMiner_kernel.cl:170-245 | unless the flag is up, every lane holds the mix and the top of the hash that the kernel makes of its own nonce |
| KernelSearch.MadeIsHash | libethash-cl/CLMiner_kernel.cl:203-245 | that is the CPU's hash for every work item whose pass was not disturbed, always so in the first group of a work group |
| KernelSearch.TestItem | libethash-cl/CLMiner_kernel.cl:244-255 | the end of a work item does to the buffer what its test calls for |
| KernelSearch.Launch | libethash-cl/CLMiner_kernel.cl:170-256 | a launch of the emitted program, under every order of events and every end of the passes in local memory, leaves in the buffer what those events make of the hashes |
| KernelSearch.MeetingItemMissed | libethash-cl/CLMiner_kernel.cl:173-255 | a work item whose hash meets the full boundary is missing if and only if its group began with the flag up or the slots were taken |
| DeviceSearch.LoadEpoch | libethash-cl/CLMiner.cpp:730-866 | for every epoch the generated and cached dataset is the one the agreement of kernel and CPU needs if and only if its addresses fit, so for every epoch up to 8064 |
| DeviceSearch.BoundFits | libprogpow/ProgPow.cpp:128-129 | the bound on an epoch's items keeps addresses within 32 bits exactly up to epoch 8064 |
| DeviceSearch.SearchEpoch | libethash-cl/CLMiner.cpp:315-411 | from epoch, block, header, nonce and target to the buffer, the device reports what the CPU's hashes call for if no pass is disturbed |
| KernelSearch.SubmitProof | libethcore/Farm.cpp:497-507 | the farm passes a nonce on exactly when its hash meets the boundary, with a mix that verify accepts |
| WordValues.AndDigits | libprogpow/ProgPow.cpp:264 | the conjunction of two numbers has a one exactly where both have one |
| FastMod.SingleBit | libprogpow/ProgPow.cpp:264 | d & (d - 1) is zero exactly for powers of two |
| FastMod.RoundedDown | libprogpow/ProgPow.cpp:274-278 | with the increment the rounded-down reciprocal gives the exact quotient |
| FastMod.RoundedUp | libprogpow/ProgPow.cpp:279-283 | the rounded-up reciprocal gives the exact quotient |
| FastMod.CalculateFastModData | libprogpow/ProgPow.cpp:262-285 | for every nonzero 32-bit divisor the data fit 32 bits, no 64-bit product overflows and fast_mod is the remainder of every 32-bit number |
| Primes.IsOddPrime | libethash/primes.c:9-22 | odd trial division up to the square root decides primality |
| Primes.FindLargestPrime | libethash/primes.c:24-43 | terminates with the greatest prime not above the bound, and with 0 below 2 |
| Primes.LightCacheNumItems | libethash/ethash.cpp:390-403 | for every int epoch the greatest prime not above the bound, and an overflow exactly below -1048576 and above 1048447 |
| Primes.FullDatasetNumItems | libethash/ethash.cpp:405-418 | for every int epoch the greatest prime not above the bound, twice which fits 32 bits, and an overflow exactly below -32768 and above 32639; at least 1280023 from epoch 0 on |
| Primes.BoundsFit | libethash/ethash.cpp:400-416 | both bounds fit a 32-bit int exactly for epochs -32768 to 32639 |
| Primes.LeastItemsIsPrime | libethash/primes.c:24-43 | 1280023 is prime, which bounds every count of dataset items from below |
| Dataset.Keccak512Gpu | libethash-cl/CLMiner_kernel.cl:500-509 | the 512-bit hash of a node is the kernels' single padded block |
| Dataset.ItemState.Update | libethash/ethash.cpp:198-204 | mixes in the parent that the round selects, by the fnv1 that WordValues.Fnv1Means fixes |
| Dataset.CalculateItem512 | libethash/ethash.cpp:209-215 | an item is 256 parents mixed in by that fnv1 between two hashes |
| Dataset.CalculateItem2048 | libethash/ethash.cpp:235-251 | the interleaved computation gives four consecutive 512-bit items |
| Dataset.EpochContext.constructor | libethash/ethash.cpp:131-172 | a new context is valid: the L1 words are the first items, and every item that looks computed is right |
| Dataset.EpochContext.Lookup | libethash/progpow.cpp:299-312 | returns the item with the index; items that looked computed are kept, all that look computed are right, and the L1 words do not change |
| DagKernels.HashNodeCl | libethash-cl/CLMiner_kernel.cl:500-509 | the OpenCL hash of a node is the 512-bit Keccak hash of its bytes |
| DagKernels.HashNode | libethash-cuda/CUDAMiner_cuda.cu:73-84 | the CUDA hash of a node is the 512-bit Keccak hash of its bytes |
| DagKernels.ClItem | libethash-cl/CLMiner_kernel.cl:518-540 | a work item writes the dataset item of its node, and nothing past the end |
| DagKernels.ClLaunch | libethash-cl/CLMiner.cpp:854-856 | a launch writes the items of its nodes that are in the DAG and no others |
| DagKernels.ChunkStep | libethash-cl/CLMiner.cpp:847-857 | the chunk loop goes on exactly while a whole chunk is left, its unsigned difference wrapping around when there are fewer items than that |
| DagKernels.GenerateDagCl | libethash-cl/CLMiner.cpp:836-866 | for every admitted group size and every dataset of an epoch the launches write every item, each once and in order |
| DagKernels.MixQuad | libethash-cuda/CUDAMiner_cuda.cu:116-136 | exchanging parent rows in a quad mixes each thread's own parent into its own node |
| DagKernels.QuadItems | libethash-cuda/CUDAMiner_cuda.cu:108-138 | a quad computes the four dataset items of its nodes |
| DagKernels.WriteQuad | libethash-cuda/CUDAMiner_cuda.cu:140-151 | the transposed stores write the four nodes, those in the DAG only |
| DagKernels.CudaLaunch | libethash-cuda/CUDAMiner_cuda.cu:100-152 | a launch writes the items of its nodes that are in the DAG and no others |
| DagKernels.GenerateDagCuda | libethash-cuda/CUDAMiner_cuda.cu:154-176 | the launches write every item of the DAG, each once and in order |
| Epochs.CalculateEpochSeed | libethash/ethash.cpp:382-388 | the seed is the epoch-th iterate of Keccak-256 on zero |
| Epochs.Keccak256Bytes | libethash/keccak.c:97-102 | the hash of 32 bytes at the digest size 256, through the streaming hash |
| Epochs.BytesAndLanes | libethash/keccak.c:97-102 | the bytes of a hash, read as little-endian lanes and split again, are the hash |
| Epochs.EpochFinder.FindEpochNumber | libethash/ethash.cpp:57-97 | the cache stays the seed of its epoch; an answer matches and is cached; -1 exactly if neither cached, next nor scanned epochs match |
| Epochs.FindAll | libethash/ethash.cpp:57-97 | over every call sequence, answers below 30000 are those of the plain scan when first words are distinct |
| Nonces.PrintOfRead | libdevcore/CommonData.h:168-176 | printing the value of hex digits gives them back in lower case |
| Nonces.ReadOfPrint | libdevcore/CommonData.h:168-176 | reading the printed digits of a number gives it back |
| Nonces.DigitsStandFor | libpoolprotocols/stratum/EthStratumClient.cpp:704-705 | which characters are digits in base 16 and what each stands for |
| Nonces.StoulReads | libpoolprotocols/stratum/EthStratumClient.cpp:705 | of white space, a sign, a prefix, digits and a rest the digits are read, from 2^64 down after a minus; without digits stoul throws |
| Nonces.Spelling | libpoolprotocols/stratum/EthStratumClient.cpp:705 | every string is spelled so |
| Nonces.ProcessExtranonce | libpoolprotocols/stratum/EthStratumClient.cpp:700-706 | for every string: hex digits become the leading digits of a nonce, those past the 16th are dropped but counted, and it throws exactly if no digit follows the spaces and the sign |
| Nonces.SetWork | libethcore/Farm.cpp:218-236 | each miner starts at the start nonce plus its index times the segment |
| Nonces.SegmentsDisjoint | libethcore/Farm.cpp:232-236 | no nonce belongs to two segments, wherever the first begins |
| Nonces.SegmentsInside | libethcore/Farm.cpp:218-236 | with an extranonce all segments lie in the range it leaves open, and its digits lead every nonce |
| Nonces.Submitted | libpoolprotocols/stratum/EthStratumClient.cpp:1617-1631 | extranonce and submitted suffix are the nonce in hexadecimal, exactly if the extranonce has no capitals |
| Nonces.SubmissionFails | libpoolprotocols/stratum/EthStratumClient.cpp:1622 | for every nonce and extranonce the submission throws if and only if the 16-bit size is above 16 |
| Nonces.OnlyLowerComesBack | libpoolprotocols/stratum/EthStratumClient.cpp:1617-1631 | whatever the nonce, only an extranonce of at most 16 lower-case hex digits comes back |
| CudaStreams.RunPass | libethash-cuda/CUDAMiner.cpp:522-584 | a pass collects one batch of every stream, adds their nonces as CudaStreams.SolutionsInOrder says, and relaunches exactly the streams before the first stop, none if it began done |
| CudaStreams.Search | libethash-cuda/CUDAMiner.cpp:483-596 | in every run launches are consecutive batches; a nonce is submitted if and only if it is (start + i * batch + gid) mod 2^64 for one of the first four work items reported of a collected batch i, in the order of batches and reports; the batches lost are none after new work or a pause and otherwise those the last pass launched before the stop |
| CudaStreams.SolutionsInOrder | libethash-cuda/CUDAMiner.cpp:572-582 | the submitted nonces batch by batch: their number, their order and the work item each stands for |
| CudaStreams.Submitted | libethash-cuda/CUDAMiner.cpp:572-582 | which nonces are submitted, if and only if |
| CudaStreams.BatchesDisjoint | libethash-cuda/CUDAMiner.cpp:485-501 | batches never share a nonce until the nonce space is used up |
| ClWorkLoop.Prepare | libethash-cl/CLMiner.cpp:341-396 | a package changes the program, the dataset or the arguments, one of them a turn |
| ClWorkLoop.RunTurn | libethash-cl/CLMiner.cpp:315-435 | a turn reports what was read with the work of the launch that found it, and fails on a count above the slots or a kernel without arguments |
| ClWorkLoop.WorkLoop | libethash-cl/CLMiner.cpp:315-435 | in every run the solutions submitted are those of the launches that found them, with that launch's work and start nonce |
| ClWorkLoop.Attributed | libethash-cl/CLMiner.cpp:412-427 | whatever is submitted, some launch has found |
| ClWorkLoop.LaunchesAreTold | libethash-cl/CLMiner.cpp:341-408 | the packages alone tell which turns launch, with the program of which period and which package's element count, and with which dataset |
| ClWorkLoop.PeriodsAlwaysFit | libethash-cl/CLMiner.cpp:341-408 | in every run, whatever the order of the packages, every launch runs its period's program if equal headers mean equal blocks |
| ClWorkLoop.PeriodsFitExactly | libethash-cl/CLMiner.cpp:353-373 | without that assumption, every launch runs its period's program if and only if no turn repeats the header launched last while another period is loaded |
| ClWorkLoop.ElementsFitExactly | libethash-cl/CLMiner.cpp:894-900 | every launch has its dataset's element count if and only if no turn launches a package with another count than the one compiled for |
| ClWorkLoop.DagsFitExactly | libethash-cl/CLMiner.cpp:375-381 | every launch reads its epoch's dataset if and only if no turn launches a package of another epoch than the one generated last |
| ClWorkLoop.RepeatEndsExactly | libethash-cl/CLMiner.cpp:341-408 | a package with the header launched last ends the loop if and only if a program was loaded since, and is launched otherwise |
| ClWorkLoop.OverfullEnds | libethash-cl/CLMiner.cpp:318-324 | a launch that counted more than fifteen hits ends the loop in the next turn |
| ClWorkLoop.NoncesAdvance | libethash-cl/CLMiner.cpp:387-433 | launches of one header cover consecutive nonces from the package's start nonce on |
| ClWorkLoop.SkipIsForGood | libethcore/Miner.cpp:36-60 | after a change of epoch for which there was no room no turn launches |
| ClWorkLoop.OrderlyFits | libethash-cl/CLMiner.cpp:341-396 | packages that come in order never lead to a wrong dataset or a refused launch |
| ClWorkLoop.StaleElements | libethash-cl/CLMiner.cpp:375-381 | two packages in order for which the loop launches with the element count of another epoch |
| ClWorkLoop.StaleDataset | libethash-cl/CLMiner.cpp:341-381 | two packages of one period for which the first, coming back, is launched on the dataset of the second |
| ClWorkLoop.OneHeaderTwoBlocks | libethash-cl/CLMiner.cpp:341-373 | two packages with one header and different periods, of which the second is launched with the program of the first |
| ClWorkLoop.OldHeaderEnds | libethash-cl/CLMiner.cpp:353-408 | two packages of different periods for which the loop ends |
| Worker.RunKeeps | libdevcore/Worker.cpp:31-120 | what every interleaving keeps, of state, thread and lock holder together |
| Worker.StoppedIsOutside | libdevcore/Worker.cpp:70-109 | Stopped means outside workLoop, and after stopWorking returns the loop does not run until the next start |
| Worker.KillingIsSeen | libdevcore/Worker.cpp:46-80 | once set, Killing is what the outer loop sees at its next test |
| Worker.StartIsTaken | libdevcore/Worker.cpp:84-86 | startWorking returns only when the thread has taken notice |
| Worker.KilledExits | libdevcore/Worker.cpp:111-120 | the destructor waits for at most six steps of the thread, returns exactly when it has exited, and leaves none |
| Worker.StartReturns | libdevcore/Worker.cpp:84-86 | startWorking returns exactly when the state is not Starting, and waits for at most four steps of the thread |
| Worker.StartSucceeds | libdevcore/Worker.cpp:46-86 | whatever else happens while startWorking waits, the thread's next steps, exactly as many as counted, lead it into workLoop with the state Started |
| Worker.AskedToStop | libdevcore/Worker.cpp:88-120 | a request to stop leaves Stopping exactly where it finds Started and its exchange does not fail; the destructor always tells the loop |
| Worker.ToldToStop | libdevcore/Worker.h:65 | while workLoop runs, shouldStop is false until somebody asks and true from then on |
| Worker.QuietRecords | libdevcore/Worker.cpp:98-109 | the history variable records exactly that a stopWorking has returned and no startWorking has begun since |
| Worker.StopReturns | libdevcore/Worker.cpp:98-109 | stopWorking returns exactly when the state is Stopped, and waits for at most the return of workLoop and one more step |
| Worker.SpuriousFailure | libdevcore/Worker.cpp:48-50 | one spurious failure of the thread's exchange loses both safety properties |
| Stratum.Connection.OnConnected | libpoolprotocols/stratum/EthStratumClient.cpp:469-587 | keeps the invariant and gives back no try; a confirmed mode stays, and afterwards a mode is under test, confirmed or given up |
| Stratum.Connection.OnResponse | libpoolprotocols/stratum/EthStratumClient.cpp:779-992 | never moves the mode; confirms only a mode under test and never on an error, and gives up only a confirmed one |
| Stratum.Connection.OnFinalize | libpoolprotocols/stratum/EthStratumClient.cpp:244-267 | connects anew exactly when it lowers the mode, which spends a try; a connection that answered and is not tried again is confirmed or given up |
| Stratum.Connection.Serve | libpoolprotocols/stratum/EthStratumClient.cpp:244-267 | under any sequence of events the handlers connect anew at most three times |
| Stratum.FinalizeLowers | libpoolprotocols/stratum/EthStratumClient.cpp:244-267 | each autodetecting finalize strictly lowers a mode of at most 3, or gives up at mode 0 |
| Stratum.AutodetectionEnds | libpoolprotocols/stratum/EthStratumClient.cpp:244-267 | in every run there are at most four of them, after which the connection is confirmed or given up |
| Stratum.ConfirmationIsEarned | libpoolprotocols/stratum/EthStratumClient.cpp:579-992 | a mode becomes confirmed if and only if a version is named or an answer without error fits the mode under test, and exactly what gives a connection up |
| Stratum.ModesInTurn | libpoolprotocols/stratum/EthStratumClient.cpp:244-267 | the autodetection tests modes 3, 2, 1 and 0 in turn: the mode is 3 less the tries so far |
| Stratum.ConfirmedStays | libpoolprotocols/PoolURI.h:76-85 | a confirmed mode never changes and a connection given up stays so |

## Left out

- The older Ethash hash, verify and search and the 1024-bit view of the lazy dataset: the same lookup once more, without the program.
- build_light_cache: the theorems hold for every light cache, so how it is filled is not modelled.
- The text that getKern puts around the statements, its type definitions and the regular expressions that insert it.
- Fences and wavefronts: the lanes of a group run in lock step and read the abort flag together; the groups of a work group disturb each other only where no barrier separates them, at the end of a pass.
- The rotations of the OpenCL kernel in NVIDIA assembly and AMD intrinsics: only the portable one is modelled.
- KernelSearch.Launch: the counter does not wrap at 2^32 and the hash counter is left out; what group 0 writes over an address is arbitrary, not its own lane hashes.
- ProgPowHash.Verify: on a full context the model looks items up through the lazy dataset, where the source recomputes them; the result is the same.
- Dataset.EpochContext.Lookup: calls are sequential; two threads that fill the same item are not modelled.
- Epochs.EpochFinder.FindEpochNumber: the epoch number does not overflow.
- Nonces.ProcessExtranonce: an unsigned long has 64 bits, so that 16 digits are never out of range.
- Nonces.SetWork: the logarithm in floating point is the integer one it denotes; the shuffle of the random start is left out.
- KernelSearch.SubmitProof: with evaluation turned off the farm passes solutions on unchecked.
- ClWorkLoop.WorkLoop: a compilation succeeds and has the element count of the package in whose turn it starts, and the farm's epoch context is that of the package; a pause and the farm's next package do not cross.
- CudaStreams.Search: the product of grid, block and stream counts fits 32 bits; kernels for other periods are left out.
- Worker.RunKeeps: steps interleave as if memory were sequentially consistent, and one caller at a time holds the lock.
- Stratum.Connection.OnConnected: sockets, resolution, timers and JSON are events; timeouts appear as error responses.
- Hardware monitoring, statistics, the API server, the command line, TLS and logging.
