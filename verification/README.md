# KawPow miner: model and proofs

KawPow (ProgPoW, EIP-1057, "Specification" section, over an Ethash DAG, Appendix J of the Ethereum
Yellow Paper) exists in this miner in three forms that must agree: a random program drawn for each
period, a sequential interpreter of that program on the host, and a shader whose text is rendered
from it and which 16 lanes execute together. This project models the three forms and proves that
they compute the same hash; it also models what feeds them: keccak-f800, the Ethash sizes, light
cache and DAG, the pool's target and nonce region, the disk cache, and the miner's epoch and period
state.

## How it is laid out

Words are naturals below 2^32; bit operations are recursions over binary digits, and every wrap,
truncation and rotation is written out. Code that changes state is modelled by methods, classes and
arrays, each proved against a function; what the source promises is then proved about the function.

| files | what they hold |
|---|---|
| `Arith`, `Bits`, `Words`, `WordLaws`, `Options`, `Arrays` | division facts, binary digits, 32-bit arithmetic, what its operations compute, optional values, copying |
| `Keccak`, `KeccakInPlace`, `KeccakPermutation` | keccak-f800 after FIPS 202, the in-place round, invertibility |
| `Kiss99`, `ProgPow`, `ProgramStructure`, `Interpreter`, `Entropy` | the generator, the program, its structure, its sequential meaning, and that no step forgets its inputs |
| `Glsl`, `GlslText`, `Render`, `GlslExec` | lexer, C-precedence parser, the renderer, execution of the parsed text |
| `Hash`, `Reference` | the hash as a function; the host's loops over arrays |
| `Simt`, `Shader`, `ShaderFills`, `Refinement` | lanes at their own pace, the shader's `main`, the refinement |
| `Preload`, `Slots`, `Search`, `Agreement` | shared-memory preload, result slots, a whole dispatch, GPU against host |
| `Sizing`, `Ethash`, `LightCache`, `DagGeneration`, `DagAccess` | sizes, light cache, memoised rows, GPU generation, bounds |
| `Target`, `Nonces`, `Stratum` | long division, nonce scheduling, the pool client |
| `CacheFiles`, `CacheLog`, `DagCache`, `DagStream` | file names and headers, directory histories, the cache, streamed DAGs |
| `Miner`, `Mining` | the epoch and period state over runs of jobs; one dispatch from set-up to shares |

The chain of main results: `Render.LoopTextParses` (the rendered text parses to the program's
statements), `GlslExec.PrivateRun` (those statements do what the interpreter does),
`Simt.Confluence` (interleavings do not matter), `Refinement.ShaderRefinesHash` (every lane ends with
the hash of its own nonce), `Reference.ComputeHash` (the host's loops compute that hash too),
`Agreement.GpuAgreesWithHost` and `Search.DispatchIsSound` (what the host reads back from runs of the
shader passes its own recheck), and `Mining.SharesOfDispatch` (with the kernel that `Miner.Serve` binds
and the batches that `Nonces.MineJob` schedules, every share also carries the pool's prefix).

## Where the code and its promises part

* `difficulty_to_target` documents 2^256 / difficulty. The 128-bit remainder register loses its top
  digit for divisors above 2^127, and the result is then zero: the quotient is met if and only if
  the difficulty is at most 2^127 (`Target.DivisionExactIff`). The compare value handed to the GPU is
  floor(2^64 / d) all the same (`Target.BoundaryOfDifficulty`). Difficulty 0 and 1 give the largest
  target; the Python twin divides by zero for a difficulty in (0, 1).
* The mining loop is meant to stay inside the extranonce region. Rounding up to whole workgroups
  included, every nonce of every run does so if and only if the last place where a batch can start
  leaves room for the rounded batch (`Nonces.RegionSafeIff`); with batches of whole workgroups that is
  a batch no larger than the region (`Nonces.WholeBatchesIff`).
* Calibration is meant to give whole workgroups. It does so whatever it measures if and only if the
  workgroup size divides 2^32 (`Nonces.AlwaysWholeIff`). A suggestion of 4294967328 with workgroups of
  96 gives a batch of 32, of which each dispatch hashes 96; one of 2^32 with workgroups of 256 gives a
  batch of 0 (`Nonces.SpoiledSuggestions`).
* An extranonce of more than 16 digits makes `64 - extranonce_bits` underflow, and there is no run
  (`Nonces.MineJob`); up to 16 digits the region condition above applies.
* A reconnection drops the old job so as not to mine with the old prefix, but keeps the old extranonce.
  The current job carries an extranonce of this session if and only if a readable one came in this
  session before the job's notify (`Stratum.JobOfSessionIff`); in `Stratum.StaleExtranonce` the notify
  comes first.
* Every word of the DAG is addressed by the generation shader if and only if the DAG has at most
  2^32 words (`DagGeneration.AllWordsReached`).
* When DAG generation fails, the new buffer stays under the old epoch's name, and a following job of
  that older epoch is accepted on it (`Miner.StaleBuffer`). Over all runs an accepted epoch holds its
  DAG whenever the last set-up that was not skipped did not end with a failed generation; if it did,
  then only where the memory happens to hold the same words (`Miner.VulkanMiner.EnsureEpoch`).
* The fifteen input words are said to spell RAVENCOINKAWPOW; the first is a lower-case r
  (`Hash.RavencoinSpells`).
* `is_prime` is exact except that `i * i` overflows 64 bits for the primes from (2^32 - 1)^2 on, and
  for no other number (`Sizing.IsPrime`); no quotient of a size comes near them.

## Model

| member | source | states |
|---|---|---|
| KeccakInPlace.ThetaInPlace | rust/src/keccak.rs:28-39 | the two in-place loops are theta of FIPS 202, section 3.2.1 |
| KeccakInPlace.RhoPiInPlace | rust/src/keccak.rs:40-47 | the 24-step walk with one temporary is pi after rho, sections 3.2.2 and 3.2.3 |
| KeccakInPlace.ChiInPlace | rust/src/keccak.rs:48-58 | the row loops are chi, section 3.2.4 |
| KeccakInPlace.KeccakF800Round | rust/src/keccak.rs:26-61 | a round in place is iota, chi, pi, rho, theta at lane width 32 |
| KeccakInPlace.KeccakF800InPlace | rust/src/keccak.rs:64-68 | 22 rounds in place |
| Keccak.PilnIsWalk | rust/src/constants.rs:40-44 | the PILN table is the lane walk of rho, which closes after 24 steps |
| Keccak.RotcIsTriangular | rust/src/constants.rs:35-39 | the ROTC entries are the triangular offsets of rho, taken mod 32 |
| Keccak.RndcFromLfsr | rust/src/constants.rs:28-33 | each round constant is produced by the shift register of algorithm 5 at lane width 32 |
| Keccak.RoundCount | rust/src/keccak.rs:13-13 | 12 + 2l rounds for lanes of 2^l = 32 bits, section 3.3 |
| KeccakPermutation.ThetaInvertible | rust/src/keccak.rs:28-39 | theta has a two-sided inverse |
| KeccakPermutation.RhoPiInvertible | rust/src/keccak.rs:40-47 | rho and pi have a two-sided inverse |
| KeccakPermutation.ChiInvertible | rust/src/keccak.rs:48-58 | chi has a two-sided inverse |
| KeccakPermutation.RoundInvertible | rust/src/keccak.rs:26-61 | so has the whole round |
| KeccakPermutation.KeccakF800IsPermutation | rust/src/keccak.rs:64-68 | keccak-f800 permutes the 25-word states |
| Kiss99.Generator.NextU32 | rust/src/progpow.rs:51-60 | a draw moves the four fields to the next KISS99 state and returns its output |
| Kiss99.CarrySteps | rust/src/progpow.rs:52-53 | z and w step as multiply-with-carry generators: division by 2^16 modulo 36969 * 2^16 - 1 and 18000 * 2^16 - 1 |
| Kiss99.ShiftRegister | rust/src/progpow.rs:55-57 | digit by digit, the three steps of jsr add the digits 17, 13 and 5 places away |
| Kiss99.Congruential | rust/src/progpow.rs:58-58 | jcong steps under the conditions of full period, and a step can be undone |
| Kiss99.SeedsTell | rust/src/progpow.rs:70-82 | the four FNV-1a values tell the four words that seed the generator |
| ProgPow.BuildProgram | rust/src/progpow.rs:70-142 | the generator loop yields the program defined draw by draw |
| ProgPow.ShuffleOrders | rust/src/progpow.rs:84-96 | the interleaved in-place loops are two Fisher-Yates shuffles, of the even and the odd draws, each step exchanging place i with a draw mod i + 1 |
| ProgramStructure.ShuffledIsPermutation | rust/src/progpow.rs:84-96 | every shuffle is a permutation of the 32 registers |
| ProgramStructure.EveryOrderReached | rust/src/progpow.rs:84-91 | every permutation of the 32 registers is the shuffle of some draws, and of one sequence of choices (draw mod i + 1) only |
| ProgramStructure.IdentityReached | rust/src/progpow.rs:84-91 | draws that are i mod i + 1 leave the registers in order |
| ProgramStructure.SourcesBijective | rust/src/progpow.rs:106-124 | the source draw is a bijection onto ordered pairs of different registers, with its inverse |
| ProgramStructure.DestsOfProgram | rust/src/progpow.rs:98-142 | destinations of any program walk the shuffled order |
| ProgramStructure.ProgramShape | rust/src/progpow.rs:98-142 | one DAG load first, cache and math operations, four DAG merges last |
| ProgramStructure.KawPowWritesEveryRegister | rust/src/constants.rs:11-17 | with the KawPow counts each register is a destination exactly once, register 0 once more |
| Entropy.MergeBijectiveInMix | rust/src/progpow.rs:286-293 | merging is a bijection of its first argument for every selector |
| Entropy.MergeBijectiveInData | rust/src/progpow.rs:286-293 | and of its second |
| Entropy.MixHashSeesEveryRegister | rust/src/reference.rs:97-118 | end states differing in one register of one lane differ in exactly one word of the mix hash |
| Glsl.ParsePrinted | rust/src/progpow.rs:167-190 | an expression written with enough parentheses parses back under C precedence |
| Glsl.Precedence | rust/src/progpow.rs:167-190 | of two operators without parentheses the first binds first exactly where C says so |
| GlslText.LexStmt | rust/src/progpow.rs:194-261 | the text of a statement lexes to its tokens, whatever follows |
| GlslText.ParsePrintedStmt | rust/src/progpow.rs:194-261 | the tokens of a statement parse back to it |
| Render.RenderLoopGlsl | rust/src/progpow.rs:194-261 | the appending loop with its two counters writes the loop text |
| Render.LoopTextParses | rust/src/progpow.rs:194-261 | for every program the text lexes and parses to the statements of its operations |
| GlslExec.GlslClzAgrees | rdna3_kawpow/shaders/progpow_search.comp.tmpl:59-60 | `clz` by findMSB counts leading zeros |
| GlslExec.GlslRotlAgrees | rdna3_kawpow/shaders/progpow_search.comp.tmpl:56-57 | shift-and-or rotation is the rotation, at amount 0 too |
| GlslExec.GlslRotrAgrees | rdna3_kawpow/shaders/progpow_search.comp.tmpl:56-57 | the same to the right |
| GlslExec.EvalMath | rust/src/progpow.rs:167-181 | evaluating the rendered math expression is `math_exec`; what the operations on both sides compute is stated by the `WordLaws` rows |
| WordLaws.PopCountCounts | rust/src/progpow.rs:282-282 | count_ones is the number of set digits |
| WordLaws.PopCountComplement | rust/src/progpow.rs:282-282 | a word and its complement share out 32 digits; 0 has none and the largest word all |
| WordLaws.ClzPlace | rust/src/progpow.rs:281-281 | leading_zeros gives the place of the highest set digit, 32 if there is none |
| WordLaws.ProductWords | rust/src/progpow.rs:266-274 | mul_hi and the wrapping product are the two words of the product |
| WordLaws.MinIsLeast | rust/src/progpow.rs:275-275 | min is a lower bound of both operands and one of them |
| Interpreter.Selectors | rust/src/progpow.rs:153-163 | operation, merge and rotation selectors as remainders by 11 and 31 and the two low digits |
| WordLaws.FnvUndone | rust/src/ethash.rs:83-85 | FNV and FNV-1a steps give back either argument from the result and the other |
| GlslExec.EvalMerge | rust/src/progpow.rs:183-190 | evaluating the rendered merge expression is `merge_exec` |
| GlslExec.ExecOp | rust/src/progpow.rs:194-261 | the statements of an operation do to the registers what the interpreter does |
| GlslExec.ExecLoads | rust/src/progpow.rs:210-227 | after the broadcast the load statements fetch the interpreter's row, in bounds |
| GlslExec.PrivateRun | rust/src/progpow.rs:299-339 | a lane's private statements compute one iteration of the interpreter |
| GlslExec.ProgramLoadsFirst | rust/src/progpow.rs:98-142 | in generated programs the load precedes every use |
| Simt.Confluence | rdna3_kawpow/shaders/progpow_search.comp.tmpl:129-199 | every finished interleaving of lanes that meet only at shuffles ends in the lockstep state |
| Simt.NoDeadlock | rdna3_kawpow/shaders/progpow_search.comp.tmpl:129-199 | an unfinished run can always go on |
| Simt.StepMakesProgress | rdna3_kawpow/shaders/progpow_search.comp.tmpl:129-199 | every event does work, so runs end |
| Shader.GlslBswapAgrees | rdna3_kawpow/shaders/progpow_search.comp.tmpl:61-64 | the masked shifts of bswap32 swap the bytes |
| ShaderFills.FirstState | rdna3_kawpow/shaders/progpow_search.comp.tmpl:147-157 | the filled array with the variant's tail is the seed state |
| ShaderFills.LastState | rust/src/shader_compiler.rs:216-234 | the filled array with the variant's statements is the lane's final state |
| Refinement.OneLoop | rust/src/progpow.rs:299-339 | one loop in lockstep is one interpreter iteration on each group of 16 lanes |
| Refinement.AllLoops | rdna3_kawpow/shaders/progpow_search.comp.tmpl:170-171 | 64 loops are 64 iterations |
| Refinement.DigestRun | rdna3_kawpow/shaders/progpow_search.comp.tmpl:174-183 | the digest shuffles leave every lane with its group's reduction |
| Refinement.OneHashRun | rdna3_kawpow/shaders/progpow_search.comp.tmpl:159-185 | iteration h computes lane h's mix hash on the whole group, and lane h alone keeps it |
| Refinement.HashesRun | rdna3_kawpow/shaders/progpow_search.comp.tmpl:159-185 | after n iterations the lanes below n hold their own mix hash |
| Refinement.NonceWords | rdna3_kawpow/shaders/progpow_search.comp.tmpl:135-137 | the two-word sum with recovered carry is start + gid mod 2^64 |
| Refinement.LockstepHashes | rdna3_kawpow/shaders/progpow_search.comp.tmpl:129-199 | in lockstep every lane ends with digest and result of its nonce |
| Refinement.ShaderRefinesHash | rdna3_kawpow/shaders/progpow_search.comp.tmpl:129-199 | so it does after every interleaving, with the loop body read from the rendered text |
| Refinement.ShaderNeverStuck | rdna3_kawpow/shaders/progpow_search.comp.tmpl:129-199 | unfinished runs of the shader go on and make progress |
| Refinement.AcceptsIff | rdna3_kawpow/shaders/progpow_search.comp.tmpl:203-205 | the two-word comparison is result <= target |
| Preload.PreloadComplete | rdna3_kawpow/shaders/progpow_search.comp.tmpl:139-145 | striped writes of all invocations, in any order, set shared memory to the first 4096 words |
| Preload.CanFinish | rdna3_kawpow/shaders/progpow_search.comp.tmpl:139-145 | any order of the writes can be continued to the end |
| Slots.ReadBack | rust/src/miner.rs:390-407 | the host reads min(count, 16) slots |
| Slots.RunKeepsInv | rdna3_kawpow/shaders/progpow_search.comp.tmpl:201-214 | what every order of the atomic steps keeps |
| Slots.CompleteRun | rdna3_kawpow/shaders/progpow_search.comp.tmpl:201-214 | slots hold whole results of different passing invocations, never stale words; hashCount is exact |
| Slots.CanFinish | rdna3_kawpow/shaders/progpow_search.comp.tmpl:201-214 | any order of the atomic steps can be continued to the end |
| Search.OutcomeIsRecheck | rdna3_kawpow/shaders/progpow_search.comp.tmpl:203-212 | after any finished run of the rendered shader over the epoch's DAG, an invocation reports the digest of the host's hash of its nonce, and passes exactly when that hash meets the target |
| Search.DispatchIsSound | rust/src/miner.rs:368-408 | what is read back after such runs are different nonces of the batch that pass the host's recheck, all of them up to sixteen |
| Mining.KernelRan | rust/src/miner.rs:342-365 | a run of a bound kernel is a run of the period's program over the epoch's DAG |
| Mining.SharesOfDispatch | rust/src/main.rs:226-243 | with the job's kernel bound and room in the region, what dispatch i reads back passes the recheck on the miner's own light cache and carries the pool's prefix |
| Reference.HeaderToWords | rust/src/keccak.rs:76-83 | the header as eight little-endian words |
| Reference.ProgpowSeed | rust/src/keccak.rs:88-103 | the array fill and permutation give the seed state; seed64 joins its first two words |
| Reference.ProgpowFinal | rust/src/keccak.rs:109-131 | the array fill and permutation give the 64-bit result, read big-endian |
| Reference.FillMixRegs | rust/src/reference.rs:28-45 | the generator loop fills the 32 registers |
| Reference.RunLoopInPlace | rust/src/progpow.rs:299-339 | updating 16 lanes in place through the memoised rows is one iteration |
| Reference.ReduceLanes | rust/src/reference.rs:97-105 | each lane's digest |
| Reference.ReduceDigest | rust/src/reference.rs:110-118 | word j reduces lanes j and j + 8 |
| Reference.Digest | rust/src/reference.rs:68-118 | 64 iterations and the reductions are the mix hash of the specification |
| Reference.ComputeHash | rust/src/reference.rs:48-125 | `hash_one` computes the specification's digest and result, and leaves the light cache valid |
| Agreement.BufferMatchesRows | rust/src/ethash.rs:233-247 | the flat buffer holds the rows and cache words the host computes |
| Agreement.GpuAgreesWithHost | rust/src/reference.rs:48-125 | every lane of every interleaving has the host's hash at nonce start + gid |
| Agreement.SelfRecheck | rust/src/main.rs:114-131 | the recheck passes exactly for the right digest and a result within the target |
| Agreement.RecheckConfirms | rust/src/main.rs:114-131 | it passes exactly what the lane accepts |
| Agreement.DagHasCache | rust/src/ethash.rs:57-72 | every epoch's DAG has the 4096 words that are preloaded |
| Agreement.PreloadIsProgpowCache | rust/src/ethash.rs:240-247 | the preload leaves what `progpow_cache` returns |
| Sizing.IsPrime | rust/src/ethash.rs:28-43 | odd trial division up to the root decides primality of every 64-bit number, except that exactly the primes from (2^32 - 1)^2 on overflow |
| Sizing.SearchDown | rust/src/ethash.rs:49-63 | the downward search ends, without underflow, at the largest prime number of rows |
| Sizing.GetCacheSize | rust/src/ethash.rs:49-55 | the largest multiple of 64 below the bound with a prime quotient |
| Sizing.GetFullSize | rust/src/ethash.rs:57-63 | the same for 128 |
| Sizing.BoundsGrow | rust/src/ethash.rs:15-20 | the bounds grow from 128 steps, of 128 KiB and of 8 MiB; the dataset's is 64 times the cache's |
| Ethash.WordsRoundTrip | rust/src/ethash.rs:88-104 | packing words to bytes and back |
| Ethash.MkCache | rust/src/ethash.rs:106-127 | three in-place rounds give the RandMemoHash recurrence, old and new items mixed as it says; what it exclusive-ors is stated by the two rows below |
| Ethash.XorBlockTwice | rust/src/ethash.rs:119-122 | exclusive-or with the same block twice changes nothing |
| Ethash.XorBlockWords | rust/src/ethash.rs:119-122 | the byte loop exclusive-ors the blocks word by word, digit by digit |
| Ethash.CalcDatasetItem | rust/src/ethash.rs:130-143 | the parent loop computes the dataset item |
| Ethash.RowsAreFlat | rust/src/ethash.rs:233-238 | word i of a row is word 4 * row + i of the flat DAG |
| Ethash.ChunksFlatten | rust/src/ethash.rs:215-221 | cutting flattened bytes gives the cache back |
| LightCaches.LightCache.constructor | rust/src/ethash.rs:159-178 | sizes and items of the epoch, an empty memo |
| LightCaches.LightCache.GetDatasetItem | rust/src/ethash.rs:223-231 | in any order of queries the memo returns the unmemoised item |
| LightCaches.LightCache.DagRow | rust/src/ethash.rs:233-238 | a row of the DAG |
| LightCaches.LightCache.ProgpowCache | rust/src/ethash.rs:240-247 | the first 4096 words of the flat DAG |
| LightCaches.FromPrecomputed | rust/src/ethash.rs:180-213 | accepts exactly the byte strings of this epoch's cache size |
| LightCaches.SaveAndReload | rust/src/ethash.rs:180-221 | flattening and reloading restores the cache |
| LightCaches.SizesUnique | rust/src/ethash.rs:49-63 | an epoch has one cache size and one full size |
| DagGeneration.Dispatch | rdna3_kawpow/shaders/ethash_dag.comp:76-95 | invocations that start in any order and interleave their stores write exactly the items of the chunk; beyond the last item they write nothing |
| DagGeneration.GenerateDag | rust/src/miner.rs:289-318 | for all durations the loop submits exactly the planned dispatches, and every word of the DAG is written |
| DagGeneration.ChunkAt | rust/src/miner.rs:294-308 | the chunk is always a power of two from 2^12 to 2^19 |
| DagGeneration.FastDoubles | rust/src/miner.rs:304-308 | while dispatches take less than 0.12 s the chunk doubles from 2^12 up to 2^19 |
| DagGeneration.SlowHalves | rust/src/miner.rs:304-308 | after one above 0.30 s it is half of what it was, or the smallest |
| DagGeneration.PlanCovers | rust/src/miner.rs:296-303 | the planned dispatches cover every item |
| DagGeneration.PlanTiles | rust/src/miner.rs:296-303 | each starts where the one before ended and runs its chunk whole; only the last rounds up, within a chunk |
| DagGeneration.FlattenUploads | rust/src/miner.rs:273-279 | the uploaded bytes read as words are the light cache |
| DagGeneration.AllWordsReached | rdna3_kawpow/shaders/ethash_dag.comp:93-94 | every word is addressed if and only if the DAG has at most 2^32 words |
| DagAccess.RowsOfOneLoop | rust/src/progpow.rs:310-316 | rows are in bounds, untruncated, and the 16 lanes read each row of one aligned block once |
| DagAccess.DatasetShape | rust/src/ethash.rs:57-72 | the full size is 128 * (2 * dag_elements + 1), so rows that are read exist |
| DagAccess.IndicesFit | rust/src/progpow.rs:310-316 | no truncation up to epoch 8064 (rows) and 1920 (words) |
| Target.StepOfDivision | rust/src/stratum.rs:37-54 | a step keeps remainder and quotient of the longer dividend |
| Target.Div2Pow256By | rust/src/stratum.rs:37-54 | the big-endian quotient up to 2^127, zero beyond |
| Target.DivisionExactIff | rust/src/stratum.rs:37-54 | exact if and only if the divisor is at most 2^127 |
| Target.DifficultyToTarget | rust/src/stratum.rs:25-35 | all ones for 0 and 1, else the long division |
| Target.Boundary64IsTop | rust/src/stratum.rs:69-71 | the eight leading bytes are the quotient by 2^192 |
| Target.BoundaryOfDifficulty | rdna3_kawpow/stratum.py:26-40 | the compare value of every difficulty d above 1 is floor(2^64 / d), and the largest value for 0 and 1 |
| Nonces.StartNonceSplits | rust/src/stratum.rs:132-145 | for prefixes of up to 64 bits start_nonce is the prefix's base plus the salt within the span |
| Nonces.Calibrate | rust/src/miner.rs:412-443 | at most twelve doublings, stopping at the first slow dispatch; by the last time per hashed nonce, the batch takes at most 0.20 s or is one workgroup, and one workgroup more takes longer than that for suggestions below 2^32 |
| Nonces.CalibratedInTime | rust/src/miner.rs:432-436 | a calibrated dispatch is expected within the target time, unless it is a single workgroup; and a workgroup more is not, for suggestions below 2^32 |
| Nonces.SuggestedFills | rust/src/miner.rs:432-433 | one nonce more than suggested takes longer than the target, unless the conversion saturates |
| Nonces.SafeBatchLeast | rust/src/miner.rs:434-435 | rounding a suggestion below 2^32 loses less than a workgroup, and only raises it to one |
| Nonces.DoublingsAre | rust/src/miner.rs:413-430 | the measured batches are 2^13, 2^14 and so on |
| Nonces.AlwaysWholeIff | rust/src/miner.rs:432-436 | the calibrated batch is whole workgroups for every measurement exactly when the workgroup size divides 2^32 |
| Nonces.SpoiledSuggestions | rust/src/miner.rs:432-436 | two measurements for which it is not, or is empty |
| Nonces.HashedMultiple | rust/src/miner.rs:382-382 | rounding up to workgroups adds nothing to whole workgroups |
| Nonces.HashedIsLeast | rust/src/miner.rs:382-382 | the invocations are the least whole number of workgroups that covers the batch |
| Nonces.MineJob | rust/src/main.rs:210-233 | the loop's dispatches, for any batch and any random numbers; none where the prefix has more than 64 bits |
| Nonces.EverySaltDrawn | rust/src/main.rs:214-222 | a random number draws its remainder by the room that the batch leaves, so every place is drawn |
| Nonces.RegionSafeIff | rust/src/main.rs:210-233 | every hashed nonce of every run carries the prefix exactly when the last place a batch can start leaves room for it |
| Nonces.WholeBatchesIff | rust/src/main.rs:210-233 | with whole workgroups each single run is inside exactly when a batch fits |
| Nonces.BatchesDisjoint | rust/src/main.rs:226-233 | between two draws batches follow at distance `batch`, and are disjoint exactly when rounding leaves room |
| Stratum.ExtranonceFits | rust/src/stratum.rs:447-458 | an extranonce fits four bits a character |
| Stratum.AnnouncedRegion | rust/src/stratum.rs:447-458 | a prefix of up to 64 bits announced as hexadecimal digits, with 0x before them or not, is the region of that prefix, four bits a digit |
| Stratum.Client.OnResponse | rust/src/stratum.rs:420-445 | an answer settles its request once; shares sent are accepted, rejected or open |
| Stratum.JobIffAnnounced | rust/src/stratum.rs:205-228 | there is a current job exactly when a notify came since the last connection |
| Stratum.JobOfSessionIff | rust/src/stratum.rs:205-228 | it carries an extranonce of this session exactly when a readable one came before its notify in this session |
| Stratum.StaleExtranonce | rust/src/stratum.rs:460-499 | a history in which the job of the new session carries the old prefix |
| CacheFiles.NameInjective | rust/src/dagcache.rs:125-128 | a file name tells its key |
| CacheFiles.NameExample | rust/src/dagcache.rs:125-128 | two names spelled out |
| CacheFiles.ListedIff | rust/src/dagcache.rs:130-145 | pruning lists exactly the files of its kind and variant |
| CacheFiles.TmpIsApart | rust/src/dagcache.rs:86-94 | a temporary file is never listed, never read, and its own key's |
| CacheFiles.HeaderAcceptedIff | rust/src/dagcache.rs:48-76 | a header is accepted if and only if it is the one packed for key, seed and length |
| CacheFiles.HeaderTells | rust/src/dagcache.rs:48-76 | packed for one key and seed, it is accepted exactly where kind, epoch, parents and seed agree; the variant is only in the file name |
| CacheFiles.FieldsOf | rust/src/dagcache.rs:48-57 | the offsets of the six fields |
| CacheFiles.LowByteFirst | rust/src/dagcache.rs:48-57 | numbers are stored low byte first |
| CacheLog.LegalKeeps | rust/src/dagcache.rs:79-111 | over every history a present file is the whole of its last committed save |
| CacheLog.ReadFindsLastCommit | rust/src/dagcache.rs:154-179 | after every history a load finds exactly the last committed payload for its seed, else nothing |
| CacheLog.CutSave | rust/src/dagcache.rs:100-105 | a save that dies before its rename changes no load |
| DagCache.Writer.WriteAll | rust/src/dagcache.rs:96-98 | bytes are handed over; some may already be in the temporary file |
| DagCache.Writer.Commit | rust/src/dagcache.rs:100-105 | the file appears whole or not at all |
| DagCache.SaveLight | rust/src/dagcache.rs:164-179 | what a save may change, under any failing calls; when none fails it is saved, of the listed files exactly the newest four stay, and if it is the newest the next load returns its payload |
| DagCache.LoadLight | rust/src/dagcache.rs:154-162 | never more than the last commit; exactly that if no call fails |
| DagCache.Prune | rust/src/dagcache.rs:130-151 | removes only listed files beyond the newest `keep`; all of those if no call fails |
| DagCache.PruneAfterCommit | rust/src/dagcache.rs:130-179 | pruning after a commit keeps the newest, so the file just saved if it is one of them |
| DagStream.WordsOfBytesOf | rust/src/miner.rs:211-269 | words written as bytes read back as the words |
| DagStream.HasDag | rust/src/dagcache.rs:182-191 | true only for a header that promises the full size |
| DagStream.LoadDag | rust/src/miner.rs:211-234 | on success the windows have filled the buffer with the file's payload |
| DagStream.SaveDag | rust/src/miner.rs:237-269 | the windows commit the buffer's bytes, or nothing; when no call fails they are committed, exactly the newest two files stay, and if it is the newest its bytes are read back |
| DagStream.PromisedIsWhole | rust/src/dagcache.rs:182-208 | after every history a promised payload is complete |
| DagStream.LoadedIsLastSaved | rust/src/miner.rs:211-269 | a loaded buffer is the last committed one |
| Miner.SavedKeepsTruth | rust/src/miner.rs:168-201 | saving an epoch's own data keeps every file true, whether or not it succeeds |
| Miner.VulkanMiner.PrepareLight | rust/src/miner.rs:139-177 | loaded, rejected or built, the light cache is the epoch's |
| Miner.VulkanMiner.FillDag | rust/src/miner.rs:184-201 | loaded or generated, the buffer holds the epoch's DAG |
| Miner.VulkanMiner.EnsureEpoch | rust/src/miner.rs:130-208 | what each outcome leaves; an accepted epoch holds its DAG exactly when the last set-up not skipped did not end without one, or memory happens to hold it |
| Miner.VulkanMiner.EnsurePeriod | rust/src/miner.rs:342-365 | when it succeeds, and that a kernel of the period is then bound to the buffer with this DAG |
| Miner.VulkanMiner.PrepareJob | rust/src/main.rs:196-203 | when both set-ups succeed, and that the kernel then bound is the job's |
| Miner.BoundIsRight | rust/src/miner.rs:342-365 | the buffer a bound kernel reads holds the epoch's DAG, and its constants are the epoch's and the period's |
| Miner.PeriodsNestIff | rust/src/miner.rs:342-365 | a period lies within one epoch, for every period, exactly when three divides the epoch length |
| Miner.Serve | rust/src/main.rs:185-257 | after every run of jobs with failing calls, the job last searched has its kernel bound to its epoch's DAG unless a failed generation was the last set-up; when generation succeeds, exactly the jobs whose allocations and compilations succeed are searched, each on the right kernel |
| Miner.StaleBuffer | rust/src/miner.rs:178-207 | a failed generation followed by a job of the older epoch: an accepted epoch without its DAG |

## Left out

- Vulkan (`rust/src/vkhost.rs`): a dispatch runs every invocation, a copy copies its range; device calls that fail are parameters.
- Compiler discovery, SPIR-V compilation and its content-hash cache: external programs.
- keccak-256 and keccak-512: keccak-512 is a function parameter of the Ethash model, and the shader's `sha3_512` is that function through the little-endian packing; the default `seed_hash` is a parameter.
- Text substitution into the shader template: only the period's loop is modelled as text; the variant fills and the fixed part of `main` are modelled by what their statements do.
- The shader's own `keccak_f800`, `kiss99` and `fill_mix` bodies: the refinement takes any permutation of states and the same generator on both sides.
- The preload barrier: the loop reads shared memory only after every invocation has left the preload, so the refinement starts from preloaded words.
- Refinement.ShaderRefinesHash: one subgroup of 32 lanes with arbitrary invocation numbers; a dispatch is many of them, which share nothing but the atomic counters of `Slots`.
- Sockets, JSON, threads, reconnect timing, keepalive, statistics, command line and URL parsing: the client's handlers take parsed fields.
- Stratum.Client: header, seed, target and height are given as parsed values, and a thread that still reads the socket of an older session is not modelled.
- Clocks and floating point: durations and file times are arbitrary parameters; a difficulty starts as the integer after truncation.
- Loss of power: a crash ends the process between two changes of the directory; reordering of unsynchronised writes is not modelled, nor are two processes writing one cache directory.
- CacheLog.ReadFindsLastCommit: the history of the directory begins with it empty.
- Benchmark mode and its uninitialised DAG; CUDA and OpenCL text.
- Collected intermediates of `hash_one`: they are copies of values already modelled.
- Miner.Serve: epochs above 1920, where the shaders' 32-bit addresses no longer reach the whole DAG, are excluded; a failed generation leaves the buffer as allocated rather than partly written.
- Agreement.GpuAgreesWithHost: needs a DAG of at most 2^32 words, the range in which the shader's word index does not wrap.
- Sizing.GetFullSize: epochs whose bounds exceed 64 bits are excluded, where the source's arithmetic overflows.
- LightCaches.LightCache.constructor: epochs whose light cache has 2^32 items or more are excluded.
- Nonces.Calibrate: exact arithmetic in place of floating point, so rounding of the quotient is not modelled.
- DagCache.Prune: file times are parameters and may be missing, equal or wrong; the listing is taken at one moment.
