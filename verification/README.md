# DeroStorm: verified models of the sort, the digest, the target and the GPU pipeline

DeroStorm mines AstroBWTv3. This project models the four pieces of it in which a wrong step would
silently produce wrong hashes or lost shares, and proves that they do what they are for:

* **The descriptor suffix sort** (`native/descriptor.c`, with its wrapper in
  `native/derostorm_sa.c`). It cuts a text into runs of 256-byte blocks, walks each run's columns right to
  left while inheriting the suffix order, packs what it finds into eight-byte descriptors whose
  lists share slices of one arena, radix sorts the descriptors, and resolves key collisions by
  merging. The specification is one line, `SuffixOrder.IsSuffixArray`; the proof goes through a
  reference walk (`NaiveWalk`, `NaiveCoverage`) that sorts every column from scratch and shares
  nothing.
* **Paired SHA-256** (`native/sha256ni.c`, `native/sha256arm.c`), against FIPS 180-4 as
  written down in `Sha256Spec`, which `Sha256KnownAnswers` ties to two published digests.
* **The 256-bit difficulty check** (`cmd/derostorm/target.go`, `difficulty.go`, and the share
  difficulty of `engine.go`): four-limb comparison against big-integer division.
* **The GPU batch pipeline** (`cmd/derostorm/gpu_worker.go`) against the queue contract of
  `gpu/derostorm_gpu.h`, and the layout of the nonce and worker tag it shares with the CPU
  threads of `engine.go`.

Each file is one module. Code that updates state in place is imperative here too: classes and
methods over arrays and fields, whose contracts tie the new contents to functions of the old ones.

| files | what they hold |
|---|---|
| `SuffixOrder`, `Keys`, `SuffixCompare` | the order, the padded keys, the word-at-a-time comparison |
| `StableOrder`, `CountingSort`, `ColumnStep`, `RadixSort` | stable sorts as permutations, and the five routines that implement them |
| `NaiveWalk`, `NaiveCoverage`, `Descriptors`, `Permutations` | the reference walk, the descriptors and the lists they stand for |
| `RunMasks`, `Emission`, `ShortRuns`, `LongRuns`, `ScratchSpace`, `Arrays` | runs, and the column walk for one, two and more blocks |
| `KeyGroups`, `Merging`, `TwoLists`, `ManyLists`, `MergeTree`, `Gathering`, `WriteOut` | key groups and the three collision routes |
| `DescriptorSort`, `RunIndependence`, `SuffixArrayLibrary` | end to end |
| `Sha256Spec`, `Sha256KnownAnswers`, `Sha256Vectors`, `Sha256Tail`, `Sha256Ni`, `Sha256Arm`, `Sha256Digest` | the standard, two known answers for it, the instructions, both block functions, and the digests on top of them |
| `BigNumbers`, `Difficulty`, `Target` | the reference check and the limb check |
| `Miniblock`, `GpuPipeline`, `PipelineRuns`, `CpuNonces` | hash inputs, the GPU worker, what holds of all its runs, the CPU nonce loops |

Three places where the code is not what its comments or its reference suggest:

* `NewTarget` keeps the magnitude of the quotient, while the reference compares with the signed
  quotient. The two agree on every hash exactly for difficulties above 0 or below -2^256
  (`Target.AgreementIsExact`). The miner rejects difficulties below 1 before either is called.
* `shareDifficulty` reports 0 for the all-zero hash, which meets every target; for every other hash
  it is the exact adjoint of the target check (`Target.ShareIsAdjointExactly`).
* `cmd/derostorm/gpu_worker.go:16-18` says no CPU thread can ever hash a GPU's input. The engine
  allows 256 threads, and thread ids 240 to 255 use the GPUs' tags
  (`Miniblock.ThreadIsClearExactly`).

## Model

| member | source | states |
|---|---|---|
| SuffixOrder.LessTotal | native/descriptor.c:632-713 | of two different positions exactly one suffix is smaller |
| SuffixOrder.LessTransitive | native/descriptor.c:632-713 | the suffix order is transitive, so with totality a strict total order |
| SuffixOrder.FirstDifferenceDecides | native/descriptor.c:556-561 | the first differing byte decides, also when it or bytes before it are zero padding past the end |
| SuffixOrder.SuffixArrayUnique | native/descriptor.c:51-57 | a text has at most one suffix array |
| Keys.Key32 | native/descriptor.c:562-578 | both the fast load and the end-of-text loop give the three padded bytes as a big-endian number |
| Keys.EKey64 | native/descriptor.c:598-611 | both branches give the eight padded bytes behind the key as a big-endian number |
| Keys.SlideIsExact | native/descriptor.c:1281-1290 | sliding one byte in gives the key one position to the left at every position, the end of the text included |
| Keys.EqualKeysSlide | native/descriptor.c:1316-1336 | keys that agree still agree after a constant prepend |
| Keys.KeyOrder | native/descriptor.c:556-561 | a strictly smaller padded key is a strictly smaller suffix |
| Keys.SortedKeysAscend | native/descriptor.c:1384-1402 | along a sorted list the keys never decrease, so one scan finds each key's positions as one stretch |
| Keys.EKeyOrder | native/descriptor.c:580-597 | within a key group a strictly smaller eight-byte key is a strictly smaller suffix |
| Keys.EqualEKeyAgree | native/descriptor.c:2033-2036 | when neither key separates two suffixes, eleven padded bytes agree |
| SuffixCompare.SuffixLessFrom | native/descriptor.c:632-708 | decides the true suffix order for every pair that agrees on `from` padded bytes, including pairs with fewer real bytes where the scan restarts at 0 |
| SuffixCompare.SuffixLess | native/descriptor.c:710-713 | decides the suffix order of any two positions |
| StableOrder.StableSortUnique | native/descriptor.c:836-840 | a stable sort by given keys has one result |
| StableOrder.DigitsCompose | native/descriptor.c:1568-1623 | a stable sort by the low digit followed by one by the high digit is a stable sort by both |
| StableOrder.PlacedPermutes | native/descriptor.c:1607-1621 | writing every element to its own slot keeps the multiset |
| CountingSort.Tally | native/descriptor.c:899-901 | one more key counted keeps the counters equal to the number of each key seen |
| CountingSort.PrefixSums | native/descriptor.c:903-908 | the running sum turns counts into the first slot of each key |
| CountingSort.Claim | native/descriptor.c:910-914 | the slot claimed for an element is its rank in the stable order, and the counters are right for the next |
| ColumnStep.RankFour | native/descriptor.c:846-863 | the unrolled four-block route sorts order and keys together, stably, by leading byte |
| ColumnStep.RankSort | native/descriptor.c:865-880 | the rank route does the same for up to sixteen blocks |
| ColumnStep.InsertionSort | native/descriptor.c:882-897 | the insertion route does the same below forty blocks |
| ColumnStep.CountingStep | native/descriptor.c:899-916 | the counting route does the same for longer runs |
| ColumnStep.ColumnStepKeys | native/descriptor.c:841-917 | whatever the number of blocks, one stable permutation by leading key byte moved order and keys together |
| ColumnStep.RoutesAgree | native/descriptor.c:836-840 | two routes on the same input leave the same order and the same keys |
| Descriptors.FieldsRoundTrip | native/descriptor.c:348-376 | key, column, offset and length come back out of a packed descriptor unchanged |
| Descriptors.ExpandFramed | native/descriptor.c:1294-1299 | appending to the arena changes no list already described, aliased slices included |
| Descriptors.FlattenPermutes | native/descriptor.c:1568-1623 | reordering descriptors keeps the multiset of positions they stand for |
| NaiveWalk.ColumnOrderIsOrder | native/descriptor.c:923-927 | the reference order of a column lists the run's blocks by their suffixes at that column |
| NaiveWalk.ColumnOrderUnique | native/descriptor.c:923-927 | a column has one such order |
| NaiveWalk.ConstantKeepsOrder | native/descriptor.c:1411-1425 | prepending one and the same byte to every suffix keeps the order |
| NaiveWalk.StableStepKeepsOrder | native/descriptor.c:830-840 | a stable re-sort by the prepended byte turns one column's order into the next one's |
| NaiveWalk.UniformColumnIsOneGroup | native/descriptor.c:1316-1324 | a column whose keys agree is one list |
| NaiveCoverage.NaiveCoversText | native/descriptor.c:59-61 | for any partition of the blocks into runs, every suffix is in exactly one list, and each list is ascending under one key |
| RunMasks.ComparePair | native/descriptor.c:1655-1675 | the candidate bitmap holds exactly the differing columns and the count is their number |
| RunMasks.ConstantExtends | native/descriptor.c:1204-1208 | a longer run agrees at a column exactly when the shorter one did and the new pair does |
| RunMasks.NextRun | native/descriptor.c:1641-1694 | the run is cut before the first pair differing in more than 160 columns or at 512 blocks, and bit c of its bitmap is clear exactly when all its blocks agree at c |
| RunMasks.RunIs | native/descriptor.c:232-234 | a run in numbers: neighbours differ in at most 160 columns, and it ends at 512 blocks, at the last block or before a block that differs in more (the loop is native/descriptor.c:1643-1692) |
| RunMasks.CutRun | native/descriptor.c:1641-1694 | without the split test, the bitmap is as exact for a run of any given length |
| RunMasks.UniformSpanStart | native/descriptor.c:979-994 | the least column from which all prepends up to r are constant |
| Emission.EmitUniformSpan | native/descriptor.c:996-1018 | the shuffled loads and the scalar tail write one descriptor per column, left to right, each with that column's true key |
| Emission.SpanIsNaive | native/descriptor.c:1316-1344 | through constant prepends the order stays, equal keys stay equal, and each column of the span is one list over the same blocks |
| Emission.ExtendsGroup | native/descriptor.c:1392-1399 | one packed descriptor over a slice adds exactly one list to what the descriptors stand for |
| ShortRuns.EmitOneBlock | native/descriptor.c:1030-1065 | one arena slot and 256 descriptors stand for the reference's lists of the run; refused exactly when 256 do not fit |
| ShortRuns.PairPrepend | native/descriptor.c:1066-1069 | unequal new bytes decide the order bit, equal bytes keep it |
| ShortRuns.PairSlide | native/descriptor.c:1147-1155 | registers slid once too often at convergence stay equal, and stand for equal true keys at the next column |
| ShortRuns.DifferingPairIsNaive | native/descriptor.c:1117-1136 | two blocks with different keys are two one-block lists in order |
| ShortRuns.EmitPairs | native/descriptor.c:1118-1155 | the register loop emits the reference's lists down to the column where it stops, writes nothing else, and leaves true keys or converged ones |
| ShortRuns.EmitTwoBlocks | native/descriptor.c:1070-1187 | the two-block path stands for the same multiset of lists as the general walk; refused exactly when 512 do not fit |
| LongRuns.SeedOrder | native/descriptor.c:1188-1202 | the insertion sort leaves the run's blocks ordered by their suffixes at the last column |
| LongRuns.WriteOrder | native/descriptor.c:930-949 | the current order lands in the arena as block indices, before it nothing changes |
| LongRuns.EmitGroups | native/descriptor.c:1384-1402 | one descriptor per maximal stretch of equal keys, into the shared slice; one stretch means all keys equal |
| LongRuns.RunSpan | native/descriptor.c:1325-1356 | the uniform branch covers exactly the columns it skips and re-derives the key from the text, whatever the key array holds |
| LongRuns.StepRun | native/descriptor.c:1471-1478 | the re-sort takes order and keys from one column to the next |
| LongRuns.EmitRunColumns | native/descriptor.c:1309-1407 | the emission half keeps the column invariant and stands for the reference's columns so far |
| LongRuns.PrependColumn | native/descriptor.c:1409-1480 | the prepend half moves the invariant one column left, stale key array or not, and says when the arena slice is out of date |
| LongRuns.EmitManyBlocks | native/descriptor.c:1188-1491 | the general walk stands for the reference's lists of the run; refused only when not all of its descriptors could fit |
| DescriptorSort.EmitRun | native/descriptor.c:1021-1491 | whichever path the block count picks, the descriptors added stand for the reference's lists |
| DescriptorSort.EmitTail | native/descriptor.c:1722-1734 | the positions past the last block get one list each, with a key slid from right to left |
| DescriptorSort.SelectRun | native/descriptor.c:1641-1694 | the next run is the one the source's discovery cuts, or the next of a given partition, with an exact bitmap either way |
| DescriptorSort.Walk | native/descriptor.c:1632-1740 | the descriptors of the whole text stand for the reference's lists over exactly the runs the discovery cuts, or over exactly a given partition; a refusal means fewer descriptors fit than the text has bytes |
| RadixSort.Histograms | native/descriptor.c:1577-1606 | one scan fills the counters of both passes |
| RadixSort.SecondHistogram | native/descriptor.c:1577-1606 | counters taken before the first pass are the right counters for the second |
| RadixSort.TwoPasses | native/descriptor.c:1607-1622 | the two scatter passes together sort stably by the low 24 bits |
| RadixSort.SortDesc | native/descriptor.c:1568-1623 | the result is back in the first array, stably sorted by the low 24 bits, the column byte ignored |
| RadixSort.SortedByKey | native/descriptor.c:1568-1623 | same descriptors, keys non-decreasing |
| KeyGroups.KeyGroupHolds | native/descriptor.c:1997-1998 | a maximal group of equal keys holds exactly the positions with that key |
| KeyGroups.GroupFits | native/descriptor.c:1842-1845 | the next group always fits into what is left of the array |
| KeyGroups.GroupAppends | native/descriptor.c:1754-1758 | a sorted group behind sorted smaller keys keeps the prefix sorted |
| KeyGroups.CompleteIsSuffixArray | native/descriptor.c:2195 | all groups written is the suffix array |
| Merging.Precedes | native/descriptor.c:2058-2059 | eight-byte keys first, full comparison on a tie: the true order |
| Merging.TakeFirst | native/descriptor.c:2060-2076 | taking the head that does not lose keeps the output sorted and below both heads |
| Merging.InsertSorts | native/descriptor.c:2128-2145 | one insertion round extends the sorted prefix |
| TwoLists.StoreList | native/descriptor.c:1852-1978 | whole and masked vector stores append exactly the list and write no word behind it |
| TwoLists.StoreListScalar | native/descriptor.c:1979-1991 | the four-word over-copy appends the list and never writes at or past n |
| TwoLists.MergeTwoLists | native/descriptor.c:2037-2084 | two lists under one key go out as one sorted permutation of both, and no word behind them is written |
| ManyLists.SmallSort | native/descriptor.c:2127-2147 | the insertion sort leaves a sorted permutation |
| MergeTree.MergePair | native/descriptor.c:2158-2176 | two adjacent lists become one sorted list in the other buffer, keys alongside |
| MergeTree.MergeLevel | native/descriptor.c:2150-2183 | one level halves the number of lists, rounding up, and keeps lists, keys, boundaries and the multiset |
| Gathering.Gather | native/descriptor.c:2099-2120 | the group's lists lie end to end with keys and boundaries, or the group is over the cap |
| Gathering.MergeLists | native/descriptor.c:2149-2184 | the ping-pong tree ends with one sorted permutation of the group |
| Gathering.SortGathered | native/descriptor.c:2124-2184 | both routes leave a sorted permutation of the group |
| WriteOut.WriteSingle | native/descriptor.c:1823-1995 | a list that shares its key with nobody extends the result, with either kind of store |
| WriteOut.WriteTwo | native/descriptor.c:2037-2084 | a two-list group extends the result, or its key is over the cap |
| WriteOut.WriteMany | native/descriptor.c:2085-2190 | a larger group extends the result, or its key is over the cap |
| WriteOut.ScanGroup | native/descriptor.c:1997-1998 | the scan finds the end of the maximal group |
| WriteOut.WriteSuffixes | native/descriptor.c:1766-2195 | -6 exactly when some key occurs more than 4,096 times, otherwise 0 and the suffix array; never -5; nothing from sa[n] on is written |
| WriteOut.KeyOverflowsIs | native/descriptor.c:2105-2105 | a text is past the cap exactly when some three bytes, zero past its end, stand at more than 4,096 of its positions |
| WriteOut.ZerosOverflowExactly | native/descriptor.c:412-414 | a text of zeros is past the cap exactly when it is longer than 4,096 bytes |
| DescriptorSort.ExpandPermutes | native/descriptor.c:1745-1745 | sorted descriptors stand for a permutation of the lists |
| DescriptorSort.SortedWalkIsSortable | native/descriptor.c:1736-1745 | a finished and sorted walk is all the merge phase relies on |
| DescriptorSort.Sorter.ScratchGet | native/descriptor.c:522-554 | the scratch kept or made is large enough for the text and the wanted descriptors |
| DescriptorSort.Sorter.WalkGrowing | native/descriptor.c:1630-1721 | at most one retry, never -3, and a complete walk |
| DescriptorSort.Sorter.DescriptorSuffixArray | native/descriptor.c:1625-2196 | for every text of 1 to 2^20 bytes and every partition into runs, the source's own included: 0 with the suffix array, or -6 exactly when a key is over the cap; never -3, -4 or -5; nothing from sa[n] on is written |
| RunIndependence.RunBoundariesDoNotMatter | native/descriptor.c:59-61 | the code run over any two partitions into runs of 1 to 512 blocks returns the same code and, on 0, the same array |
| RunIndependence.SortedUnique | native/descriptor.c:2037-2187 | two sorted permutations of a group are equal, so the collision routes cannot differ |
| SuffixArrayLibrary.Library.SuffixArray | native/derostorm_sa.c:58-78 | the fallback answers exactly when a key is over the cap, and whoever answers 0 leaves the suffix array; the slots from sa[n] on are touched by the fallback at most |
| SuffixArrayLibrary.Library.Probe | native/derostorm_sa.c:96-113 | the self-test returns 0, whatever the fallback does |
| SuffixArrayLibrary.ProbeVector | native/derostorm_sa.c:102-103 | the known answer is the suffix array of the probe text |
| Sha256Spec.CompressAllConcat | native/sha256ni.c:170-183 | hashing two stretches of blocks one after the other is hashing their concatenation |
| Sha256Spec.PadIs | native/sha256ni.c:167-181 | message, one marker bit, zeros only and fewer than a block of them, and the length, to a multiple of 64 bytes |
| Sha256Spec.LengthIsBits | native/sha256ni.c:179-181 | the eight length bytes, read most significant first, are the bit count modulo 2^64 |
| Sha256KnownAnswers.AbcDigest | native/derostorm_sa.c:135-138 | the digest of "abc" is the 32 bytes the library checks itself against |
| Sha256KnownAnswers.LongDigest | native/sha256ni.c:35-46 | the 56-byte message of the published examples, which pads to two blocks, hashes to its published 32 bytes |
| Sha256Vectors.Rnds2IsTwoRounds | native/sha256ni.c:77-83 | one sha256rnds2 is two rounds of section 6.2.2 of FIPS 180-4, and the other register needs no update |
| Sha256Vectors.ScheduleStep | native/sha256ni.c:83-87 | the rolling message registers produce the next four words of the schedule |
| Sha256Ni.Group1 | native/sha256ni.c:77-88 | one R1 group advances the state four rounds and the schedule one step |
| Sha256Ni.Group2 | native/sha256ni.c:91-109 | one R2 group does so for both messages |
| Sha256Ni.Rounds2 | native/sha256ni.c:118-125 | sixteen groups are 64 rounds of both messages |
| Sha256Ni.LayoutRoundTrip | native/sha256ni.c:52-72 | the shuffles in give the register layout of the instructions, and the shuffles out undo them |
| Sha256Ni.Blocks1 | native/sha256ni.c:133-146 | the state in memory becomes that of the standard after the blocks |
| Sha256Ni.Blocks2 | native/sha256ni.c:148-165 | the same for two messages at once |
| Sha256Tail.PadTail | native/sha256ni.c:173-181 | the tail buffer holds the rest, the marker, zeros and the bit count, in one block or two |
| Sha256Tail.PadOfMessage | native/sha256ni.c:167-181 | whole blocks and that tail are the padded message of section 5.1.1 of FIPS 180-4 |
| Sha256Tail.WriteDigest | native/sha256ni.c:185-190 | the output bytes are the digest of the state |
| Sha256Arm.HashRoundsAreFour | native/sha256arm.c:158-163 | one sha256h and sha256h2 pair is four rounds of section 6.2.2 of FIPS 180-4 |
| Sha256Arm.ScheduleStepArm | native/sha256arm.c:187-197 | su0 and su1 produce the next four words of the schedule |
| Sha256Arm.OneBlock | native/sha256arm.c:38-156 | the pipelined block function is the compression function |
| Sha256Arm.TwoBlocks | native/sha256arm.c:168-233 | the interleaved one is two compressions |
| Sha256Arm.Blocks1 | native/sha256arm.c:236-243 | the state in memory becomes that of the standard after the blocks |
| Sha256Arm.Blocks2 | native/sha256arm.c:246-255 | the same for two messages at once |
| Sha256Digest.Finish | native/sha256ni.c:170-191 | from the state after the whole blocks to the digest of the message, on either instruction set (also native/sha256arm.c:257-278) |
| Sha256Digest.One | native/sha256ni.c:211-218 | the digest of the message, on either instruction set (also native/sha256arm.c:291-298); nothing behind its 32 bytes is written |
| Sha256Digest.Pair | native/sha256arm.c:300-316 | both digests, for any two lengths, on either instruction set (also native/sha256ni.c:220-236) |
| Sha256Digest.Probe | native/derostorm_sa.c:128-152 | the self-test passes exactly when the processor has the instructions: the known digest, and a pair against two singles, never fail |
| Difficulty.HashToBig | cmd/derostorm/difficulty.go:43-52 | the in-place reversal reads the hash as a little-endian number |
| Difficulty.HashBytes | cmd/derostorm/difficulty.go:43-52 | byte i of the hash is the digit of weight 256^i, and the value is below 2^256 |
| Difficulty.CheckPowHashBig | cmd/derostorm/difficulty.go:65-84 | panics exactly on zero, otherwise compares the hash with the quotient |
| Target.NewTarget | cmd/derostorm/target.go:37-58 | panics exactly on zero; otherwise the limbs are the quotient's magnitude, or it does not fit 256 bits |
| Target.CascadeIsComparison | cmd/derostorm/target.go:69-81 | the most significant differing limb decides |
| Target.MeetsIsCheckPowHashBig | cmd/derostorm/target.go:60-82 | for every positive difficulty and every hash, Meets is the big-integer check |
| Target.AgreementIsExact | cmd/derostorm/target.go:35-58 | they agree on every hash exactly for difficulties above 0 or below -2^256 |
| Target.ShareDifficulty | cmd/derostorm/engine.go:440-454 | 0 for the zero hash, otherwise the quotient of 2^256 by the hash, clamped to 64 bits |
| Target.ShareIsAdjoint | cmd/derostorm/engine.go:433-454 | for a nonzero hash and a 64-bit difficulty d, Meets holds exactly when d is at most the share difficulty |
| Target.ShareIsAdjointExactly | cmd/derostorm/engine.go:445-448 | that holds for all d exactly when the hash is not zero |
| Miniblock.PutNonce | cmd/derostorm/gpu_worker.go:274 | bytes 43 to 46 of the buffer become the nonce, big-endian, and nothing else changes |
| Miniblock.NoncePlaced | cmd/derostorm/engine.go:383-383 | bytes 43 to 46 read big-endian are the nonce, and no other byte changes |
| Miniblock.Prepare | cmd/derostorm/gpu_worker.go:204-211 | only a well-formed job of 48 bytes is taken: its first 36 bytes, eleven of filler from byte 36, the tag in byte 47 |
| Miniblock.NonceInjective | cmd/derostorm/engine.go:382-385 | inputs with different nonces differ |
| Miniblock.SameInput | cmd/derostorm/gpu_worker.go:273-275 | a nonce left in the buffer by an earlier hit does not change the next input |
| Miniblock.CanHashIsTag | cmd/derostorm/gpu_worker.go:211 | the inputs a worker can hash are exactly those with its tag in byte 47 |
| Miniblock.CpuAndGpuDisjointExactly | cmd/derostorm/gpu_worker.go:16-18 | a CPU thread and a GPU share no input exactly when the thread id is not 0xf0 plus the device |
| Miniblock.ThreadIsClearExactly | cmd/derostorm/gpu_worker.go:70-72 | a thread is clear of all sixteen devices exactly when its id is below 240 |
| Miniblock.WorkersAreDisjoint | cmd/derostorm/gpu_worker.go:211 | different tags share no input |
| CpuNonces.SharesExactly | cmd/derostorm/engine.go:396-404 | a share is among those of a stretch of hashes exactly when one of the hashes after the starting nonce wins and gives it |
| CpuNonces.EveryShareMeetsItsJob | cmd/derostorm/engine.go:396-404 | every share of the loops is the prepared input but for bytes 43 to 46, was hashed, and meets the job's difficulty |
| CpuNonces.Miner.MineSingle | cmd/derostorm/engine.go:396-404 | consecutive nonces modulo 2^32, the counter, and the shares of exactly those hashes, in order |
| CpuNonces.Miner.MinePaired | cmd/derostorm/engine.go:380-394 | the paired loop has the nonces, counter and shares, in order, of the plain one with twice the rounds |
| CpuNonces.Miner.RunJob | cmd/derostorm/engine.go:324-405 | mines exactly a well-formed 48-byte job of positive difficulty and version 1 (the low four bits of its first byte), from the input prepared for it, with the shares of exactly the hashes that continue the nonces; any other job changes nothing |
| GpuPipeline.Device.Submit | gpu/derostorm_gpu.h:92-101 | a third batch is refused and changes nothing, otherwise it goes to the end of the queue |
| GpuPipeline.Device.Collect | gpu/derostorm_gpu.h:92-101 | fails exactly on an empty queue, otherwise takes the oldest batch |
| GpuPipeline.Worker.Take | cmd/derostorm/gpu_worker.go:247-286 | the oldest batch's hashes are counted and its shares are those of re-hashing every reported nonce against its own target |
| GpuPipeline.Worker.Fill | cmd/derostorm/gpu_worker.go:292-299 | ends with two batches in flight, nonces consecutive, and no refused submit |
| GpuPipeline.Worker.RunJob | cmd/derostorm/gpu_worker.go:197-323 | mines exactly a well-formed 48-byte job of positive difficulty and version 1, the low four bits of its first byte; nothing in flight before or after; skipped jobs queue nothing; a mined one queues one batch more than it has rounds |
| GpuPipeline.Worker.Run | cmd/derostorm/gpu_worker.go:196-325 | over any sequence of jobs the shares are those of all batches queued, and the counter is batch size times collections |
| PipelineRuns.RangesAreConsecutive | cmd/derostorm/gpu_worker.go:293-298 | the batches of a run cover one unbroken count of nonces modulo 2^32, across job changes |
| PipelineRuns.EveryHashHasOnePlace | cmd/derostorm/gpu_worker.go:293-298 | every hash of the count a run has queued is made by one of its batches at one place, with its nonce, and by no other: no gap, no overlap |
| PipelineRuns.NoncesRepeatExactly | cmd/derostorm/gpu_worker.go:298 | two hashes of a run use one nonce exactly when they are whole cycles of 2^32 apart |
| PipelineRuns.EveryShareMeetsItsJob | cmd/derostorm/gpu_worker.go:273-284 | whatever the device reports, a submitted share has bytes 0 to 35 of its 48-byte job, version 1, the worker's filler at 36 to 42 and its tag at 47, was hashed on the CPU and meets its job's difficulty |
| PipelineRuns.NothingIsLost | cmd/derostorm/gpu_worker.go:306-314 | with a device that reports each winning hash once, in any order, every share is submitted exactly as often as hashes of the batches queued give it |

## Left out

- DescriptorSort.Sorter.DescriptorSuffixArray: covers texts of at most 2^20 bytes, the range in which a descriptor's offset field and a 16-bit block index cannot overflow; the source allows any 32-bit length and its real texts are at most 98,303 bytes (native/descriptor.c:272-276).
- DescriptorSort.Sorter.ScratchGet: allocation always succeeds, so the -2 of native/descriptor.c:1632, 1705 and 1719 is not modelled; neither are the null checks of line 1627, which SuffixArrayLibrary.Library.SuffixArray models one level up.
- SuffixArrayLibrary.Library.SuffixArray: libsais is a code and, on 0, a suffix array; its scratch slots behind sa[n] are not modelled.
- GpuPipeline.Worker.Run: only runs in which no call fails, no CPU self-test of the device fails (cmd/derostorm/gpu_worker.go:78-95) and job blobs decode to at most 48 bytes; the failure exits, the block tuner, timing and messages are not modelled.
- GpuPipeline.Device.Submit: the device keeps copies of its arguments; kernels, the CUDA and HIP back ends and the single-call search are not modelled.
- PipelineRuns.NothingIsLost: assumes the report buffer does not overflow; the header says that surplus winners are dropped.
- CpuNonces.Miner.MinePaired: the AstroBWTv3 hash is an uninterpreted function of its 48-byte input, and hashing a pair is hashing twice; the loop before the second hard fork has the same shape and is not repeated, so CpuNonces.Miner.RunJob does not look at the height.
- Whether a worker holds the newest job: job and job counter are read separately (cmd/derostorm/gpu_worker.go:197-198), so no such claim is made; how many rounds a job lasts is an arbitrary number.
- Sha256Digest.Pair: messages shorter than 2^64 bits, as FIPS 180-4 requires.
- Sha256Digest.Probe: whether the processor has the instructions (`dsa_sha256_available`) is a parameter.
- The vector registers of the sort: each AVX2 operation of the walk and the merge phase has its meaning lane by lane, a loaded and byte-swapped word is a big-endian number, and a 32-bit mask word is the sequence of its bits. The scalar and NEON forms of the walk, of the comparison loop and of run discovery are not modelled; of the merge phase both the vector and the scalar store are.
- Macro settings other than the defaults, the ablation builds, profiling counters and phase timers.
- `column_step` (native/descriptor.c:766-831): not called in the default build.
- The Go port of the suffix sort, AstroBWTv3 itself, the console, sensors, configuration, networking and statistics.
