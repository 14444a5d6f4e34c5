# Trace replay, verified

This project models the trace replay pipeline of `helper/replay.c`, together with the hash map and
the random generators it runs on, and proves what each stage computes and what the whole pipeline
keeps.

| stage | modules |
|---|---|
| generators | `Powers`, `Lcg`, `ByteBits`, `Words`, `Mt19937`, `MtStandard` |
| block contents | `Bytes`, `Splicing`, `FillBlock`, `BlockIdentity`, `BlockContent` |
| hash map | `Options`, `BucketTable`, `LinkedHashMap`, `MapRuns`, `ListSortSpec`, `ListSort` |
| grouping lines by lba | `Trace`, `Sequences`, `StableSort`, `TraceSort`, `Containers`, `Grouping`, `Building` |
| spreading groups over workers | `Spreading`, `Filling`, `Gathering`, `Visiting`, `Assigning`, `Readiness` |
| batches ("hints") | `Hints`, `Planning`, `Preparing` |
| replay | `Files`, `Execution`, `Replaying`, `Remembering`, `Interleaving`, `LastWrites`, `Running` |

The main results:

* `LastWrites.ParallelMeans`: whatever the number of workers, the coins that spread the lines, the
  batch limit and the order in which workers take turns, every block ends up as the latest write to it
  in the trace (greatest timestamp, then last line) on the worker that owns its lba, and every read
  delivers the latest write before it, as long as no two blocks of the trace overlap. It rests on
  `Interleaving.ParallelIsSequential`: the workers together do what replaying all lines one at a time
  in stable timestamp order into a single file does. `Running.PrepareRun` joins both with the
  preparation, and `Running.RunTrace` runs the whole program on a parsed trace.
  `Running.OverlapInParallel` says what happens to two blocks that do overlap.
* `MapRuns.RunOps`: every run of operations on the hash map, across resizes and with or without
  removal, answers like a finite map with a list of its keys in insertion order.
* `ListSort.HashmapSort`: the bottom-up merge sort on the list of the map keeps nodes and entries for
  any comparator. It does not sort: it swaps payloads where it would have to swap pointers
  (`ListSortSpec.TwoEntriesStay`); `ListSortSpec.MergeRunsOrders` tells exactly when one merge yields
  an ordered run.
* `Mt19937.State.Next`: output k is the tempered word 624 + k of the recurrence of the
  `mersenne_twister_engine` (section 26.5.3.2 [rand.eng.mers] of ISO/IEC 14882:2011), for every seed
  and every k; four outputs fix the seed (`OutputsDetermineSeed`), 624 fix all later ones
  (`OutputsDetermineFuture`).
* `Hints.ExtractHints`: the batches are a cut of a worker's lines into runs of consecutive 4 KiB blocks
  in one direction, and no such cut has fewer of them.
* `Lcg.FullPeriod`: the period of the LCG is 2^31 from every state.
* `Preparing.Prepare`: the in-place pipeline from trace to plan establishes what
  `ParallelIsSequential` asks for, and `Replaying.ReplayWorker` executes one worker of such a plan.
* `Filling.SafeContainersFillAll`: the code can leave a worker without lines, and then goes wrong. The
  containers, and the order in which they are visited, are known before any coin is drawn; from their
  sizes alone the lemma tells, exactly, whether some coins do that. `ModestContainersFillAll` and
  `TwoWorkersFilled` give the condition in closed form when no container invites a coin to move away
  from an empty worker, and for two workers.

How the source is rendered: a `struct bucket *` is an index into the bucket array, `NULL` is -1, and
the imaginary bucket `(struct bucket *)&m->first` is -2. A `struct trace_info *` is the number of its
line. A `struct trace_container *` is its number in a `Pool`. `rand()` is an arbitrary function from
the number of the call to its result. Short reads of `pread` are arbitrary. The load test
`count + 1 > 0.75f * capacity` is `4 * (count + 1) > 3 * capacity`. `unsigned long` state of the
Mersenne Twister is `bv64`, and the recurrence it is compared with is over `bv32`. Signed overflow in
the LCG wraps. The global and the reentrant Mersenne Twister functions are the same text over a
different state, and are one class here.

## Model

| member | source | states |
|---|---|---|
| Lcg.MaskKeepsLowBits | helper/lcg.c:9-17 | the wrapping `int` arithmetic followed by the mask is multiplication and addition modulo 2^31 |
| Lcg.RandRWritten | helper/lcg.c:15-17 | the next value is (1103515245 x + 12345) mod 2^31 |
| Lcg.Global.Srand | helper/lcg.c:5-7 | sets the global seed |
| Lcg.Global.Rand | helper/lcg.c:11-13 | advances the global seed by one step and returns it |
| Lcg.Recurrence | helper/lcg.c:15-17 | n steps lead back to a residue exactly when 2^31 divides n |
| Lcg.FullPeriod | helper/lcg.c:15-17 | from every state two calls leave the same state exactly when their numbers differ by a multiple of 2^31 |
| Lcg.EveryValueVisited | helper/lcg.c:15-17 | one period visits every 31-bit value |
| Lcg.StepInjective | helper/lcg.c:15-17 | two arguments give the same result exactly when they agree modulo 2^31 |
| Words.TemperWide | helper/mt19937ar.c:129-133 | tempering in an `unsigned long` of 64 bits is tempering of 32-bit words |
| Words.TemperBijective | helper/mt19937ar.c:186-189 | tempering is a bijection on 32-bit words |
| Words.TwistWide | helper/mt19937ar.c:114-115 | the twist computed on 64-bit words is the twist on 32-bit words |
| Words.TwistInjective | helper/mt19937ar.c:174-175 | a new word and its far partner fix the bits that went into it |
| Words.ValueOfWord | helper/replay.c:139-143 | a number below 2^32 survives being stored in a word |
| Words.WordOfValue | helper/replay.c:85 | a word survives being read as a number |
| Words.HalfValue | helper/mt19937ar.c:114-115 | a shift to the right halves the number and drops its parity, which is the bit that selects the xor mask |
| Words.SeedStepWide | helper/mt19937ar.c:144-150 | a seeding step with the 64-bit product cut down is the 32-bit seeding step |
| Words.SeedStepValue | helper/mt19937ar.c:62-63 | a seeding step in numbers: 1812433253 times the word xor its top two bits, plus the index, modulo 2^32 |
| Words.SeedStepInjective | helper/mt19937ar.c:58-68 | a seeding step loses nothing of the word before it |
| Mt19937.State.constructor | helper/mt19937ar.c:52-53 | a state that was never seeded, marked as such |
| Mt19937.State.Seed | helper/mt19937ar.c:139-153 | the state holds the seed vector and no output was drawn |
| Mt19937.State.Replace | helper/mt19937ar.c:170-171 | one word of the block is replaced by the word N later of the recurrence |
| Mt19937.State.Regenerate | helper/mt19937ar.c:169-180 | the two loops and the wrap-around word replace the block of N words by the next N words of the recurrence, in place |
| Mt19937.State.Next | helper/mt19937ar.c:155-192 | output k is the tempered word N + k of the recurrence; an unseeded state is first seeded with 5489 |
| Mt19937.RecoveredWords | helper/mt19937ar.c:183-191 | untempering N consecutive outputs recovers a state vector that generates all later words |
| Mt19937.OutputsDetermineFuture | helper/mt19937ar.c:155-192 | two generators that agree on N consecutive outputs agree on all later ones |
| Mt19937.WordBefore | helper/mt19937ar.c:113-122 | N consecutive words fix the word before them, unless that is the first one |
| Mt19937.SeedWordInjective | helper/mt19937ar.c:58-68 | any word of the seeded state vector fixes the seed |
| Mt19937.OutputsDetermineSeed | helper/mt19937ar.c:139-192 | outputs 0, 1, 227 and 228 agree exactly when the seeds agree |
| Mt19937.LaterOutputsDetermineSeed | helper/mt19937ar.c:139-192 | any N consecutive outputs, wherever they start, agree exactly when the seeds agree |
| MtStandard.TemperIsStandard | helper/mt19937ar.c:129-133 | the tempering is that of the standard, with its parameters |
| MtStandard.TwistIsStandard | helper/mt19937ar.c:113-122 | the twist is the transition of the standard, with its parameters |
| MtStandard.InitialWord | helper/mt19937ar.c:58-68 | the seeded state: word 0 is the seed, word i follows from word i - 1 |
| MtStandard.LaterWord | helper/mt19937ar.c:113-122 | word n + 624 is the transition of words n, n + 1 and n + 397 |
| MtStandard.OutputIsStandard | helper/mt19937ar.c:155-192 | output k is word 624 + k of that sequence, tempered as the standard says |
| Bytes.Store32 | helper/replay.c:143 | the four bytes stored for a word load back as that word |
| FillBlock.BlockLength | helper/replay.c:122-131 | the steps of fill_blk write exactly 4096 bytes for every digest length |
| FillBlock.RandGener.constructor | helper/replay.c:686-713 | a generator context of its own for the worker |
| FillBlock.RandGener.FeedSeed | helper/replay.c:78-103 | after feeding a seed the context is at the start of that seed's stream, whatever it was before |
| FillBlock.RandGener.GenRandom | helper/replay.c:83-108 | returns the next word of the stream of the seed that was fed |
| FillBlock.FillBlk | helper/replay.c:120-147 | writes the block of the digest at the given place of the buffer, and nothing else |
| FillBlock.FillSegment | helper/replay.c:128-146 | one step writes the part of the block made from one group of 32 characters |
| FillBlock.CopyRows | helper/replay.c:132-135 | without a generator the group is repeated over the segment |
| FillBlock.SeedRows | helper/replay.c:139-144 | with a generator the segment holds the words of the stream seeded by the group's first four bytes |
| BlockIdentity.NullBlocks | helper/replay.c:130-136 | without a generator equal-length digests give equal blocks exactly when they are equal |
| BlockIdentity.SeedsGiveBlock | helper/replay.c:137-145 | with a generator the block depends on the first four bytes of every group only |
| BlockIdentity.LcgBlocks | helper/replay.c:99-108 | with the LCG equal-length digests give equal blocks exactly when their seeds agree in the low 31 bits |
| BlockIdentity.LcgWordsDistinct | helper/replay.c:138-144 | all words that the LCG writes into one segment are distinct |
| BlockIdentity.MtBlocks | helper/replay.c:78-86 | with the Mersenne Twister equal-length digests of up to 128 characters give equal blocks exactly when the first four bytes of all their groups agree |
| BlockContent.BlockSegment | helper/replay.c:128-131 | group k of 32 characters makes part k of the block; the parts are equally long |
| BlockContent.NullBlockByte | helper/replay.c:132-135 | without a generator byte i of part k is character i mod 32 of group k |
| BlockContent.SeededBlockWord | helper/replay.c:137-144 | with a generator the four bytes at 4 j of part k are word j of the stream seeded by the first four characters of group k |
| BlockContent.StoredByte | helper/replay.c:143 | the four bytes of a word, lowest first |
| BlockContent.StdlibWord | helper/replay.c:88-97 | with `rand_r` each word is one call on the word before it, the first one on the seed |
| BlockContent.LcgWord | helper/replay.c:99-108 | with the LCG each word is (1103515245 x + 12345) mod 2^31 of the word before it, the first one of the seed |
| BlockContent.MtWord | helper/replay.c:78-86 | with the Mersenne Twister word j is output j of the engine with this seed |
| BucketTable.ProbeAdvances | helper/map.c:145-183 | a probe that does not stop comes closer to a free bucket |
| BucketTable.ProbeMisses | helper/map.c:170-178 | a probe that stops at a free bucket has shown that the key is in no bucket |
| LinkedHashMap.Inserted | helper/map.c:193-205 | linking and filling the free bucket where the probe stopped keeps chains, list and distinct keys, and appends the entry |
| LinkedHashMap.Overwritten | helper/map.c:395-402 | storing into a live bucket keeps the invariant and replaces its entry in place |
| LinkedHashMap.Buried | helper/map.c:424-433 | a tombstone breaks no probe chain and removes exactly its entry |
| LinkedHashMap.MoveStarts | helper/map.c:65-70 | at the start of a resize the relocated part of the list is empty |
| LinkedHashMap.MoveSkips | helper/map.c:80-88 | skipping a tombstone keeps a relocated prefix followed by an untouched suffix |
| LinkedHashMap.MoveEntry | helper/map.c:91-92 | moving an entry keeps a relocated prefix followed by an untouched suffix, with the same entries |
| LinkedHashMap.MoveEnds | helper/map.c:93-96 | with nothing left to move the new table satisfies the invariant with the same entries |
| LinkedHashMap.HashMap.constructor | helper/map.c:17-35 | an empty map of 20 buckets |
| LinkedHashMap.HashMap.StoreLastNext | helper/map.c:30-33 | a store through `m->last->next`, which before the first entry is `m->first` |
| LinkedHashMap.HashMap.ResizeEntry | helper/map.c:44-59 | always finds a free bucket, the first one on the probe sequence, and copies the entry there |
| LinkedHashMap.HashMap.Relocate | helper/map.c:78-93 | one round of the resize loop moves the seam between new and old table by one bucket |
| LinkedHashMap.HashMap.RelocateAll | helper/map.c:77-93 | the do-while loop relocates the whole list |
| LinkedHashMap.HashMap.Resize | helper/map.c:61-96 | twice the capacity, the same entries in the same order, no tombstones, room for one more entry |
| LinkedHashMap.HashMap.FindEntry | helper/map.c:141-184 | ends at the bucket with the key, or at the free bucket that ends its chain when the key is absent |
| LinkedHashMap.HashMap.StoreEntry | helper/map.c:193-205 | the whole new state after the stores of a new entry |
| LinkedHashMap.HashMap.AddEntry | helper/map.c:193-205 | a new entry is appended and the invariant kept |
| LinkedHashMap.HashMap.OverwriteEntry | helper/map.c:395-402 | an entry is replaced in place and the invariant kept |
| LinkedHashMap.HashMap.MakeRoom | helper/map.c:188-189 | doubles the capacity exactly when one more entry would break the load bound, and otherwise changes nothing |
| LinkedHashMap.HashMap.Set | helper/map.c:186-206 | the entries become those of the abstract `Put` |
| LinkedHashMap.HashMap.GetSet | helper/map.c:347-371 | an absent key is added, a present one keeps its value, and the value in the map is handed back |
| LinkedHashMap.HashMap.SetFree | helper/map.c:373-403 | key and value are replaced; the callback sees the old entry, and only if there was one |
| LinkedHashMap.HashMap.Get | helper/map.c:405-414 | finds exactly the entry with the key, 0 if there is none |
| LinkedHashMap.HashMap.RemoveFree | helper/map.c:419-452 | removes exactly the entry with the key; the callback sees it |
| LinkedHashMap.HashMap.Size | helper/map.c:455-463 | the number of entries |
| LinkedHashMap.HashMap.Iterate | helper/map.c:465-491 | visits all entries once, in list order |
| MapRuns.PutIsBind | helper/map.c:186-206 | on a map with distinct keys the inserting operations are binding in a finite map with an insertion order |
| MapRuns.FindAfterPut | helper/map.c:186-206 | an overwritten entry keeps its old key pointer with `hashmap_set` and gets the new one with `hashmap_set_free`; other keys are not touched |
| MapRuns.WithoutIsUnbind | helper/map.c:419-434 | removing is unbinding in a finite map with an insertion order |
| MapRuns.Perform | helper/map.c:347-452 | every operation changes map and reply as the reference does |
| MapRuns.RunOps | helper/map.c:141-463 | a fresh map under any operations and any hash function replies like the reference and ends with the same keys in the same order |
| ListSortSpec.SortConserves | helper/map.c:288-340 | for any comparator the sort is a rearrangement of the entries |
| ListSortSpec.SortKeepsOrdered | helper/map.c:288-340 | when the comparator is transitive on the entries and at most 0 on all neighbours, the list comes out unchanged |
| ListSortSpec.SwappedRuns | helper/map.c:263-266 | what is exchanged in front of a merge: the first entries and the last entries, if the first run starts with the larger one |
| ListSortSpec.WeaveOrders | helper/map.c:268-285 | two woven runs are ordered exactly when both are |
| ListSortSpec.MergeRunsOrders | helper/map.c:255-286 | a merge yields an ordered run exactly when both runs are ordered after the exchange and the first one starts with the smaller entry |
| ListSortSpec.PassAt | helper/map.c:300-338 | a round leaves the merge of every pair of runs at the place of that pair |
| ListSortSpec.FourEntries | helper/map.c:299-338 | three or four entries are sorted by a single merge |
| ListSortSpec.FirstPassIdle | helper/map.c:263-266 | with runs of one bucket the two swaps cancel, so the first round changes nothing |
| ListSortSpec.TwoEntriesStay | helper/map.c:263-266 | two entries are never exchanged: they come out ordered exactly when they went in ordered |
| ListSort.SwapBucket | helper/map.c:208-222 | exchanges two payloads and no links |
| ListSort.SwapRunEnds | helper/map.c:263-266 | exchanges the payloads of the first and the last buckets of two runs |
| ListSort.MergeLists | helper/map.c:255-286 | splices two runs into one with the same buckets, and hands back its last bucket, whose link may be stale |
| ListSort.WalkRun | helper/map.c:307-319 | finds the last bucket of a run of at most gap buckets |
| ListSort.MergePair | helper/map.c:322-336 | merges the next two runs and attaches them to those merged before |
| ListSort.MsortRound | helper/map.c:299-338 | one round leaves a chain of the same buckets from the same head, with the payloads of `Pass` |
| ListSort.Msort | helper/map.c:288-340 | terminates with a NULL-terminated chain of the same buckets and the payloads of `SortList` |
| ListSort.HashmapSort | helper/map.c:342-345 | for any comparator: an acyclic list of the same buckets with the same entries |
| TraceSort.MergeArray | helper/replay.c:283-316 | merges two neighbouring ranges in place through the shared temporary buffer, stably |
| TraceSort.MergeSortArray | helper/replay.c:318-328 | leaves the merge sort of the range in place: timestamps ascend and lines of one timestamp keep their order; one buffer as long as the range suffices for all merges |
| TraceSort.Partition | helper/replay.c:245-269 | permutes the range around the returned pivot position |
| TraceSort.QuickSort | helper/replay.c:271-280 | terminates with the range sorted and permuted; `pivot - 1` never underflows |
| TraceSort.SortedTimestamps | helper/replay.c:271-328 | all sorted permutations have the sequence of timestamps of the merge sort |
| TraceSort.QuickSortLines | helper/replay.c:330-333 | on every array that is not empty the quicksort leaves ascending timestamps, the sequence that the merge sort leaves |
| StableSort.MergeSortStable | helper/replay.c:283-328 | the merge sort is sorted and keeps lines of one timestamp in their order |
| StableSort.MergeSortChronological | helper/replay.c:283-328 | the timestamps of the records ascend in the result, and the records of any one timestamp are in the order they had |
| StableSort.StableSortUnique | helper/replay.c:318-328 | a stable sort by timestamp is unique |
| StableSort.KeepOfSorted | helper/replay.c:318-328 | selecting lines and sorting them commute |
| StableSort.MergeSortConserves | helper/replay.c:318-328 | the merge sort is a permutation |
| Containers.TraceContainer.constructor | helper/replay.c:202-210 | an empty container of the given capacity |
| Containers.TraceContainer.Add | helper/replay.c:221-234 | appends a line |
| Containers.TraceContainer.Grow | helper/replay.c:223-232 | doubles the array and keeps the lines |
| Containers.TraceContainer.AddCollection | helper/replay.c:236-242 | appends all lines of the other container |
| Containers.TraceContainer.SortByTs | helper/replay.c:330-336 | sorts a container that is not empty |
| Containers.Pool.AddLine | helper/replay.c:556 | appends to one container and leaves all others alone |
| Containers.Pool.AddCollection | helper/replay.c:610-611 | appends a container to one worker's and leaves all others alone |
| Containers.Pool.SortByTs | helper/replay.c:633 | sorts one container and leaves all others alone |
| Grouping.LbaBytesInjective | helper/replay.c:550 | the key bytes of two lbas are the same only if the lbas are |
| Grouping.GroupedNew | helper/replay.c:551-556 | a line with a new lba starts a container of its own |
| Grouping.GroupedOld | helper/replay.c:550-556 | a line with a known lba joins the container of that lba |
| Grouping.FoundIsSeen | helper/replay.c:550-551 | the map has an entry for a line exactly when its lba was seen |
| Grouping.GroupedFor | helper/replay.c:540-558 | map and containers are determined by the trace, whatever the hash function |
| Building.PlaceLine | helper/replay.c:549-556 | one round of the loop keeps one container for every lba seen |
| Building.BuildTraceContainers | helper/replay.c:540-558 | one container for every lba, with exactly the lines of that lba in trace order |
| Spreading.SpreadInvariant | helper/replay.c:594-621 | for any coins the current worker exists and its line count is exact and below its share |
| Spreading.CoinIsFair | helper/replay.c:599-602 | whenever a coin is drawn the subtraction does not wrap and the probability lies in 0..99 |
| Spreading.SpreadBalanced | helper/replay.c:594-621 | for any coins a worker moved past has strictly between per - S and per + S lines |
| Spreading.LoadsAddUp | helper/replay.c:610-612 | the workers' loads add up to all lines |
| Spreading.NextOwner | helper/replay.c:597-620 | where the next container goes and which worker is current then: the coin moves on exactly when (coin mod 100 + 1) * size <= 100 * (per - lines) |
| Filling.LastWorkerFilled | helper/replay.c:594-621 | for any containers: the last worker gets lines with all coins exactly when the containers can be cut into a stretch of at least per lines for every other worker, with something left over |
| Filling.CutIsSlowest | helper/replay.c:597-620 | no coins are behind the greedy cut |
| Filling.StayFollowsCut | helper/replay.c:597-620 | coins that never move on follow the greedy cut |
| Filling.ModestContainersFillAll | helper/replay.c:594-621 | without containers of more than per and at most 100 * per lines, all coins fill all workers exactly when the containers can be cut into enough stretches |
| Filling.FirstTempted | helper/replay.c:599-606 | a first container of more than per and at most 100 * per lines can leave the first worker empty |
| Filling.TwoWorkersFilled | helper/replay.c:594-621 | with two workers, the exact condition on any containers under which all coins fill both |
| Filling.RunsEndAtSpots | helper/replay.c:594-621 | every run of the loop ends at a computed spot |
| Filling.SpotsAreReached | helper/replay.c:594-621 | every computed spot is where the loop ends with some coins |
| Filling.SafeContainersFillAll | helper/replay.c:594-621 | for any containers and workers: all coins fill all workers exactly when no computed spot has a worker without lines |
| Filling.SmallContainersFillAll | helper/replay.c:594-621 | with containers of at most per / (threads - 1) lines no coins leave a worker without lines, in whatever order they are visited |
| Filling.FewContainersLeaveEmpty | helper/replay.c:594-621 | with fewer containers than workers some worker has no lines |
| Filling.UnluckyCoinLeavesEmpty | helper/replay.c:601-606 | an input on which the coin moves past a worker that has nothing yet |
| Gathering.GroupedIsGrouping | helper/replay.c:539-558 | the containers built for a trace are its lines grouped by lba |
| Gathering.GatherSplits | helper/replay.c:594-621 | visiting every container once puts all lines of one lba on one worker, in trace order, and no others |
| Gathering.SortSplits | helper/replay.c:629-633 | after sorting, every worker has its lbas' lines in the order they have in the whole sorted trace |
| Gathering.SplitConserves | helper/replay.c:592-633 | every line is on exactly one worker exactly as often as in the trace |
| Visiting.RearrangedVisitsAll | helper/replay.c:592-613 | a rearrangement of the map's entries visits every container exactly once |
| Visiting.EntriesAt | helper/map.h:104-105 | on a list without tombstones the walk meets the entries one for one |
| Assigning.CreateWorkers | helper/replay.c:586-590 | one empty container for every worker |
| Assigning.SortMap | helper/replay.c:592-593 | after the sort the list still holds every container exactly once |
| Assigning.TossCoin | helper/replay.c:597-608 | the decision to move on, as `Spreading.Toss` |
| Assigning.PlaceContainer | helper/replay.c:594-621 | one round of the walk is one step of `Spread`, and the lines go to the worker it names |
| Assigning.WalkContainers | helper/replay.c:594-621 | the walk ends with every container visited and destroyed once, and the workers having what `Spread` gives them |
| Assigning.SpreadContainers | helper/replay.c:573-621 | sorting and walking the map hands every container to exactly one worker, as `Spread` says, in an order that does not depend on the coins |
| Readiness.TraceVisits | helper/replay.c:592-596 | the visits of the trace's containers, known beforehand, meet each container once |
| Readiness.CompareIsTruncated | helper/replay.c:560-565 | the comparator gives the difference of the lbas modulo 2^32 as an `int`, which is the difference when that fits |
| Readiness.AscendingVisits | helper/replay.c:592-596 | containers first seen in ascending lba order, with lbas that differ by less than 2^31, are visited in that order |
| Readiness.PerThreadShare | helper/replay.c:575 | a share is the largest number of lines that all workers can have |
| Readiness.FilledContents | helper/replay.c:594-621 | which workers have lines is what `Fills` says of the sizes and the coins |
| Readiness.EvenContents | helper/replay.c:594-621 | workers moved past hold strictly between per - S and per + S lines, workers after the current one none |
| Readiness.ReadyForAllCoins | helper/replay.c:573-621 | all coins fill all workers exactly when the sizes of the trace's containers, in the order of the visits, are safe |
| Readiness.SmallTraceIsSafe | helper/replay.c:573-621 | a trace in which no lba has too many lines is safe |
| Hints.ExtractHints | helper/replay.c:634-673 | the hints cut the lines into runs of consecutive blocks in one direction, each as long as possible, and no cut has fewer; they are stored behind those of earlier workers; the returned maximum is the largest size of a hint |
| Hints.LinkedWritten | helper/replay.c:645-647 | a line continues the one before exactly when its lba is 8 more and its direction the same (lbas below 2^63) |
| Hints.LegalWritten | helper/replay.c:640-665 | a hint is legal exactly when it has 1 to max(1, c) lines, each 8 sectors after the one before and in its direction |
| Hints.ExtractedIsBest | helper/replay.c:640-673 | no list of run lengths that steps the lba by 8, keeps the direction and obeys the limit cuts the lines into fewer runs |
| Hints.TilesAreFew | helper/replay.c:640-673 | there are at most as many hints as lines |
| Hints.GreedyStaysAhead | helper/replay.c:640-665 | after any number of hints the greedy tiling has covered at least as much as any other legal tiling |
| Hints.GreedyIsOptimal | helper/replay.c:640-673 | no legal tiling uses fewer hints |
| Planning.PlannedStep | helper/replay.c:674-679 | storing one worker's hints behind the others' keeps what is planned for the earlier workers |
| Planning.RangesAscend | helper/replay.c:677-678 | the workers' hint ranges follow each other without overlap |
| Planning.PlanWorker | helper/replay.c:629-679 | one worker's lines are sorted and cut, its buffer fits its largest batch |
| Planning.PlanWorkers | helper/replay.c:629-679 | all workers are planned, their ranges partition the used part of the shared array, and hints never outnumber lines |
| Readiness.SmallFillsAll | helper/replay.c:575-621 | if no lba has too many lines, no worker is left without lines, whatever the coins and the order of the visits |
| Preparing.Distribute | helper/replay.c:945-952 | from an empty map to the lines split among the workers, every line once, all lines of an lba together, the load even; all workers have lines exactly when the coins fill them |
| Preparing.Prepare | helper/replay.c:945-952 | succeeds exactly when the coins give every worker lines, and then the plan is a good plan for the whole trace |
| Files.WriteTwice | helper/replay.c:447-448 | two adjacent pwrites are one pwrite of the concatenation |
| Files.ReadTwice | helper/replay.c:495-505 | a read in two parts is one read of the whole |
| Files.Handle.constructor | helper/replay.c:403-424 | an existing file keeps its content, a missing one is created empty |
| Files.Handle.PWrite | helper/replay.c:447-448 | writes the buffer at the offset; a gap reads as zero |
| Files.Handle.Append | helper/replay.c:467 | writes the buffer at the end of the file |
| Files.Handle.PRead | helper/replay.c:496-497 | any number of bytes from 1 to what is asked for and available, 0 at the end of the file |
| Execution.BatchIsLines | helper/replay.c:434-450 | one system call for consecutive blocks does what its lines do one by one |
| Execution.BlocksAt | helper/replay.c:441-446 | block i of the buffer of a batch is the block of its line i |
| Execution.LinkedSpacing | helper/replay.c:645-647 | the lines of a legal batch are 4096 bytes apart and go in one direction |
| Execution.BatchedIsUnbatched | helper/replay.c:432-513 | replaying the hints leaves the file, and delivers the bytes, that replaying the lines one by one does |
| Execution.AppendIsConcatenation | helper/replay.c:452-470 | append mode yields the concatenation of all blocks in order |
| Replaying.FillBatch | helper/replay.c:441-446 | the buffer holds the blocks of the batch, one after the other |
| Replaying.ReadBatch | helper/replay.c:494-506 | whatever the short reads, the buffer ends with the file's bytes and zeros past its end |
| Replaying.WriteHint | helper/replay.c:479-491 | one batch of writes is one step of the specification |
| Replaying.AppendHint | helper/replay.c:454-469 | one batch in append mode is one step of the specification |
| Replaying.ReadHint | helper/replay.c:492-511 | one batch of reads is one step of the specification, and delivers its bytes to the dump |
| Replaying.ReplayHints | helper/replay.c:432-513 | the loop over the hints runs the specification of all hints of the worker |
| Replaying.ReplayWorker | helper/replay.c:373-519 | a worker does to its file what its lines do one by one; its dump file gets what its read lines read |
| Remembering.BlockAfter | helper/replay.c:471-513 | a block holds what the last write to its lba wrote, or zeros; lines of other lbas do not matter |
| Remembering.ObservedKept | helper/replay.c:492-506 | what a read line sees depends on the earlier lines of its lba only |
| Remembering.DumpIsObserved | helper/replay.c:507-510 | the dump is what the read lines see, in their order |
| Interleaving.ExecInvariant | helper/replay.c:957-967 | under every schedule every worker has done exactly its first batches |
| Interleaving.CompleteSchedules | helper/replay.c:957-967 | all workers finish exactly under the schedules that give every worker as many turns as it has batches |
| Interleaving.CompleteWorker | helper/replay.c:957-967 | when all workers have finished, each has done what its lines do one by one |
| Interleaving.ParallelIsSequential | helper/replay.c:945-967 | under every schedule every worker's file and dump agree with the sequential replay of all lines |
| Interleaving.GoodPlansAgree | helper/replay.c:945-967 | a good plan agrees with the sequential replay under all schedules |
| Interleaving.AlignedBlocksAgree | helper/replay.c:945-967 | in a trace of lbas divisible by 8, every such block is on its owner what the sequential replay leaves, and zeros elsewhere |
| Interleaving.OverlapDecides | helper/replay.c:447-448 | a worker with the first of two overlapping writes agrees with the sequential replay exactly when the second repeats the bytes it overwrites |
| Interleaving.ParallelAppends | helper/replay.c:452-470 | under every schedule a worker's file in append mode is the concatenation of its blocks |
| LastWrites.LineEffect | helper/replay.c:432-513 | what one line does to the bytes of the file and to the dump: in mode rw a 'W' writes its block at 512 times its lba and any other line reads there, mode w writes every line, mode a appends every block |
| LastWrites.LineOnBlock | helper/replay.c:479-511 | a block changes exactly when a line that writes has its lba |
| LastWrites.RunIsLastIn | helper/replay.c:432-513 | after any lines a block is that of the last writing line of its lba, zeros if there is none |
| LastWrites.OrderIsBefore | helper/replay.c:318-328 | the sequential replay goes by timestamp, then by line number |
| LastWrites.SequentialHolds | helper/replay.c:432-513 | after the sequential replay a block holds the latest write to it in the trace |
| LastWrites.ObservedHolds | helper/replay.c:492-506 | a line sees the latest write before it |
| LastWrites.ObservationsDeliver | helper/replay.c:507-510 | the dump has one block for every read line in order, the latest write before it |
| LastWrites.AgreesMeans | helper/replay.c:432-513 | a worker that agrees with the sequential replay holds the latest writes of its lbas and zeros elsewhere |
| LastWrites.ParallelMeans | helper/replay.c:945-967 | under every schedule every worker holds the latest write to each block of its lbas, and each of its reads delivered the latest write before it (modes w and rw) |
| Running.PrepareRun | helper/replay.c:945-967 | for any number of workers, coins, batch limit and hash function: if the preparation succeeds, under every schedule every worker agrees with the sequential replay, holds the latest writes and delivers the latest writes before each read (modes w and rw) |
| Running.RunWorker | helper/replay.c:679-724 | a worker with a buffer, file and generator of its own does what its lines do one by one |
| Running.RunTrace | helper/replay.c:945-967 | from a parsed trace to all files and dumps, with the workers run one after the other: they agree with the sequential replay, hold the latest writes and deliver the latest writes before each read (modes w and rw) |
| Running.TwoLinesPart | helper/replay.c:594-621 | two lines of different lbas and two workers: each gets one, whatever the coins |
| Running.OverlapInParallel | helper/replay.c:447-448 | so two overlapping writes on two workers agree with the sequential replay exactly when the second repeats the bytes it overwrites |

## Left out

- Parsing of the trace and of the arguments, printing, timing, thread creation and memory failure: the model starts from a parsed trace.
- I/O errors and short writes: the program prints a message and exits.
- File systems beyond pwrite, write and pread on one file per worker, and the file paths.
- Preparing.Prepare: for a worker without lines the program sorts and cuts an array of size 0 as if it had lines. The model reports this as `ready == false` and stops there.
- Filling.SmallContainersFillAll: sufficient only, for a caller who does not know the order of the visits; the exact condition, which depends on that order, is `SafeContainersFillAll`.
- Digest lengths other than 32, 64, 128 and 256: the steps of fill_blk then do not line up with copies of 32 bytes.
- BlockIdentity.MtBlocks: for 256-character digests only the direction of `SeedsGiveBlock` is stated. A group then gets 128 words, none of which is the far partner of another one, so that the twist cannot be inverted.
- `rand_r` of the C library: some deterministic function of the seed.
- `hash_data` of the map: any function of the key bytes; 32-bit wrap of an index or of the capacity is not modelled.
- The rounding of `0.75f * capacity` above 2^24 entries, and overflow of `gap` in the list sort.
- Ascending order after `hashmap_sort`, and lookups or insertions after it: the code does not provide them. The file's comments suggest a sort; the model follows the code.
- `_hashmap_qsort`, whose call is commented out, and the debugging helpers `check_bucket` and `bucket_dump`.
- Execution.BatchedIsUnbatched: asks for lbas below 2^54, so that neither the byte offset nor the lba of the next block wraps.
- Interleaving.ParallelIsSequential: the workers' files are empty at first, which is what open leaves when they do not exist.
- Replaying.ReplayHints: the source has one loop for every mode; here one loop selects by mode in every round.
- Containers.Pool.AddCollection: a container that was freed stays in its pool; that it is used once only is what `destroyed` of Assigning.SpreadContainers says.
- `init_by_array` and the outputs of the Mersenne Twister other than `genrand_int32`: not used by the pipeline.
- The other helper programs of the repository and its shell scripts.
