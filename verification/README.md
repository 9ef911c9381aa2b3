# Audit-protocol verification

A Dafny model of the per-project DAG chain that the audit-protocol services keep in shared Redis keys, and
proofs about whole runs of it. One directory, one module per file, no dependencies:
`dafny verify dfyconfig.toml` verifies all of it.

## What is modelled

**The keys** (`Store`). A project is its finalized height, last DAG CID, `Cids` zset, pending-transaction
zset, discarded transactions, `payloadCids` zset and `dagSegments` hash. A CID stands for exactly one block
(content addressing without collisions), so a CID carries its whole history. Zsets indexed by height keep the
members of each score in Redis order; zsets that are looked up by member are maps from member to score.

**The finalizer** (`Finalizer`, `FinalizerService`). `FinalizerService.DagFinalizer` is the service with the keys as
fields, one method per step, among them the queue loop over a snapshot of the zset. `Finalizer` holds the
functions that say what each step leaves; a delivery is `Process`. They take the outside world as input: the
answers of the consensus service, fresh request IDs, clocks, and where in its block creations the process dies
(`Cut`). The services' methods are proved equal to these functions for deliveries that do not die.
`ChainInvariant`, `TornWrites`, `Queue`, `Deaths`, `PendingOrder`, `Healing`, `Segments`, `BoundaryAttempts` and
`Confluence` then prove what
those functions guarantee over runs that also contain commits, resubmissions and deliveries that die in arbitrary
places; `WitnessRuns` builds the runs that reach the unwelcome states. `LockMap` is the per-project lock, as a state
machine over the points at which tasks can be interleaved.

**The verifier** (`Epochs`, `PayloadMerge`, `GapScan`, `NullGaps`, `PayloadIndex`, `HealedIndex`, `GapRuns`). The epoch
arithmetic of payload-commit with Go's truncating division, the merge of the DAG and payload indexes with its
restarts, the incremental gap scan, what its reports mean for a chain with null blocks, and exactly when the index
reads of a cycle describe the chain, in particular after healing.

**Windows** (`Window`, `Aggregates`, `PrunedAggregates`). The head and tail markers of the sliding windows, and the
24h and 7d aggregates kept up to date by adding the front and subtracting the back of a window, also while the
index is pruned.

**Pruning** (`Pruning`, `WorkPartition`, `SystemRun`). Retiring segments in order; the spread of projects over
goroutines; and runs in which finalizer, commits, 7d index and pruner act on the same keys in any order.

**All together** (`WholeSystem`, `LaggingRun`, `StaleMembers`). Runs in which finalizer, pruner, index and aggregator
read what the others have left in the keys, and what two members at one height of the payload index stop.

**Text formats** (`Decimal`, `SegmentKeys`, `Money`). The two sort orders of segment keys, and the `US$` text.

`Sets`, `Numbers` and `Wrappers` hold helpers.

## Where the code differs from what one would expect

- Writing a block takes three key writes. A death between them leaves an index that no pruning height explains and
  that no later step repairs; nothing else does: `TornWrites.EveryRunIsIndexedExactly`.
- The segment hash is written before its boundary block. A segment whose boundary is attempted more than once, because
  a delivery died in that gap, becomes an empty range, and this is the only way to get one:
  `BoundaryAttempts.EveryRunTilesExactly`, with a run that does it in `WitnessRuns.TornBoundaryIsReached`.
- A chain with two confirmed entries at the next height is not healed, nor is one without any entry on a standalone
  system: `Healing.HealingMovesExactly` gives the exact condition, `WitnessRuns.TwoConfirmedIsReached` a run.
- Healing removes members of the payload index only at heights without consensus. A snapshot that was recorded for a
  height on which consensus then agrees on another one stays there, and for as long as both members stay, every
  verification that reads the height fails: `StaleMembers.TwoMembersStopEveryVerification`, from the state that
  `HealedIndex.StaleMemberIsReached` reaches; `StaleMembers.MembersMoveExactly` names what takes a member away, and
  `HealedIndex.HealedReadsDescribeExactly` says exactly when healing leaves readable indexes.
- A 7d index that first appears after its project was pruned by distance from the head begins at a height that is
  still there, but heights within the buffer below it may be gone: `SystemRun.LateTailMissesHeights`;
  `SystemRun.NeededHeightsStayIndexed` says exactly when.
- A failed write of a retired segment's storage type is only logged. The segment is retired again later, and the last
  pruned height may go back: `Pruning.PrunedHeightMayGoBack`; what other services need stays indexed all the same
  (`SystemRun.NeededHeightsStayIndexed`).
- The aggregator subtracts heights from its own processed tails on, the pruner follows the 7d tail. One that lags by no
  more than the buffer is right (`WholeSystem.BufferKeepsExact`); one that lags by more can go wrong
  (`LaggingRun.LaggingAggregatorGoesWrong`), exactly by the volume that was pruned from its stored windows
  (`PrunedAggregates.CommitDrifts`). This concerns the 24h window too, when its markers stay behind those of the week.
- A verifier that lags behind the pruner never reports the issues between its last block and the first one left:
  `GapScan.PrunedCycleExactly`.
- The epoch size of a project is saved before its first epoch end. If only the size gets saved, no later commit of the
  project ever gets a height (`Epochs.EpochKeys.AssignTentativeHeight`).
- Truncating division gives height 1 to every epoch end less than one epoch before the first one, too
  (`Epochs.HeightOneExactly`), and a height leads back to its epoch exactly for aligned epoch ends
  (`Epochs.EpochOfHeightOfEpoch`).
- Two missing heights with the same consensus snapshot share one member of the payload zset; the later height wins
  (`Healing.FillIndexExactly`).
- `docs/diagrams/dag_finalizer.puml` gives the epoch end of a missing height as height times epoch size plus the
  first end; the code uses height minus one, which is the inverse of the height assignment. The model follows the code.
- A verification cycle in which every block read of some project is null indexes an empty slice, and the whole
  verifier process dies. Other projects' issues are stored by then, but no last heights, so that the next run reports
  those issues again: `GapScan.IncrementalIsOneShot` is about one project whose heights get stored,
  `GapScan.EveryIssueIsReported` about all others.

## Model

| member | source | states |
|---|---|---|
| ChainInvariant.EveryRunIsIndexed | utils/dag_utils.py:248-300 | in every state of every run, with deliveries dying before, between or after blocks and in the middle of any queue write, Cids holds exactly one CID for each height 1..finalized, namely the ancestor of the last DAG CID at that height; every block links to its predecessor by prevCid, or by prevRoot where a segment begins; and no step ever replaces a finalized block |
| ChainInvariant.ProcessKeepsIndex | dag_finalizer.py:210-732 | one callback, whatever it carries, whatever the consensus service answers and wherever it dies, keeps that index and only extends the chain, also after pruning up to any height |
| ChainInvariant.WriteBlockExactly | utils/dag_utils.py:287-298 | the key writes of a block make it the last one and add its CID to those of its height, and change nothing else |
| TornWrites.EveryRunIsIndexedExactly | utils/dag_utils.py:287-298 | in every state of every run, deaths between the three key writes of a block included, the index is sound, for some pruning height, if and only if no process has died between them so far |
| TornWrites.TornWriteIsForever | utils/dag_utils.py:287-298 | from any sound state, pruned or not: after a death among the three key writes and any further run, the index is sound if and only if none or all of the writes had happened |
| ChainInvariant.WalkListsAncestors | utils/dag_utils.py:248-277 | walking prevCid-else-prevRoot from a block of height n visits n, n-1, ..., 1 and stops |
| ChainInvariant.FetchIsWalk | utils/retrieval_utils.py:37-65 | reading heights 1..finalized through the index succeeds and returns exactly the blocks of that walk, in its order |
| ChainInvariant.FetchChain | utils/retrieval_utils.py:50-65 | the reading loop itself, over the whole chain of an unpruned project, returns the walk from the last DAG CID |
| Store.FetchBlocks | utils/retrieval_utils.py:37-65 | blocks come newest first, one per height in the range; the loop fails exactly when some height has no index entry |
| Queue.DrainComplete | dag_finalizer.py:177-207 | working off the queue finalizes exactly the heights up to the first one without a confirmed entry, one block per height, each with the payload, transaction and timestamp of that height's first confirmed entry; exactly those heights leave the pending set |
| Queue.InOrderComplete | dag_finalizer.py:147-208 | an in-order callback finalizes its own height from its own data and then exactly the contiguous confirmed run above it |
| Queue.ConfirmedInPlace | dag_finalizer.py:170-176 | the confirmed entries of a height are exactly those marked -1, in the order in which they are listed |
| Queue.NullMarkers | utils/dag_utils.py:143-146 | a snapshot CID is a null marker exactly if it begins with `null` |
| Deaths.DeathStopsExactly | dag_finalizer.py:147-208 | a delivery in order whose process dies before a height is written, after a block is indexed or after its entries are cleared, that many blocks on, has finalized exactly the heights up to there, or the confirmed run if it is shorter; the entries of the last height stay exactly when it died between the index and the queue |
| PendingOrder.EveryRunIsListed | utils/dag_utils.py:47-95 | in every state of every run, whatever is submitted, resubmitted, delivered and healed, the entries of every height are in the order of their leading fields and none is there twice |
| PendingOrder.CommitsWriteExactly | go/payload-commit/main.go:519-593 | a submitted commit joins the entries of its height, a resubmitted one replaces them, and nothing else changes |
| PendingOrder.LexLessExactly | dag_finalizer.py:170-176 | texts are ordered by their first difference, a proper prefix first |
| Healing.EveryFaultFreeRunStrandsNothing | dag_finalizer.py:177-207 | in every state of every fault-free run no confirmed entry waits directly above the finalized height |
| Healing.HealingMakesProgress | dag_finalizer.py:491-681 | with consensus on and nothing confirmed at the next height, an accepted callback five or more heights ahead always finds a first confirmed height, finalizes every height below it (consensus snapshot where consensus was reached, null payload exactly elsewhere, with the all-zero transaction hash and the time at which its entry was made, the first one that of its creation) and goes on to the end of the contiguous confirmed run that starts there |
| Healing.HealingMovesExactly | dag_finalizer.py:438-694 | an early callback moves the finalized height if and only if it is five or more heights ahead and exactly one confirmed entry waits at the next height, or none does and consensus can be asked |
| Healing.ResumesExactly | dag_finalizer.py:438-490 | an early callback whose chain has one confirmed entry at the next height finalizes that height from the entry, under its own transaction hash, and then the confirmed run above; one less than five heights ahead, or with two such entries, or with none and no consensus, does no more than park its entry and resubmit |
| Healing.RejectedExactly | dag_finalizer.py:233-274 | a callback is recorded as discarded, with its height, exactly when that height is finalized or no entry of its request waits there; then chain, segments and payload index stay as they are; a late one leaves no entry waiting at its own height and every other height as it was, an unknown one leaves every height as it was |
| Healing.ResubmittedOnce | dag_finalizer.py:304-436 | a resubmission pass takes, at every height above the finalized one and ten or more below the callback, the last entry that nobody has confirmed or resubmitted, unless it lacks its commit data, marks it with the callback height, and changes no other entry |
| Healing.UnreachedHeightsAreNull | dag_finalizer.py:560-618 | after a fill, a missing height without consensus has no payload index entry other than its null marker |
| Healing.FillIndexExactly | dag_finalizer.py:572-618 | exactly what the payload index holds after a fill, member by member: a filled height's CID sits at the last filled height that has it; every other member is where it was, unless it was recorded for a filled height without consensus, where it is gone |
| Healing.DeliveryStrandsNothing | dag_finalizer.py:210-732 | one fault-free callback of any kind leaves no confirmed entry directly above the finalized height if there was none |
| Confluence.ConfluesWithStrictOrder | dag_finalizer.py:233-310 | callbacks for heights 1..n in any order and with any repeats, none of which meets healing, end at height n with the last CID (and so every block), Cids reads and segments of strict in-order delivery |
| Confluence.OrderDoesNotMatter | dag_finalizer.py:695-732 | two such runs that delivered the same set of heights, complete or not, agree on finalized height, every block, every index read and every segment |
| Confluence.DeliveryReflects | utils/dag_utils.py:72-95 | a single delivery, early, late, repeated or in order, leaves the state that belongs to the enlarged set of delivered heights: the in-order chain up to its first gap, and one entry with its callback's data for every delivered height above |
| Confluence.StrictOrderIsCalm | dag_finalizer.py:695-732 | strict in-order delivery never meets healing and finalizes one height per callback, so the reference of the confluence theorem exists for every workload |
| Segments.EveryRunTiles | dag_finalizer.py:109-145 | in runs without a death between a segment write and its boundary block, the segments are exactly [(k-1)S+1, kS] for every k with kS below the finalized height, and each names the block at kS |
| Segments.SegmentWalk | utils/dag_utils.py:255-257 | following prevCid alone from a segment's endDAGCID visits exactly the heights of the segment, the blocks the index lists for them, and stops at a block without prevCid |
| Segments.ProcessKeepsTiling | dag_finalizer.py:159-207 | one callback keeps the tiling; recorded segments stay as they are and new ones are pending |
| BoundaryAttempts.SegmentWriteExact | dag_finalizer.py:134-145 | the segment written before a boundary block is the right tile if and only if the hash has no entry for that end height yet; a repeated attempt writes an empty range |
| BoundaryAttempts.EveryRunTilesExactly | dag_finalizer.py:159-190 | in every run, with deaths anywhere, a segment is recorded if and only if its boundary was attempted, it is the right tile if and only if that happened exactly once, and an empty range that names the right block if and only if it happened more often |
| WitnessRuns.TornBoundaryIsReached | dag_finalizer.py:159-164 | for every segment size and workload, ordinary traffic, one death before the first boundary block and the same callback again leave the first segment as an empty range |
| WitnessRuns.TwoConfirmedIsReached | dag_finalizer.py:446-490 | two commits for one height, their early callbacks and a death after the block below reach a state with two confirmed entries at the next height, which healing does not move |
| FinalizerService.DrainListIsDrain | dag_finalizer.py:170-207 | one pass over a sorted snapshot of the queue does what looking up the next height again after every block does |
| FinalizerService.DagFinalizer.IdentifyTarget | dag_finalizer.py:109-145 | adds the segment from the last recorded end to the height below the boundary, with the indexed block at that height; changes nothing when there is none |
| FinalizerService.DagFinalizer.CreateDagBlock | utils/dag_utils.py:235-300 | links to the indexed parent by prevCid or prevRoot and sets blockHeight, lastDagCid and Cids, nothing else |
| FinalizerService.DagFinalizer.CreateInOrder | dag_finalizer.py:147-208 | the service's block creation and queue loop leave the state of the specified in-order step |
| FinalizerService.DagFinalizer.SaveEventData | utils/dag_utils.py:47-95 | at the callback height the old entry goes and a confirmed one comes, with its transaction hash and request ID and the data of the callback; every other entry and height stays as it was |
| FinalizerService.DagFinalizer.ResubmitStale | dag_finalizer.py:304-436 | the resubmission loop leaves the state of the specified pass |
| FinalizerService.DagFinalizer.FillMissing | dag_finalizer.py:536-640 | the loops over missing heights leave the pending set of `FillMakesUp` and the payload index of `Healing.FillIndexExactly` |
| FinalizerService.FillMakesUp | dag_finalizer.py:536-640 | a fill gives every missing height one more entry, confirmed, with a fresh request ID, the all-zero transaction hash, the time of its making, and as snapshot the consensus answer or else `null_` with the decimal text of the end of the epoch of that height; no other entry comes or goes |
| Decimal.IntTextIsText | dag_finalizer.py:603 | a printed number has no leading zeros, a sign only if it is negative, and the value of the number |
| FinalizerService.DagFinalizer.HealChain | dag_finalizer.py:438-694 | the healing branches leave the state of `Healing.ResumesExactly` and `Healing.HealingMakesProgress` |
| FinalizerService.DagFinalizer.ProcessCallback | dag_finalizer.py:210-732 | the whole callback leaves the specified state: the one about which all run theorems speak, and which `Healing.RejectedExactly`, `Queue.InOrderComplete`, `Healing.ResumesExactly` and `Healing.HealingMakesProgress` spell out for late, unknown, in-order and early callbacks |
| LockMap.MutualExclusion | dag_finalizer.py:37-67 | for any number of tasks in any interleaving at most one task per project is in the protected body |
| LockMap.FirstComeFirstServed | dag_finalizer.py:50-67 | tasks enter the body in the order in which they started, and if some have not entered, one is inside or the first of them can go on |
| LockMap.LockIsForever | dag_finalizer.py:37-67 | a project's lock is created once, is never replaced, and no other project gets the same one |
| LockMap.ActionsDo | dag_finalizer.py:37-67 | in every state of every run: a task that starts is recorded as arrived and goes in at once if nobody is inside and nobody waits, else it waits; of those who wait the first in line can go in as soon as nobody is inside, and nobody else can; a task that is inside can leave; nothing else happens to any task |
| Epochs.HeightOfEpochOfHeight | dag_finalizer.py:521-526 | the epoch that healing asks for at height k is one whose commit is assigned height k, for every height |
| Epochs.EpochOfHeightOfEpoch | go/payload-commit/main.go:222-233 | the height assigned to an epoch end leads back to it if and only if it is a whole number of epochs away from the first end |
| Epochs.HeightOneExactly | go/payload-commit/main.go:222-233 | height 1 is assigned exactly to epoch ends less than one epoch size away from the first end, on either side |
| Epochs.EpochsTile | dag_finalizer.py:521-533 | every source height from the first epoch on lies in the epoch of exactly one DAG height, and that epoch adjoins the next |
| Epochs.EpochKeys.AssignTentativeHeight | go/payload-commit/main.go:222-256 | the first commit gets height 1 and fixes both epoch keys; later commits keep them and get the height of their epoch end; a failed key write gives height 0, and a saved size without a saved first end gives every later commit height 0 |
| PayloadMerge.MergeWithRestarts | go/dag-verifier/dag_verifier.go:641-698 | the loop with its restarts terminates for every input and gives what the merge without restarts gives |
| PayloadMerge.RestartIsRedundant | go/dag-verifier/dag_verifier.go:641-698 | starting over from any paired position gives the outcome of going on |
| PayloadMerge.MergedPairs | go/dag-verifier/dag_verifier.go:645-698 | on success the first entries of the chain pair one to one, by height and payload CID, with exactly the non-null payload entries in order |
| PayloadMerge.SameHeightsMerge | go/dag-verifier/dag_verifier.go:641-698 | indexes with the same heights always merge, into exactly the blocks with a non-null payload, in order |
| PayloadMerge.MergeSucceedsExactly | go/dag-verifier/dag_verifier.go:641-698 | with one block per height the merge succeeds if and only if the payload entries are, height by height, those of the first blocks; it then never needs a block from IPFS |
| PayloadMerge.MergeWaitsExactly | go/dag-verifier/dag_verifier.go:641-698 | with one block per height the merge has to wait if and only if there are more payload entries than blocks and the blocks match the first entries |
| PayloadMerge.DuplicatesMerge | go/dag-verifier/dag_verifier.go:650-679 | with any number of blocks per height and non-null payload entries the merge keeps the first block of every height with its payload, and the extra blocks of the last height, if and only if every extra block below the last height can be fetched and links to the same payload as the first; otherwise the first that does not decides: the indexes are inconsistent if both blocks can be fetched, else the fetch failed |
| GapScan.VerifyDagForIssues | go/dag-verifier/dag_verifier.go:701-741 | for every chain: a duplicate height h is reported if and only if some block ends at a height other than 0 and it and the next one are at h; a gap a..b at h if and only if some block at h begins at b+1, not 0, after one that ends at a-1, not 0, and b+1 is not a; and there are as many issues as positions that call for one |
| GapScan.ScanExactly | go/dag-verifier/dag_verifier.go:706-741 | every issue stands for one position of the chain, every position that calls for an issue has it, and issues come in the order of their positions, the duplicate before the gap |
| GapScan.ScanSplits | go/dag-verifier/dag_verifier.go:701-741 | scanning a chain in two parts that share one block reports every issue of the whole once |
| GapScan.IncrementalIsOneShot | go/dag-verifier/dag_verifier.go:347-415 | for every division of a growing chain into verification cycles, null blocks anywhere, the cycles together report what one scan of the whole reports, each issue once, and remember the last non-null height |
| GapScan.PrunedCycleExactly | go/dag-verifier/dag_verifier.go:581-613 | a cycle over an index pruned meanwhile completes the one-shot report if and only if no issue lies between the last verified block and the first one still indexed; otherwise exactly those issues are missing, and none are as long as the last verified height is still indexed |
| GapScan.PrunedRunExactly | go/dag-verifier/dag_verifier.go:581-613 | over any run of cycles, growth and pruning the reported issues fall short of one scan by exactly those in the forgotten parts, so that they are complete if and only if there were none |
| GapScan.EveryIssueIsReported | go/dag-verifier/dag_verifier.go:277-293 | with cycles whose last heights are lost, because some project ended the process before they were stored, issues may be reported again, but the issues reported are exactly those of one scan of the longest chain looked at |
| GapScan.DagVerifier.VerifyDagChain | go/dag-verifier/dag_verifier.go:347-441 | a cycle that scans adds to the project's issues exactly those that the positions of the merged chain call for, in order, notes its last height, and touches no other project; one that fails notes nothing; the process dies if and only if the merge leaves no block |
| NullGaps.NullRunsReportedExactly | go/dag-verifier/dag_verifier.go:720-732 | for every pattern of null blocks there is one gap issue per maximal null run a..b between non-null blocks, at height b+1, with source range [(a-1)E+F-E+1, (b-1)E+F], and no other issue |
| NullGaps.SilentExactly | go/dag-verifier/dag_verifier.go:720-732 | blocks that cover the epochs of their heights raise no issue if and only if their heights leave none out: so pruning hides exactly the null runs between the last verified block and the first one still indexed |
| NullGaps.ReadsGiveCycle | go/dag-verifier/dag_verifier.go:351-401 | a cycle whose index reads describe the chain from the last verified height on merges, and is the cycle of the incremental scan |
| PayloadIndex.DescribesExactly | go/dag-verifier/dag_verifier.go:581-639 | for every project state, the two index reads of a cycle describe its chain if and only if the payload index has, at every height read, exactly one member per block, null-marked for a null block and covering the payload's range otherwise, and nothing else |
| HealedIndex.HealedReadsDescribeExactly | dag_finalizer.py:545-618 | a healing callback, whatever consensus answers, leaves index reads that describe the chain if and only if the payload index, the answers and the queue before it fit: no consensus CID is recorded outside the fill or shared with a later filled height, and nothing else is recorded for a height with consensus (or happens to stand for the same range) |
| HealedIndex.HealingIsReported | dag_finalizer.py:521-618 | under that condition, wherever verification stands, the next cycle succeeds, and all reported then is one gap issue per maximal null run between payload-carrying blocks with its exact source range; among filled heights the null ones are exactly those without a consensus snapshot |
| GapRuns.GapRunIsReported | dag_finalizer.py:491-681 | after any number of heights with distinct snapshots, one callback four heights too early and no consensus for the heights between, every verification from scratch succeeds and reports exactly one gap, at the callback's height, with exactly the source range of the four epochs |
| HealedIndex.StaleMemberStopsVerification | dag_finalizer.py:591-618 | a snapshot recorded earlier for a height on which consensus gave another one stays beside it after healing, and then no verification that reads this height succeeds |
| StaleMembers.TwoMembersStopEveryVerification | go/dag-verifier/dag_verifier.go:641-698 | from any state with two members at one height on, through any run of callbacks, healing, commits, deaths and pruning in which no action takes one of them away, no verification that reads this height succeeds |
| StaleMembers.MembersMoveExactly | dag_finalizer.py:572-618 | an action takes a member away from a finalized height if and only if it records the member for another height, is a healing callback that fills another height with it, is a death that rewrote the index, or is a pruning cycle that reaches the height |
| HealedIndex.StaleMemberIsReached | dag_finalizer.py:591-618 | after any number of finalized heights a run of one lost callback, one callback four heights above and one differing consensus answer reaches that state |
| Window.FindTail | proto_sliding_window_cacher_service.py:57-102 | the loop returns the first height from the given tail on, below the head, whose block is non-null and in the window; none if there is none or the head has no payload |
| Window.WindowIndex.BuildPrimaryIndex | proto_sliding_window_cacher_service.py:105-171 | both markers move to the head and the found tail, or none moves |
| Window.ResumedSearchIsFullSearch | proto_sliding_window_cacher_service.py:151-155 | on a grown chain with non-decreasing timestamps and a head that did not move back, the search from the stored tail finds what a search from height 1 finds |
| Window.MovedIsSearched | proto_sliding_window_cacher_service.py:132-171 | a cycle keeps the markers equal to a search from height 1 for the stored head |
| Window.WeekDominatesDay | proto_sliding_window_cacher_service.py:132-171 | in every cycle in which the 24h markers move the 7d markers move to the same head and to a tail that is not later; the 7d head is never behind the 24h head |
| Window.AdjustHead | proto_sliding_window_cacher_service.py:205-226 | the search for a common source height passes only blocks that end elsewhere and stops at a matching block, after eleven steps or at height 1; it raises exactly when a null block comes first |
| Window.TailExactly | proto_sliding_window_cacher_service.py:52-102 | a height is the tail found for the window named 24h, 7d or otherwise if and only if it is the first from the start on, below the head, with a readable block at most 86400, 604800 or 3600 seconds older than that of the head |
| Window.IndexCycleExactly | proto_sliding_window_cacher_service.py:132-171 | one cycle moves the day markers to the head and the first height, from the stored tail or 1 on, within 86400 seconds of it, the week markers likewise with 604800, and leaves a window alone exactly when there is no such height |
| Aggregates.GetDagBlocksInRange | pair_data_aggregation_service.py:46-76 | the loop returns exactly the non-null blocks of the range, newest first |
| Aggregates.VolumeIsSum | pair_data_aggregation_service.py:285-300 | the volume of the blocks in a range is the plain sum over its heights with null blocks counting nothing |
| Aggregates.PairAggregator.ProcessPair | pair_data_aggregation_service.py:391-733 | a cycle commits if and only if there is liquidity, all four markers are there and not 0, both heads are above 1, and both windows have a block, or, with stored aggregates, the 24h head moved ahead, the 7d head is ahead of the stored 24h head, both fronts have a block and both new tails are readable; it then stores the markers and every field, the 7d fees aside: the sum over the window at first, later the stored value less the sum over the heights left behind plus that over those gained; otherwise it changes nothing |
| Aggregates.Slide | pair_data_aggregation_service.py:608-648 | for every field, the sum over the new window is that over the old one less the back plus the front, even when the new tail is past the old head |
| Aggregates.CommitIsExact | pair_data_aggregation_service.py:461-724 | every commit stores, for both windows and field by field (7d fees stay 0), the real sum of that field over the non-null blocks of the window between the current markers |
| Aggregates.EveryRunIsExact | pair_data_aggregation_service.py:527-580 | in every state of every run of growth, indexing and aggregation each stored field is the sum of that field over the non-null blocks of its stored window (7d fees stay 0) |
| Aggregates.MovedHeadCommits | pair_data_aggregation_service.py:528-570 | in every run with ordered timestamps and heads, an aggregation after the 24h head moved commits both windows up to date, so comparing the 7d head with the 24h processed head drops no front block |
| PrunedAggregates.PrunedCommitExactly | pair_data_aggregation_service.py:461-581 | whatever is pruned, a commit on top of right aggregates, or of none, stores the right sums if and only if the pruned part of the stored windows, or for a first commit of the new ones, had no volume |
| PrunedAggregates.CommitDrifts | pair_data_aggregation_service.py:461-648 | whatever is pruned and whatever the stored aggregates are off by, those of a commit are, field by field, off by exactly that plus the pruned part of the stored windows |
| WholeSystem.EveryJointRunIsAccounted | pair_data_aggregation_service.py:391-733 | in every state of every run of finalizer, commits, deaths, healing, index moves, pruning cycles and aggregations on the same keys, each reading what the others left, each stored field is the sum of that field over its window of the finalized chain plus what the commits so far lost of it to pruning |
| WholeSystem.JointRunIsExactExactly | pair_data_aggregation_service.py:608-648 | in every such state the stored aggregates are right if and only if these losses add up to nothing |
| WholeSystem.BufferKeepsExact | go/pruning-archival/main.go:303-311 | they are right in every state of every such run in which, at each aggregation, the stored windows begin no further below the 7d tail than the buffer |
| LaggingRun.LaggingAggregatorGoesWrong | pair_data_aggregation_service.py:543-581 | for every segment size and buffer, a run from the empty project in which a pair is aggregated, the index moves on by more than the buffer, one segment is pruned and the pair is aggregated again ends with a successful commit of wrong sums |
| Pruning.SortKeysAsNumber | go/goutils/commonutils/sort.go:9-39 | every segment end once, in ascending order |
| Pruning.Pruner.ProcessProject | go/pruning-archival/main.go:265-472 | the oldest height is the 7d tail, or lies the fixed distance behind the head without one; a cycle retires as `RetiredExactly` says below that height less the buffer, and returns -2 if and only if a segment whose turn comes fails, else 0 if and only if there is one, else 1; it does nothing if the oldest height is unknown or the pruning height is not above the last pruned one |
| Pruning.RetiredExactly | go/pruning-archival/main.go:392-466 | after a pass a segment is cold if and only if it was, or it was reached and noted with archival on and its archive uploaded; pruned if and only if it was, or it was reached and noted with archival off; reached are the pending segments below the pruning height up to which every one can be read and archived; the last reached becomes the last pruned height, and each index loses exactly the heights up to a reached segment whose removal worked, if indexes are pruned at all |
| Pruning.PassExactly | go/pruning-archival/main.go:392-466 | a pass retires exactly the pending segments that end below the pruning height, in order, up to the first whose archive or reads fail; it changes the storage type of those noted, sets the last pruned height to the last of them, removes from each index exactly what lies at or below the last end whose removal worked, and changes nothing else |
| Pruning.PassKeepsPrefix | go/pruning-archival/main.go:392-466 | from a state in which the retired segments are those up to the last pruned height, a pass keeps it that way if and only if every storage type it wrote was noted; it retires all ends below the pruning height, or all before the failed one and nothing at or beyond it |
| Pruning.PrunedHeightMayGoBack | go/pruning-archival/main.go:339-360 | a segment whose storage type was not noted is retired once more, and a pass that finds nothing else sets the last pruned height back to its end |
| SystemRun.EveryRunIsSafe | go/pruning-archival/main.go:303-311 | in every run of callbacks, commits, deaths anywhere, pruning cycles with archives, reads, notes and removals failing anywhere, and tail moves, whenever the first tail appears: the index above the forgotten heights is sound, segments are tiles or empty ranges with the right block, and pruned and forgotten heights lie below the finalized one and the 7d tail |
| SystemRun.EveryNotedRunRetiresPrefix | go/pruning-archival/main.go:392-466 | in every such run whose storage types get noted the retired segments are exactly those up to the last pruned height |
| SystemRun.EveryCleanRunTiles | go/pruning-archival/main.go:392-466 | in such runs without a death between a segment and its boundary block every segment is a tile, retired or not |
| SystemRun.NeededHeightsStayIndexed | go/pruning-archival/main.go:265-311 | in every state of every such run the parent of the next block is indexed, every finalized height from the 7d tail on gives its block, and so does every one from the buffer below it on if and only if the pruned heights lie below the tail less the buffer; they always do when they did as the first tail appeared |
| SystemRun.IndexedFromExactly | go/pruning-archival/main.go:536-551 | every finalized height from a given one on gives its block if and only if nothing from there on was forgotten |
| SystemRun.PruneSparesExactly | go/pruning-archival/main.go:303-311 | a pruning cycle without failures spares a height if and only if it was spared before and every pending segment end below the pruning height, which is the 7d tail less the buffer, is below it |
| SystemRun.LateTailMissesHeights | go/pruning-archival/main.go:266-283 | for every segment size, distance from the head and positive buffer there is a run in which a project is pruned by that distance before its first 7d tail appears, and heights within the buffer below the tail are gone |
| SystemRun.PruneStepIsSafe | go/pruning-archival/main.go:362-472 | one pruning cycle on the shared keys, whatever fails in it, keeps all of it and forgets only heights below the tail less the buffer |
| SystemRun.CycleExactly | go/pruning-archival/main.go:362-472 | a pruning cycle does to the shared keys what its pass does to its due segments, all of which are pending and end below the tail less the buffer and below the finalized height |
| SystemRun.CycleStores | go/pruning-archival/main.go:265-472 | on the shared keys a cycle makes cold, with archival on, or pruned, with archival off, exactly the pending segments whose end plus the buffer lies below the 7d tail, or below the fixed distance behind the finalized height without one, none of which up to it fails, whose new type gets noted |
| SystemRun.EveryRunStoresAsSet | go/pruning-archival/main.go:408-424 | in every state of every run with archival on no segment is pruned, and in every one with archival off none is cold |
| WorkPartition.Partition | go/pruning-archival/main.go:199-242 | for every total and concurrency of at least 1 every project index lies in a chunk, chunks are disjoint and in range, and at most `concurrency` goroutines start |
| WorkPartition.EveryProjectOnce | go/pruning-archival/main.go:213-237 | in whatever order the goroutines take turns over the chunks, no project is processed twice; all of them have returned if and only if every project was processed exactly once, if and only if the success, not-processed and failed counts add up to the number of projects; each count is the number of processed projects that returned 0, 1 or anything else |
| SegmentKeys.KeyOrderIsNumericOrder | dag_finalizer.py:134-137 | for all naturals the order by length and text of canonical decimal keys is the numeric order |
| SegmentKeys.SortedForBoth | go/goutils/commonutils/sort.go:17-39 | a list of keys is sorted for the finalizer if and only if it is for the pruner |
| Money.MoneyRoundTrip | v2_pairs_daily_stats_snapshotter.py:49-52 | for every natural number, unpacking its printed `US$` text gives it back |
| Money.UnpackExactly | v2_pairs_daily_stats_snapshotter.py:49-52 | an amount with or without separators reads as the number that its other characters spell if there are any and all are digits, and raises otherwise |
| Money.SeparatorEveryThreeDigits | pair_data_aggregation_service.py:693-696 | counted from the right, exactly every fourth character of a printed amount is a separator, and none leads |

## Left out

- HTTP, RabbitMQ, Redis, IPFS and Slack clients, retries, rate limits and logging: reads and writes succeed, or fail where a member says so.
- Notifications, commit callbacks, stuck-chain counters, severity summaries and issue caches: reporting only.
- `go/token-aggregator/main.go`: it accumulates per-token sums in the manner of `Aggregates`, with fewer cases.
- The segment verifier of `go/dag-verifier/pruning_verifier.go`: its comparison height is never assigned. The prevCid walk it relies on is `Segments.SegmentWalk`.
- Liquidity, recent transaction logs and price data in the pair aggregation: liquidity is a flag that allows or stops a cycle.
- Block contents that no step reads (API key hashes, payload commit IDs, anchor-proof flags) and JSON text, except that ties between equal scores follow the members' leading fields.
- An entry whose stored height differs from its score.
- A consensus answer that reports success without a snapshot CID, which raises, and the type test on the whole list of answers at dag_finalizer.py:550, which never holds.
- payload-commit rewriting pending entries in the middle of a finalizer step: its writes are steps between deliveries.
- Cancellation of tasks that wait for or hold a lock.
- ChainInvariant.EveryRunIsIndexed: its runs have no deaths between the three key writes of one block; `TornWrites.EveryRunIsIndexedExactly` has the exact result for runs with them.
- Segments.EveryRunTiles: excludes a death between the segment write and the boundary block, where it is false; `BoundaryAttempts.EveryRunTilesExactly` has the exact result for all runs. It needs a segment size of at least 2, since `h % 1 == 1` never holds.
- Two CIDs at one height, which only a death among the key writes of a block leaves, stay in the order of writing; Redis orders them by text. Nothing is claimed about which of them is read.
- PendingOrder.EveryRunIsListed: orders entries by transaction hash and request ID, the leading fields of their text; entries that agree on both keep the order in which they came.
- PayloadMerge.DuplicatesMerge: payload entries that are not null; `PayloadMerge.SameHeightsMerge` and `PayloadMerge.MergedPairs` are about null ones.
- Deaths.DeathStopsExactly: deaths between blocks; `TornWrites.TornWriteIsForever` is about those between the key writes of one block.
- Confluence.ConfluesWithStrictOrder: excludes callbacks that reach healing, which fills the missing heights from other data; `Healing.HealingMovesExactly` and `Healing.HealingMakesProgress` say what happens then.
- GapScan.IncrementalIsOneShot: takes strictly ascending heights, which is what every index that the finalizer writes has, and one project whose heights are stored after every cycle over a complete index; `GapScan.PrunedRunExactly` and `GapScan.EveryIssueIsReported` are about the other cases.
- A confirmed entry without stored commit data, which no service writes, and which would raise when its turn comes.
- PayloadMerge.MergedPairs: says nothing about blocks beyond the payload entries, which the loop leaves in place.
- Aggregates.EveryRunIsExact: takes reads of the whole chain and exact arithmetic; `WholeSystem.EveryJointRunIsAccounted` is about reads through a pruned index. Reads that fail for other reasons and the rounding of floating-point sums are not modelled.
- Window.AdjustHead: one project; the loop over projects repeats it.
- Pruning.Pruner.ProcessProject: unpinning, deletion from the local cache and the report it writes are left out, and so is a restart with an older last pruned height.
- Money.UnpackExactly: reads decimal digits only; Python's `int` also takes signs, spaces and underscores, which no printed amount has.
- Money.MoneyRoundTrip: takes the natural number that was printed; rounding of the amount before that is not modelled.
