# Superbank: verified models

Superbank serves Solana RPC from a chain of tiers: a head cache fed by a stream, a disk cache, and
ClickHouse as the primary. This project models the parts of it where being wrong is easy, in Dafny
4.11, and proves what they promise. Check everything with `dafny verify dfyconfig.toml`.

| files | what they model |
|---|---|
| `SlotCoverage.dfy`, `BlockRange.dfy` | claims about slot intervals, their merging, and getBlocks over all tiers |
| `CacheRefresh.dfy`, `CacheRefreshResults.dfy`, `CacheRefreshOutcomes.dfy`, `CacheRefreshRaces.dfy` | the single-flight refresh of the latest-slot and latest-height caches, as a transition system over interleaved loads, stores, lock operations and cancellations |
| `SearchText.dfy`, `ChunkMatch.dfy`, `SubsequenceMatch.dfy`, `Highlight.dfy` | the fuzzy matcher of the configuration page |
| `World.dfy`, `WorldResults.dfy`, `WorldHistory.dfy`, `WorldObject.dfy` | banks, commitments and reads of the Alpenglow page's model, over arbitrary operation sequences |
| `AbsenceCache.dfy`, `AbsenceProtocol.dfy`, `AbsenceRuns.dfy` | the cache of signatures the primary did not know, and how requests fill and consult it while every tier moves on |
| `CertificateWire.dfy`, `CertificateCache.dfy` | the genesis certificate source: decoding and the timed cache |
| `ParticlePool.dfy` | the swap-remove particle pool of the flow scene, and what arriving particles set off |
| `Basics.dfy`, `Sorting.dfy` | machine words, optional values, sorting |

Where the source changes things in place the model does too (`SlotCoverage`, `World`, `ChunkMatcher`,
`StatusHistoryCache`, `Pool`): each method is proved against a function on values, and the properties
are proved about that function. Protocols with many concurrent callers are transition systems whose
invariants are proved over all runs.

Assumptions the theorems name explicitly: a claim's slots are strictly ascending when it enters a
checked merge; tiers tell the truth about what they vouch for; consensus commits at most one bank per
slot and tokens never go down; the primary holds all history up to the disk tip. Loads and
stores are sequentially consistent. The wall clock of the refresh caches is unconstrained (it may
jump backwards); the certificate source's clock is monotonic.

Results that go against expectation:

- A height can be served for the wrong slot, in two ways: a refresh has stored its height but not yet
  its slot, or a whole refresh falls between the reader's loads
  (`CacheRefreshRaces.TornHeightCanBeServed`, `CacheRefreshRaces.OvertakenHeightCanBeServed`; exactly
  when: `CacheRefreshResults.HeightBelongsIff`).
- The runtime-teardown branch of the leader's destructor strands waiters for good
  (`CacheRefreshRaces.TearDownCanStrandWaiter`; exactly when:
  `CacheRefreshResults.WaiterCanBeWokenUnlessOrphaned`).
- Banks published above the newest head slot can leave more than `retain` banks in the head cache
  (`AlpenglowResults.PublishingAboveHeadBreaksBound`; exactly when:
  `AlpenglowResults.EvictionBoundsHeadIff`).
- Skipping the primary for a signature it did not know can hide a landing in two ways: the head gets a
  slot below its trusted tip only after the lookup (`AbsenceRuns.LateSlotCanHideLanding`), or the
  primary has run past that tip unnoticed (`AbsenceRuns.StalePrimaryTipCanHideLanding`; exactly when,
  for both: `AbsenceRuns.SkipHidesNothingIff`). The comment above `head_extends_disk`
  (`crates/superbank-rpc/src/handlers/signatures.rs:529-530`) takes it that the lookup has seen all up
  to the trusted tip; the code does not make sure of it.

## Model

| member | source | states |
|---|---|---|
| `SlotCoverages.GapsExact` | crates/superbank-rpc/src/slot_coverage.rs:68-91 | `gaps(start, end)` lists non-empty, ascending, non-adjacent intervals inside the range that contain exactly its uncovered slots, up to `u64::MAX` |
| `SlotCoverages.CanonicalIsUnique` | crates/superbank-rpc/src/slot_coverage.rs:68-91 | a set of slots has only one such list |
| `SlotCoverages.GapsDependOnCoveredSlots` | crates/superbank-rpc/src/slot_coverage.rs:68-91 | coverages of the same slots ask for the same gaps, however their intervals are split or overlap |
| `SlotCoverages.MergeUnion` | crates/superbank-rpc/src/slot_coverage.rs:20-26 | `merge` unions slots and intervals of any two claims, and leaves the slots strictly ascending and the intervals ascending |
| `SlotCoverages.MergeFaithful` | crates/superbank-rpc/src/slot_coverage.rs:20-26 | merging two valid claims that tell the truth gives a valid claim that tells the truth |
| `SlotCoverages.ExcludeExact` | crates/superbank-rpc/src/slot_coverage.rs:58-66 | `exclude` takes exactly the excluded slots out of the vouched-for set and keeps the answers for the rest, without needing its own intervals in order |
| `SlotCoverages.ExcludeBreaksOrder` | crates/superbank-rpc/src/slot_coverage.rs:58-66 | `exclude` can leave the intervals out of the order that `gaps` needs, so the closing `merge` is necessary |
| `SlotCoverages.ExclusionsExact` | crates/superbank-rpc/src/slot_coverage.rs:29-50 | the collected conflicts cover exactly the slots lying in an overlap on which the two claims differ |
| `SlotCoverages.MergeCheckedExact` | crates/superbank-rpc/src/slot_coverage.rs:29-55 | `merge_checked` covers a slot iff either input did and it lies in no disagreeing overlap, lists the inputs' slots there, reports true iff some overlap disagreed, and returns a valid coverage |
| `SlotCoverages.SurvivorsAgreeWithBoth` | crates/superbank-rpc/src/slot_coverage.rs:29-55 | where both inputs claimed a slot that survives, the result agrees with both |
| `SlotCoverages.MergeCheckedCommutes` | crates/superbank-rpc/src/slot_coverage.rs:29-55 | swapping the inputs gives identical slots, identical intervals and the same verdict |
| `SlotCoverages.MergeCheckedIsNotAssociative` | crates/superbank-rpc/src/slot_coverage.rs:29-55 | the grouping of three sources matters: for any two claims that contradict each other about a slot, repeating the second keeps or loses the slot depending on the order |
| `SlotCoverages.FaithfulInputsNeverConflict` | crates/superbank-rpc/src/slot_coverage.rs:29-55 | two claims that tell the truth never conflict, and their checked merge covers the union and tells the truth |
| `SlotCoverages.FaithfulInputIsNeverOverruled` | crates/superbank-rpc/src/slot_coverage.rs:29-55 | on what a truthful input vouched for, a lying input can only cause silence, never a wrong answer |
| `SlotCoverages.GapFillingRefinesScan` | crates/superbank-rpc/src/slot_coverage.rs:68-91 | claimed slots and the true slots inside the gaps are disjoint and together are the true slots of the range |
| `SlotCoverages.SlotCoverage.constructor` | crates/superbank-rpc/src/slot_coverage.rs:12-17 | a coverage of one interval with the given slots |
| `SlotCoverages.SlotCoverage.Merge` | crates/superbank-rpc/src/slot_coverage.rs:20-26 | updates the object as the specified merge |
| `SlotCoverages.SlotCoverage.MergeChecked` | crates/superbank-rpc/src/slot_coverage.rs:29-55 | the pairwise conflict loops, both exclusions and the final merge compute the specified checked merge and verdict |
| `SlotCoverages.SlotCoverage.Exclude` | crates/superbank-rpc/src/slot_coverage.rs:58-66 | the flat-map and retain compute the specified exclusion |
| `SlotCoverages.SlotCoverage.Gaps` | crates/superbank-rpc/src/slot_coverage.rs:68-91 | the cursor loop computes the specified gaps and never overflows |
| `BlockRanges.MemoryCoverage` | crates/superbank-rpc/src/handlers/block_ranges.rs:165-186 | head and index are merged with checking, a contradiction discards both, and when the index contributes |
| `BlockRanges.MemoryClaimIsGood` | crates/superbank-rpc/src/handlers/block_ranges.rs:165-186 | the memory proof tells the truth when both tiers do, and also whenever they contradict each other |
| `BlockRanges.MemoryClaimIsExact` | crates/superbank-rpc/src/handlers/block_ranges.rs:165-186 | without a contradiction the memory proof covers and lists what either tier does, with one nothing |
| `BlockRanges.DiskCoverage` | crates/superbank-rpc/src/handlers/block_ranges.rs:188-207 | the proof grows by exactly what the disk cache, asked about each gap, vouches for, and stays true; it contributes iff some reply claims anything |
| `BlockRanges.MergeSortedBlockSlots` | crates/superbank-rpc/src/handlers/blocks.rs:222-269 | the two-pointer merge of ascending lists gives the ascending union, without repeats when both are non-empty |
| `BlockRanges.FillFromPrimary` | crates/superbank-rpc/src/handlers/block_ranges.rs:246-272 | the answer adds exactly the true slots of the gaps; there is none iff the primary fails on one of them |
| `BlockRanges.GetBlockSlots` | crates/superbank-rpc/src/handlers/block_ranges.rs:224-279 | getBlocks returns exactly the true slots of the range in order, or nothing precisely when an authoritative head tip is contradicted or a primary read fails; the primary is asked about exactly the slots that neither memory nor disk vouches for |
| `CacheRefresh.StepKeepsProtocol` | crates/superbank-rpc/src/state.rs:129-176 | every interleaved step of any number of tasks, with cancellation at every await, keeps the lock, ownership, notifier and waiter invariants |
| `CacheRefresh.StepKeepsInv` | crates/superbank-rpc/src/state.rs:204-276 | every step also keeps the cells equal to the latest entries of their store histories and every reader consistent with them |
| `CacheRefresh.ReachableInv` | crates/superbank-rpc/src/state.rs:186-277 | the whole invariant holds in every reachable state |
| `CacheRefreshResults.SingleFlight` | crates/superbank-rpc/src/state.rs:221-254 | at most one backend fetch is in flight per cache, and it belongs to the registered notification |
| `CacheRefreshResults.RegisteredHasOneOwner` | crates/superbank-rpc/src/state.rs:227-239 | a registered notification has exactly one owner (armed leader or pending cleanup), except exactly when runtime teardown orphaned it |
| `CacheRefreshResults.CleanupRemovesOnlyItsOwn` | crates/superbank-rpc/src/state.rs:135-149 | a cleanup clears its own entry and never another leader's |
| `CacheRefreshResults.NoWakeupIsLost` | crates/superbank-rpc/src/state.rs:227-229 | a parked waiter has been notified since it was created, or an owner or notifier of its notification exists, or that notification is an orphan of teardown |
| `CacheRefreshResults.FiredIsNeverRegisteredAgain` | crates/superbank-rpc/src/state.rs:135-140 | a fired notification is never registered again in any later state, so a woken waiter never waits on it again |
| `CacheRefreshResults.WaiterCanBeWokenUnlessOrphaned` | crates/superbank-rpc/src/state.rs:152-176 | from every reachable state an unnotified waiter can still be woken iff its notification is not an orphan of teardown |
| `CacheRefreshResults.OrphanNeverFires` | crates/superbank-rpc/src/state.rs:171-174 | an orphaned notification never fires again in any run |
| `CacheRefreshResults.ServedValueIsFromCheckedRefreshOrLater` | crates/superbank-rpc/src/state.rs:204-209 | a value served without fetching was stored by the very refresh whose timestamp was loaded and passed the TTL check, or by a later one |
| `CacheRefreshResults.OnlySuccessfulFetchesStore` | crates/superbank-rpc/src/state.rs:256-268 | a run in which no fetch succeeds, and no store is under way, changes no cell |
| `CacheRefreshResults.HeightBelongsIff` | crates/superbank-rpc/src/state.rs:309-318 | over any run, a served height is that of the latest refresh at the value load, and was fetched for the requested slot iff the refresh then standing between its two stores asked for it, or without one, the slot cell held it already |
| `CacheRefreshResults.QuietHeightBelongsIff` | crates/superbank-rpc/src/state.rs:309-318 | for a reader no store interrupts: the height about to be served was fetched for the requested slot iff no refresh of another slot stands between its value store and its slot store |
| `CacheRefreshRaces.TornHeightCanBeServed` | crates/superbank-rpc/src/state.rs:354-360 | a run in which the height of one slot is served for another, for any two slots and heights, because a refresh stands between its two stores |
| `CacheRefreshRaces.OvertakenHeightCanBeServed` | crates/superbank-rpc/src/state.rs:309-318 | another such run, in which a whole refresh falls between the reader's value load and its slot load |
| `CacheRefreshRaces.StoredValueCanOutliveCaller` | crates/superbank-rpc/src/state.rs:152-176 | a run in which the leader is dropped after storing its value, and its destructor finishes |
| `CacheRefreshRaces.TearDownCanStrandWaiter` | crates/superbank-rpc/src/state.rs:171-174 | a run in which teardown leaves a waiter that no continuation wakes |
| `CacheRefreshOutcomes.OutcomesAreEarned` | crates/superbank-rpc/src/state.rs:241-268 | over the actions of every run: a fetched value is what the task's own fetch, started before, returned, and is in the log under its slot; a failure is its own failed fetch; and no task vanishes that was not cancelled or spawned as a cleanup |
| `CacheRefreshOutcomes.FetchDecidesOutcome` | crates/superbank-rpc/src/state.rs:256-268 | a leader whose fetch fails can only return the failure, and one whose fetch succeeds only the value, unless it is cancelled |
| `CacheRefreshOutcomes.ServedValueIsLoadedAfresh` | crates/superbank-rpc/src/state.rs:217-239 | a value served to a caller that at some moment was not yet called, parked, or waiting for the lock was loaded after that moment |
| `CacheRefreshOutcomes.StaleIsCheckedTwice` | crates/superbank-rpc/src/state.rs:217-226 | nobody goes for the lock without finding the cells stale, nor under it for a role without finding them stale again |
| `CacheRefreshOutcomes.VerdictIsExact` | crates/superbank-rpc/src/state.rs:309-318 | in plain arithmetic: the cells are served iff ever refreshed, not longer ago than the time to live, and for this slot or for none |
| `CacheRefreshOutcomes.NotifiedWaiterStartsOver` | crates/superbank-rpc/src/state.rs:270-273 | a notified waiter can go on and reloads the cells |
| `CacheRefreshOutcomes.DroppedWaiterLeavesNoTrace` | crates/superbank-rpc/src/state.rs:221-273 | a caller dropped while waiting for the lock or for a refresh changes nothing else |
| `SearchText.TokenizeJoins` | site/js/config-search.js:22-30 | tokens are non-empty and compact, and joined together they are the compacted (truncated) query |
| `SearchText.TokensAreRuns` | site/js/config-search.js:24-30 | the tokens are, in order, the compactions of exactly those maximal whitespace-free runs of the clipped query that have a letter or digit |
| `SearchText.CompactWithOrigin` | site/js/config-search.js:34-44 | the compaction of the name, and where in the name each character was |
| `SearchText.PrepareName` | site/js/config-search.js:34-48 | the compacted text, where each of its characters was, and exactly the indices at which a word starts; the text is the compaction of the name |
| `ChunkMatching.ChunkMatch` | site/js/config-search.js:53-76 | returns strictly increasing indices spelling the token iff the token splits into non-empty prefixes of distinct words in order |
| `ChunkMatching.PlainIsRight` | site/js/config-search.js:62-74 | the plain recursion is sound and complete for every subproblem |
| `ChunkMatching.SplitSpells` | site/js/config-search.js:50-52 | a split spells the token with strictly increasing indices |
| `ChunkMatching.KeyIsInjective` | site/js/config-search.js:58-58 | the memo key determines position and word |
| `ChunkMatching.ChunkMatcher.constructor` | site/js/config-search.js:53-56 | the search starts with an empty memo |
| `ChunkMatching.ChunkMatcher.Walk` | site/js/config-search.js:57-61 | the memoised search equals the plain recursion, and terminates |
| `ChunkMatching.ChunkMatcher.Step` | site/js/config-search.js:62-74 | one level of the search equals the plain recursion |
| `ChunkMatching.ChunkMatcher.Agreement` | site/js/config-search.js:65-67 | the longest prefix of the word that the token continues with |
| `ChunkMatching.ChunkMatcher.LongestFirst` | site/js/config-search.js:68-71 | longer prefixes are tried before shorter ones |
| `SubsequenceMatching.SubsequenceMatch` | site/js/config-search.js:80-95 | returns the tightest embedding of the token among all embeddings when it is no wider than twice the token, the first of equals, and nothing otherwise; the early return loses nothing |
| `SubsequenceMatching.Greedy` | site/js/config-search.js:85-90 | greedy placement is the leftmost embedding from its start on, or proves there is none from there on |
| `Highlighting.TokenIndices` | site/js/config-search.js:97-99 | first occurrence, else chunks, else tightest subsequence, else nothing; whatever is picked spells the token |
| `Highlighting.CollectHits` | site/js/config-search.js:166-174 | all characters when the query is the whole name, otherwise exactly the union of what the tokens picked |
| `Highlighting.BuildRanges` | site/js/config-search.js:175-182 | the ranges mark exactly the matched letters and digits, start and end on one, and have an unmatched one between any two |
| `Highlighting.HighlightRanges` | site/js/config-search.js:161-183 | from text and query: the matched characters are the specified hits of the query's tokens, the ranges mark them, and a query that compacts to the name gets one range over all its letters and digits |
| `Highlighting.MarksAreUnique` | site/js/config-search.js:175-182 | only one list of ranges marks a given set of matched characters |
| `Highlighting.Cut` | site/js/config-page.js:194-209 | cutting a text along the ranges and joining the pieces gives the text back, and the marked pieces lie exactly where the ranges do, and plain text is not split |
| `Highlighting.MarksAreDisjoint` | site/js/config-search.js:161-183 | highlight ranges can be cut along |
| `AlpenglowResults.StepKeepsInv` | site/js/alpenglow-model.js:152-234 | every operation keeps: one visible bank per slot, each at or above the minimum, a sound signature index, one committed bank per slot, finalized stored rows |
| `AlpenglowResults.ReachableInv` | site/js/alpenglow-model.js:152-228 | these hold in every state of every run |
| `AlpenglowResults.NothingAfterDrop` | site/js/alpenglow-model.js:516-520 | after a stream drop nothing is visible or indexed, whatever follows |
| `AlpenglowResults.CommitShowsWinner` | site/js/alpenglow-model.js:192-201 | a committed bank is shown, alone in its slot, iff it meets the minimum and neither a drop nor a discard intervened |
| `AlpenglowResults.CommitReclaimsIndex` | site/js/alpenglow-model.js:179-201 | a visible winner holding the transaction takes the index over iff the index did not name a visible committed bank of another slot |
| `AlpenglowResults.LosersStayOut` | site/js/alpenglow-model.js:192-206 | over every run: after a commit the slot's other banks, whatever their status, and after a discard all its banks, are out for good |
| `AlpenglowResults.PublishKeepsFirst` | site/js/alpenglow-model.js:158-175 | a processed bank never displaces the bank shown for its slot, and is shown iff there is none; it enters the index only if that is empty |
| `AlpenglowResults.IndexStaysWithCommittedBank` | site/js/alpenglow-model.js:179-206 | once the index names a visible committed bank, no sequence of operations moves it while that bank stays visible |
| `AlpenglowResults.AnswerIsCommitted` | site/js/alpenglow-model.js:615-652 | an answer names a bank of the slot whose token is at least the commitment asked for |
| `AlpenglowResults.TierBlockIsExact` | site/js/alpenglow-model.js:615-652 | what each tier has, in terms of banks, stored rows and copied slots |
| `AlpenglowResults.AnswerBlockIsExact` | site/js/alpenglow-model.js:628-649 | getBlock answers iff a visible bank of the slot meets the commitment or the slot is stored; from the head if it can, else from disk if copied, else from ClickHouse; never at processed |
| `AlpenglowHistory.StoredIsReadableForever` | site/js/alpenglow-model.js:615-652 | over every run: a stored slot is answered at confirmed and finalized for good, always with the stored bank, and not from ClickHouse once copied to disk |
| `AlpenglowHistory.TransactionReachesAllTiers` | site/js/alpenglow-model.js:615-652 | a run after which head index, disk and ClickHouse all place the transaction in the same slot and bank |
| `AlpenglowResults.BlockReadsAgree` | site/js/alpenglow-model.js:615-652 | any two tiers, at any two moments of a run, name the same bank for a slot at confirmed or finalized |
| `AlpenglowResults.BlockAnswersAgree` | site/js/alpenglow-model.js:615-652 | the same for the answers of the handler, which tries head, disk and ClickHouse in turn |
| `AlpenglowResults.TransactionReadsAgree` | site/js/alpenglow-model.js:624-638 | if the transaction lands in at most one committed bank, the head index at one moment of a run and a stored row at another, in either order, place it in the same slot and bank |
| `AlpenglowResults.IndexFollowsItsBank` | site/js/alpenglow-model.js:203-228 | evicting and discarding hide exactly the indexed bank they name, and the index is dropped exactly when its bank is hidden |
| `AlpenglowResults.EvictionBoundsHeadIff` | site/js/alpenglow-model.js:209-228 | an eviction leaves at most `retain` visible banks iff the banks above the newest head slot are no more than the vacant slots of the head window |
| `AlpenglowResults.EvictionBoundsHead` | site/js/alpenglow-model.js:209-228 | in particular when none is visible above the newest head slot |
| `AlpenglowResults.EvictionsBoundHead` | site/js/alpenglow-model.js:209-228 | over whole runs: if banks are only shown at or below the newest head slot and that never goes down, every eviction leaves at most `retain` visible |
| `AlpenglowResults.PublishingAboveHeadBreaksBound` | site/js/alpenglow-model.js:158-175 | for every configuration, a run that publishes above the newest head slot breaks that bound |
| `AlpenglowWorld.World.constructor` | site/js/alpenglow-model.js:123-139 | the initial world |
| `AlpenglowWorld.World.AddBank` | site/js/alpenglow-model.js:145-150 | appends a staged bank without a token |
| `AlpenglowWorld.World.Freeze` | site/js/alpenglow-model.js:299-300 | the bank is frozen at processed |
| `AlpenglowWorld.World.At` | site/js/alpenglow-model.js:236-241 | moves tip and finalized slot, nothing else |
| `AlpenglowWorld.World.CopyToDisk` | site/js/alpenglow-model.js:436-437 | adds the slot to the copied ones, nothing else |
| `AlpenglowWorld.World.Publish` | site/js/alpenglow-model.js:158-175 | computes the specified publication |
| `AlpenglowWorld.World.Project` | site/js/alpenglow-model.js:179-188 | computes the specified projection and changes only the index |
| `AlpenglowWorld.World.Elect` | site/js/alpenglow-model.js:193-197 | discards the slot's other banks, drops an index that named one, raises the token |
| `AlpenglowWorld.World.Commit` | site/js/alpenglow-model.js:192-201 | computes the specified commit |
| `AlpenglowWorld.World.DiscardSlot` | site/js/alpenglow-model.js:203-206 | computes the specified discard of a slot |
| `AlpenglowWorld.World.HeadWindow` | site/js/alpenglow-model.js:209-221 | the upper end for each commitment and era, and the lower end `retain` slots back or right after the drop |
| `AlpenglowWorld.World.Evict` | site/js/alpenglow-model.js:224-228 | computes the specified eviction |
| `AlpenglowWorld.World.DropStream` | site/js/alpenglow-model.js:516-520 | computes the specified drop |
| `AlpenglowWorld.World.Ingest` | site/js/alpenglow-model.js:230-234 | stores the finalized bank of the slot, or fails without writing when there is none |
| `AlpenglowWorld.World.AnswerTransaction` | site/js/alpenglow-model.js:624-649 | head index first, otherwise the newest stored slot whose bank holds the transaction, and from which tier |
| `AbsenceProofs.StatusHistoryCache.constructor` | crates/superbank-rpc/src/status_history_cache.rs:46-56 | when the cache is disabled, the capped time to live, and the largest capacity within both bounds |
| `AbsenceProofs.StatusHistoryCache.InsertAbsent` | crates/superbank-rpc/src/status_history_cache.rs:70-74 | records the absence unless the cache is disabled |
| `AbsenceProofs.StatusHistoryCache.IsAbsent` | crates/superbank-rpc/src/status_history_cache.rs:79-92 | absent iff there is an entry, now is less than the time to live after it, and the local floor is at most the slot after its tip; so never 300 seconds after it |
| `AbsenceProtocol.StepKeepsInv` | crates/superbank-rpc/src/handlers/signatures.rs:451-510 | every interleaved step of requests, chain and tiers, with a head that gains and loses slots in any order and a cache that loses anything, keeps every recorded absence and everything a request has learned true of the immutable chain |
| `AbsenceProtocol.ReachableInv` | crates/superbank-rpc/src/handlers/signatures.rs:451-510 | these hold in every reachable state |
| `AbsenceProtocol.AbsenceIsSound` | crates/superbank-rpc/src/status_history_cache.rs:4-11 | in every run, the signature of a request that skipped the primary is in no slot up to its disk tip and in none that its head lookup saw |
| `AbsenceProtocol.SkipTracesToAnswer` | crates/superbank-rpc/src/status_history_cache.rs:21-22 | in every run, a skip relies on an answer of the primary that, as of the request's check, was less than the time to live old and had no row in any slot it held |
| `AbsenceProtocol.LookupsAreExact` | crates/superbank-rpc/src/handlers/signatures.rs:165-232 | when the head lookup and the disk read miss, in terms of the slots held |
| `AbsenceProtocol.CheckIsExact` | crates/superbank-rpc/src/handlers/signatures.rs:538-562 | all conditions of the head check in plain terms; otherwise the primary is asked |
| `AbsenceProtocol.AnswersAreExact` | crates/superbank-rpc/src/handlers/signatures.rs:468-510 | when the cache answers, in plain arithmetic; otherwise the primary is asked, and an answer without a row is recorded with its time and the disk tip |
| `AbsenceProtocol.DoneIsForever` | crates/superbank-rpc/src/handlers/signatures.rs:277-293 | a request that is done or dropped never acts again |
| `AbsenceProtocol.CheckVouchesForLookup` | crates/superbank-rpc/src/handlers/signatures.rs:522-562 | in every run in which the head gains no slot below the trusted tip between lookup and check, a passed check means the lookup saw every slot after the disk tip, and a skip then that the signature is in no slot up to the trusted tip |
| `AbsenceRuns.SkipHidesNothingIff` | crates/superbank-rpc/src/handlers/signatures.rs:451-482 | no run lets the cache hide what the primary has iff every slot of the primary past the disk tip was seen by the head lookup |
| `AbsenceRuns.CompleteLookupHidesNothingIff` | crates/superbank-rpc/src/handlers/signatures.rs:522-562 | for a lookup that saw everything up to the trusted tip: iff the primary has not run past that tip |
| `AbsenceRuns.LateSlotCanHideLanding` | crates/superbank-rpc/src/handlers/signatures.rs:541-545 | for every slot with a hole below a trusted tip: the head gets just that slot after the lookup, the check passes, and the skip hides the landing |
| `AbsenceRuns.StalePrimaryTipCanHideLanding` | crates/superbank-rpc/src/handlers/signatures.rs:552-561 | for every tip: the check against the last slot read from the primary passes while the primary is past the trusted tip, and the skip hides what it has there |
| `AbsenceRuns.FloorCheckIsExact` | crates/superbank-rpc/src/status_history_cache.rs:88-91 | the floor check cannot be relaxed by one slot: a run brings a request past all other checks, with a complete lookup, while the primary holds a landing that only the floor check keeps from being hidden |
| `CertificateWire.DecodeIsExact` | crates/superbank-rpc/src/ag_genesis_cert.rs:198-216 | null, certificate and upstream error are each decoded exactly from the well-formed responses that say so (JSON-RPC 2.0, section 5) |
| `CertificateWire.BodyIsWholeOrRefused` | crates/superbank-rpc/src/ag_genesis_cert.rs:178-184 | the body is accepted iff every chunk arrived and the total is within 64 KiB, and then it is everything that was sent |
| `CertificateWire.Fetch` | crates/superbank-rpc/src/ag_genesis_cert.rs:161-186 | status, length and the bounded chunk loop compute the specified result without underflow |
| `CertificateWire.RefusalIsExact` | crates/superbank-rpc/src/ag_genesis_cert.rs:178-184 | a body is refused for its first spoiling piece: timeout, unavailable or too long |
| `CertificateWire.FetchIsExact` | crates/superbank-rpc/src/ag_genesis_cert.rs:161-216 | every way a fetch ends: not sent, refused by status, by announced length, by a spoiled body, or decoded whole |
| `CertificateWire.FetchNullExactly` | crates/superbank-rpc/src/ag_genesis_cert.rs:161-216 | a fetch yields "no certificate" iff the upstream said null in full within the size bound |
| `CertificateCache.StepKeepsInv` | crates/superbank-rpc/src/ag_genesis_cert.rs:125-157 | every step of every caller, with cancellation, keeps cell, log, flight and answer consistent |
| `CertificateCache.ReachableInv` | crates/superbank-rpc/src/ag_genesis_cert.rs:125-157 | the invariant holds in every reachable state |
| `CertificateCache.FetchesAreCoalesced` | crates/superbank-rpc/src/ag_genesis_cert.rs:130-135 | at most one upstream fetch is in flight |
| `CertificateCache.CertificateIsForever` | crates/superbank-rpc/src/ag_genesis_cert.rs:136-155 | a cached certificate is never replaced and never fetched again |
| `CertificateCache.NullTracesToUpstream` | crates/superbank-rpc/src/ag_genesis_cert.rs:136-157 | every "no certificate" traces to an upstream null still inside its refresh interval; no failure or timeout becomes one |
| `CertificateCache.CertificateTracesToUpstream` | crates/superbank-rpc/src/ag_genesis_cert.rs:136-157 | every certificate handed out was sent by the upstream |
| `CertificateCache.AnswersAreExplained` | crates/superbank-rpc/src/ag_genesis_cert.rs:125-157 | every answer in every run is `NotConfigured` of an unconfigured source, a timeout of a caller that waited its full time for the lock, or exactly what one completed fetch found, its own or one still live |
| `CertificateCache.LookIsExact` | crates/superbank-rpc/src/ag_genesis_cert.rs:136-142 | whoever gets the lock is answered by the latest fetch while that is a certificate, a null within the refresh interval or a failure within a second, and fetches otherwise |
| `CertificateCache.CachedCertificateIsReturned` | crates/superbank-rpc/src/ag_genesis_cert.rs:136-142 | over every run: once the certificate is cached, whoever looks returns it |
| `CertificateCache.OwnFetchDecides` | crates/superbank-rpc/src/ag_genesis_cert.rs:143-156 | a caller that fetches returns what its reply decodes to, or a timeout |
| `CertificateCache.TimeoutsAreReal` | crates/superbank-rpc/src/ag_genesis_cert.rs:143-145 | a fetch ends without a reply only when its caller's time was up |
| `CertificateCache.NobodyWaitsBeyondDeadline` | crates/superbank-rpc/src/ag_genesis_cert.rs:130-145 | whatever the others do, a caller can come back at its deadline, with a timeout |
| `CertificateCache.DroppedFetchReleasesLock` | crates/superbank-rpc/src/ag_genesis_cert.rs:130-132 | a caller dropped while fetching frees the lock and leaves the cell alone |
| `CertificateCache.ReplyGetsThrough` | crates/superbank-rpc/src/ag_genesis_cert.rs:133-156 | with lock and cell free, any reply reaches the caller and the cell |
| `CertificateCache.FetchesAreSpaced` | crates/superbank-rpc/src/ag_genesis_cert.rs:146-155 | two completed fetches are separated by the first one's time to live, and none follows a certificate |
| `ParticlePool.Pool.constructor` | site/js/scene.js:312-313 | a pool of 400 distinct objects, none live |
| `ParticlePool.Pool.SpawnCube` | site/js/scene.js:1311-1320 | the next free object becomes live at t = 0, unless the pool is full or the edge carries no particles; nothing else changes |
| `ParticlePool.Pool.FreeCube` | site/js/scene.js:1322-1328 | swap-remove: exactly that particle stops being live, the last takes its place, and its object goes to the end for reuse |
| `ParticlePool.Pool.Arrive` | site/js/scene.js:1402-1427 | a gone or leaving node swallows the arrival, a buffer counts data while its edge is on, and otherwise, below the depth limit, every out-edge that takes it gets a particle one relay deeper or a burst |
| `ParticlePool.Pool.RelayOn` | site/js/scene.js:1414-1426 | in order: which out-edges take the arrival, which of them spawn at once until the pool is full, and which charge their emitter |
| `ParticlePool.OneMoreOutSpawns` | site/js/scene.js:1414-1419 | exactly when one more out-edge spawns a particle, and which |
| `ParticlePool.OneMoreOutCharges` | site/js/scene.js:1414-1425 | exactly when one more out-edge charges its emitter, and how |
| `ParticlePool.ChargedAdds` | site/js/scene.js:1420-1425 | what an arrival adds to an edge's burst is the sum of the counts of the out-edges that take it there |
| `ParticlePool.StepChargesExactly` | site/js/scene.js:1506-1516 | over a whole step, every burst and every buffer grows by exactly what the arrivals are worth |
| `ParticlePool.Pool.AdvanceOne` | site/js/scene.js:1507-1509 | one particle moves by dt times speed over length and spins on; the others stay |
| `ParticlePool.Pool.Retire` | site/js/scene.js:1510-1515 | an arrived particle leaves, the last one takes its place, its relays follow |
| `ParticlePool.Pool.StepOne` | site/js/scene.js:1507-1516 | one turn of the loop computes the specified turn on values |
| `ParticlePool.Pool.StepCubes` | site/js/scene.js:1506-1516 | the loop over the swapping array leaves, as a multiset, the survivors of the start advanced exactly once plus what the arrivals spawned, unadvanced, with emitters and buffers charged by exactly those arrivals; the array stays a permutation of the same objects |
| `ParticlePool.StepIsExact` | site/js/scene.js:1506-1516 | that refinement for every content of the pool, every dt and all that arrivals may meet |
| `ParticlePool.SpawnedAreNew` | site/js/scene.js:1417-1427 | whatever a step spawns is at t = 0, on an edge that carries particles, and at relay depth 1 to 4 |
| `ParticlePool.Pool.RecycleParticlesOn` | site/js/scene.js:1123-1124 | as a multiset, exactly the particles on the edge are gone |

## Left out

- Weak-memory effects of relaxed atomics: the refresh protocol is modelled over sequentially consistent interleavings.
- The `waited` flag and the error text of a refresh, and the scan hint passed to ClickHouse: they do not influence the protocol.
- Cancellation of the spawned cleanup task: it has no caller; runtime shutdown is the teardown branch.
- Liveness under fairness: that a waiter is eventually woken is shown as "can always still be woken", since a backend fetch may take forever.
- Ranking and filtering entries (`site/js/config-search.js:119-157`), other filters and URL parameters: they would only add easy members.
- Non-ASCII names in the matcher: characters whose lowercase form contains a letter of a-z, or is longer than one unit, are treated as separators.
- The featured slot of the Alpenglow page is fixed at 0 in `answerRead`; the model reads any slot. Bank names, footers, the pending flag and the page's prose are not modelled.
- Slot keys of the stored rows are natural numbers, for which the iteration order of the original is ascending.
- The internals of the moka caches: a cache is a map that may lose entries at any time; its capacity is not enforced by the model.
- How the head builds and verifies its chain (`crates/superbank-rpc/src/head_cache/coverage.rs`): the head is the set of finalized slots it holds, which may change in any way that starts from slots it has heard of.
- JSON text, the certificate's wire shape and the error object are decoded by parameters of the model; HTTP itself is an arbitrary reply.
- The particle type used for drawing; progress and time are real numbers. What an arrival meets, random choices included, is a parameter.
- Emitters spending their bursts, buffers being flushed, and sphere journeys (`site/js/scene.js:1339-1399`, `site/js/scene.js:1434-1480`).
- Rendering, configuration, metrics, subprocesses and everything else in the repository.
