# Proofs about the query engine

The engine answers block-range queries over columnar chunks. Nearly every stage of it is a fast
form of something simple, or a protocol between threads. These files model the stages where the
two could come apart, and prove that they do not; where they do, the exact condition is stated.

`dafny verify dfyconfig.toml` checks all of it.

| part | files | the question |
|---|---|---|
| fork-join scheduler | `ForkJoin`, `ForkJoinInvariant`, `ForkJoinSteps`, `ForkJoinSafety`, `ForkJoinOutcomes`, `ForkJoinSpread`, `ForkJoinLiveness` | does every item run once, does a fork return only afterwards and with a panic of its own items, can threads block for good? |
| address index | `Addresses`, `AddressLookup`, `AddressSearch`, `SourceRows`, `AddressIndex`, `AddressReadings`, `Order` | does an indexed lookup answer what comparing with every source answers, and do both read the same elements? |
| page selection | `Weights`, `Selection`, `Page`, `PageSelection`, `PageBlocks`, `PageLoop`, `TableSources`, `RelationKeys`, `Counted`, `Ascending`, `Words` | does reading in ranges select the page one full read selects? |
| row order | `RowKeys`, `RowOrder`, `RowLayers`, `KeyForms`, `RowSort` | do three key encodings order rows as their columns do, and is that an order? |
| output | `BlockIndex`, `PreparedSources`, `Grouping`, `Merge`, `JsonBuffer`, `Base58`, `Decimal`, `Escape` | is what is written what was kept, and does it read back? |
| column cache | `Cache`, `CacheSafety`, `CacheCalls`, `Ranges` | does the budget hold whatever calls interleave, and does every caller get what it should? |
| columnar scan | `Columnar`, `ScanMeaning`, `ColumnarScan`, `KeySets` | does a scan return the rows asked for, and when does pruning by statistics lose one? |
| joins and integers | `SemiJoin`, `Integers`, `IntTypes`, `Sets`, `Bits`, `Arithmetic` | do keys and stored words stand for the values they encode? |
| query compilation | `QueryFilters`, `QueryItems`, `QueryPlan`, `QueryMeaning` | does a compiled plan select what the items, read directly, select? |

## How it is modelled

The scheduler and the cache are state machines: `ForkJoin.Go` and `Cache.Next` take one atomic
action of one thread (a counter access, a critical section, a notification, a compare-and-swap that may fail and
be tried again), any thread may go next, and a run is any sequence of such steps. The scheduler's
machine has the call stacks of its threads, nested forks, helpers spawned late and helpers never
taken up; fields that only record history take no part in a decision. Spurious wakeups are steps of
every run (`ForkJoin.StepOrWake`) and are left out only where runs are shown to end.

Loops over vectors and maps are methods with the same loops, and objects that update their fields
are classes: `SourceAddresses`, `BlockPositions`, `Index`, `BlockSelection`, `Buffer`, `RowScratch`,
`ReferenceTally`.
Hash functions are arbitrary functions, so every result holds whatever collides. Words of 64 bits
saturate and wrap where the code's do.

What a fast form is proved equal to is itself pinned down apart from it: which panics a fork may end
with is read off its items' code alone (`ForkJoinOutcomes`), a cache call's outcome off its own steps
(`CacheCalls`), a page's blocks off rows and headers (`PageBlocks`), a scan's rows off the request's
fields (`ScanMeaning`), a filter off its own text and the row (`QueryMeaning`).

## What the proofs found

- A ranged read ends at the last header, a full read at the request's own end. Where a table holds a
  row past the last header the two can select different pages; `PageLoop.LayoutMatters` says exactly
  when, and `PageLoop.StrayRowMissed` is an instance.
- A relation whose keys fix the blocks of its rows skips the block filter, but windows are still pruned
  by the block range. The scan is the full filter, whatever rows a table has, if and only if the filters
  keep no row outside the range (`ColumnarScan.ScanExact`). The keys of a relation can break that: they
  compare join words, while block numbers are read unsigned at the column's own width. They keep to the
  range if and only if the source's and the target's block columns read alike: both are unsigned,
  or signed and of one width, or of unlike sign with the unsigned one narrower than 64 bits or both of 64
  (`KeySets.KeysKeepExactly`, `KeySets.ReadAlikeDecides`); `KeySets.KeyOutOfRange` gives a lost row for
  any two that do not.
- Integer join keys are 64-bit words, so a signed -1 joins an unsigned 2^64 - 1
  (`SemiJoin.MinusOneJoins`). For columns of given types, joining by words is joining by values if and
  only if no signed column meets an unsigned 64-bit one (`SemiJoin.JoinsByValue`).
- The comparison with every source reads address elements as unsigned 32-bit numbers, the index as join
  words. To the comparison a signed 16-bit -1 equals an unsigned 65535, to the index it does not
  (`AddressReadings.ReadingsDiffer`); `AddressReadings.ReadingsAgree` says for which two address columns
  both relate the same addresses.
- Where rows have no positions, the weight counts a key once and the merge writes every row the key has
  in the first source that has it. The rows written are the rows counted if and only if no key has two
  rows there (`Counted.MergedAreCounted`).
- A relation read range by range is the relation of the whole request if and only if it joins rows of one
  block only (`TableSources.ConfinedExactly`). Joining by keys that start with the block column ensures
  that, for all rows, if and only if the two block columns read alike (`RelationKeys.KeysConfineExactly`).
- Comparing rows column by column, skipping columns one side lacks, is an order for every content if and
  only if the batches are layered: two share no column past the first they do not share, and none
  stands between two that share a column it lacks (`RowLayers.LayeredExactly`). No page is sorted
  otherwise: every read asks for all columns of a row's key (`src/output/projection.rs:76`), so the rows
  of one chunk have one shape, and prepared keys ask for one as well (`RowSort.PreparedUniform`).
- The cache's count of bytes in use is exact unless it saturates, which takes a budget of 2^64 - 1
  (`CacheSafety.SettlingCounts`).
- A set's header check needs its power of two: with another segment length a lookup can leave the
  fingerprints (`Sets.OddLengthOverruns`).
- A decimal with a negative scale is written without it, so the text states another number unless the
  value is zero (`Decimal.WriteDecimal`).
- `block_numbers_within` documents null rows as null; a lower bound too large for the column's width
  answers them with no (`Integers.Within`).

## Model

| member | source | states |
|---|---|---|
| ForkJoinSafety.StepKeeps | src/parallel.rs:107-288 | every step of any thread, spurious wakeups included, keeps the invariant of stacks, claims, counts, locks and notices |
| ForkJoinSafety.GoKeeps | src/parallel.rs:107-288 | the same for a step of the innermost call of one thread, whatever that call is |
| ForkJoinSafety.RunKeeps | src/parallel.rs:107-288 | every state of every run from idle threads and waiting callers satisfies the invariant |
| ForkJoinSafety.RunsGoOn | src/parallel.rs:107-288 | any callers and idle threads start a run, and every step a thread can take goes on with it |
| ForkJoinSteps.ClaimItemKeeps | src/parallel.rs:220-229 | claiming an item with one counter access keeps the invariant: the index is new and its holder is recorded |
| ForkJoinSteps.KeepKeeps | src/parallel.rs:246-257 | recording a panic keeps the invariant: the first one recorded stays |
| ForkJoinSteps.CountKeeps | src/parallel.rs:233-240 | counting an item done keeps the invariant: the count is what is unclaimed and held, and the last one owes a notice |
| ForkJoinSteps.NotifyKeeps | src/parallel.rs:83-87 | notifying under the lock keeps the invariant: no one falls asleep between the count and the notice |
| ForkJoinSteps.AnnounceKeeps | src/parallel.rs:72-75 | announcing an open fork keeps the invariant: sleepers of its query are woken for it |
| ForkJoinSteps.SpawnKeeps | src/parallel.rs:198-216 | handing a fork to another helper keeps the invariant: no more are spawned than allowed |
| ForkJoinSteps.ForkKeeps | src/parallel.rs:107-142 | opening a nested fork keeps the invariant: it is later than every fork its thread is in |
| ForkJoinSteps.ReturnKeeps | src/parallel.rs:149-152 | returning from a fork, or raising its panic, keeps the invariant |
| ForkJoinSafety.ClaimedOnce | src/parallel.rs:220-241 | indices are claimed in order, each once; a claimed item is finished or held, never both, and by one call only; what is unfinished is counted exactly |
| ForkJoinSafety.ReturnsAfterEveryItem | src/parallel.rs:142-166 | when a fork returns every item has run, no thread is inside one, and it raises the first recorded panic exactly when some item ended with one |
| ForkJoinSafety.NeverLate | src/parallel.rs:218-225 | once a fork has returned no thread is inside it and nothing is left for a late helper to claim |
| ForkJoinSafety.SpawnsAtMost | src/parallel.rs:180-216 | a fork spawns fewer helpers than it has items, and fewer than the pool has threads, or none |
| ForkJoinSafety.OwnQueryOnly | src/parallel.rs:259-287 | every fork a thread is in, waits for or helps belongs to its own query |
| ForkJoinSafety.NoLostWakeup | src/parallel.rs:81-87 | a waiter sleeps on a finished fork only while its last helper is at the notification, and beside a claimable fork only while its opener is at the announcement |
| ForkJoinSpread.HelpersAre | src/parallel.rs:108 | a fork of one item, or on one thread, asks for no helper; any other for one fewer than the lesser of its items and the pool's threads |
| ForkJoinSpread.OpensExactly | src/parallel.rs:107-140 | a fork is opened with all its items exactly where it has more than one and the pool more than one thread; else they run in turn |
| ForkJoinSpread.SpreadsOut | src/parallel.rs:194-216 | in every run: once the forking thread claims, two helpers are spawned, once a helper does, three, but for what items and threads allow, or where no item is left |
| ForkJoinSpread.LeavesNothing | src/parallel.rs:160-166 | in every run the forking thread looks whether its fork is finished, waits and returns, and a helper leaves, only where no item is left to claim |
| ForkJoinSpread.HelperServes | src/parallel.rs:211-215 | a helper, once a thread takes it up, serves its fork, and is done only when no item of it is left to claim |
| ForkJoinSpread.SpawnedWaitOrServe | src/parallel.rs:204-215 | conservation: in every run each helper a fork spawned waits for a thread, or was taken up, once |
| ForkJoinOutcomes.InTurnEnds | src/parallel.rs:109-112 | items in turn may end exactly with a panic of one after those before it end without, or as what follows all of them |
| ForkJoinOutcomes.InTurnAlike | src/parallel.rs:107-112 | a fork may end without a panic, and may end with one, exactly where its items in turn may |
| ForkJoinOutcomes.EndedAsTheyMay | src/parallel.rs:220-241 | in every run each item that ended did so as its own code may, whatever forks it opened |
| ForkJoinOutcomes.ReturnsAsItMay | src/parallel.rs:149-152 | a fork raises the panic of one of its items, and returns without one only where every item ended, and may end, without |
| ForkJoinOutcomes.CallEndsAsItMay | src/parallel.rs:107-153 | a caller's call in progress may still end only as its code may, and so it ends |
| ForkJoinLiveness.WaitsForNotice | src/parallel.rs:263-287 | a sleeper on a fork whose items are finished waits for a thread at that fork's notification, which does not sleep |
| ForkJoinLiveness.WaitsForItem | src/parallel.rs:263-287 | a sleeper on an unfinished fork waits for a thread inside one of its items, and if that one sleeps, then on a fork opened later |
| ForkJoinLiveness.SomeoneCanGo | src/parallel.rs:263-287 | deadlock freedom: while any call is in progress, some thread can step |
| ForkJoinLiveness.NeverStuck | src/parallel.rs:107-288 | every reachable state allows a step, or everything has finished and every fork has returned |
| ForkJoinLiveness.StepProgress | src/parallel.rs:220-287 | with finite items every step but a spurious wakeup decreases a measure: work left, then how near waiters are to sleep |
| ForkJoinLiveness.EveryScheduleEnds | src/parallel.rs:107-288 | every schedule, fair or not, ends with every fork returned |
| Order.CompareBytes | src/scan/addresses.rs:372-378 | paths written as big-endian words compare as bytes the way they compare element by element and then by length |
| Order.PrefixBytes | src/scan/addresses.rs:592-603 | one path's bytes start with another's exactly when its elements do |
| Addresses.NewPathIndex | src/scan/addresses.rs:259-267 | the entries, sorted by hash, none lost, each hash mapped to where it first stands |
| Addresses.Contains | src/scan/addresses.rs:269-280 | a lookup by hash finds an entry exactly when one has that group and path, whatever collides |
| Addresses.SharedDecides | src/scan/addresses.rs:442-454 | what a path shares with the one before it decides which of its prefixes no earlier path of the group has |
| Addresses.ExtendHashes | src/scan/addresses.rs:456-460 | hashes kept for the shared part and extended element by element are the hash of every prefix |
| Addresses.Walk | src/scan/addresses.rs:435-465 | every path of every group is visited once, with its hashes and the depth from which its prefixes are new |
| AddressLookup.ExactIndex | src/scan/addresses.rs:407-414 | holds a group's path exactly when it is a source path of that group |
| AddressLookup.PrefixIndex | src/scan/addresses.rs:417-425 | holds every strict prefix of every source path of a group, nothing else, each once |
| AddressLookup.PrefixesOnce | src/scan/addresses.rs:417-425 | no two emitted prefixes are equal |
| AddressLookup.FirstBeyond | src/scan/addresses.rs:417-425 | every strict prefix is emitted at the first path that has it |
| AddressSearch.PartitionPoint | src/scan/addresses.rs:593 | the first path of the group's range that does not sort before the target |
| AddressSearch.ExtensionsFollow | src/scan/addresses.rs:591-603 | paths that extend the target stand right after where it would, without a gap |
| AddressSearch.ChildrenBySearch | src/scan/addresses.rs:580-590 | one binary search per depth answers whether the target extends, or equals, a source of its group |
| AddressSearch.ParentsBySearch | src/scan/addresses.rs:591-603 | the next one or two sorted paths answer whether a source of the group extends, or equals, the target |
| AddressSearch.ChildrenByHash | src/scan/addresses.rs:546-565 | lookups by a hash extended one element at a time give the same answer |
| AddressSearch.ParentsByHash | src/scan/addresses.rs:566-573 | one lookup among the prefixes, and one among the paths where equality counts, give the same answer |
| SourceRows.MakeGroupKey | src/join/hierarchical.rs:34-59 | a row's key is the words of its key columns; none where a null comes first, and unreadable where a column of no integers does |
| SourceRows.CompareWithEvery | src/join/hierarchical.rs:111-225 | the reference, for paths of elements however read: a row is kept exactly when some source row of its group, neither null, relates to it; refused exactly when both sides have batches and one lacks a column or has a row with an address and an unreadable key |
| SourceRows.Collect | src/scan/addresses.rs:319-354 | every source row with a key and an address is kept under its group's number, nothing else is |
| AddressIndex.BuildTable | src/scan/addresses.rs:356-388 | each group's paths sorted and distinct in its own range, and exactly the collected ones |
| AddressIndex.SourceAddresses.constructor | src/scan/addresses.rs:300-404 | the index holds exactly the sources' addresses, hashed exactly when they are deep |
| AddressIndex.SourceAddresses.FindRelated | src/scan/addresses.rs:542-605 | searched or hashed, the answer is whether some source of the group relates to the target |
| AddressIndex.SourceAddresses.IsSource | src/scan/addresses.rs:526-539 | whether the target is a source address of the group |
| AddressIndex.SourceAddresses.Mask | src/scan/addresses.rs:474-519 | among the candidates, exactly the rows that relate to a source row, as the comparison with every source keeps them where both read the same elements |
| AddressReadings.ElementsDecide | src/join/hierarchical.rs:14-29 | reading elements as unsigned 32-bit numbers and as join words equates the same values of two types if and only if the types are alike |
| AddressReadings.ReadingsAgree | src/join/hierarchical.rs:14-29 | the comparison and the index relate the same addresses of two columns, whatever they hold, if and only if both are lists of integers of types alike |
| AddressReadings.ReadingsDiffer | src/integers.rs:388-403 | instances: 16-bit -1 and 65535, and 2^32 + 5 and 5, which one reading equates and the other does not |
| AddressReadings.MasksAgree | src/execution/tables.rs:393-409 | where the readings agree on the addresses at hand, the index keeps a row exactly when the comparison it falls back to does |
| Weights.RowWeight | src/output/weight.rs:304-346 | saturating column by column gives the saturated sum; a null or negative size weighs nothing |
| Weights.AccumulateRows | src/output/weight.rs:313-444 | a block gains the saturated weight of its rows, each identity counted once where several sources give rows |
| Weights.ComputeBlockWeights | src/output/weight.rs:107-206 | every candidate weighs the saturated sum of its counted rows and its headers |
| Weights.TotalLocal | src/output/weight.rs:107-206 | a block weighs in any range that covers it what it weighs in the whole request |
| Weights.RelationInRange | src/execution/tables.rs:60-130 | a relation that stays in one block reads in a range what the whole request's holds of that range |
| TableSources.RangeFollowsItself | src/execution/tables.rs:60-130 | scanning a range's own rows and following relations from those alone gives each table the rows the whole request has there, from all its sources |
| TableSources.ConfinedExactly | crates/metadata/src/loader.rs:991-997 | a relation is read alike in every range, whatever rows it is given, if and only if it joins rows of one block only |
| RelationKeys.KeysConfineExactly | crates/metadata/src/loader.rs:991-997 | every relation by keys that start with two block columns joins rows of one block only, for all rows, if and only if the columns read alike |
| RelationKeys.RangeFollowsKeys | src/execution/tables.rs:60-130 | so ranges that follow relations by such keys one by one read what a scan of the finished tables would |
| Selection.BlockSelection.Offer | src/output/weight.rs:228-241 | after any offer, the blocks taken are the longest prefix offered that fits, and at least one |
| Selection.BlockSelection.Extend | src/output/weight.rs:228-241 | offers blocks until the budget is exceeded, and says whether it is |
| Selection.ExceedingSettles | src/output/weight.rs:209-256 | once a prefix exceeds the budget, nothing offered later changes the page |
| Page.HeadersBudgetHolds | src/execution/page.rs:265-274 | the fewest headers whose weight, at the weight per header so far, spends what is left of the budget |
| Page.SelectionSpan | src/execution/page.rs:226-261 | only a deferred read is given a span, within the two bounds: the least at an unfiltered start, then the fewest headers that spend the budget, where so many do; otherwise the greatest, or none where a range would split the request |
| Page.RangeEnd | src/execution/page.rs:169-208 | whatever is hinted, a range that is not the last ends at or after its start and before the request's end |
| PageSelection.RangeBlocks | src/execution/page.rs:326-368 | a range's candidates in ascending order are those of the whole request that lie in it |
| PageSelection.RangeFollows | src/execution/page.rs:67-131 | the candidates of one range after those of the ranges before are those of all of it |
| PageSelection.NothingPastEnd | src/execution/page.rs:60-65 | where no row lies past the last header, ending there selects the page of the whole request |
| PageSelection.SpentIsPage | src/output/weight.rs:209-256 | where the budget is spent before the end, the blocks taken so far are the whole request's page |
| PageBlocks.ReachHolds | src/execution/page.rs:326-368 | the candidates, ascending, are exactly the requested blocks that some row has, or a header where all count, or the first or the last header |
| PageBlocks.PageHolds | src/output/weight.rs:209-256 | a page has the least of those blocks, as many as the budget holds together and one at least; none exactly where there is no such block |
| PageLoop.SelectPage | src/execution/page.rs:39-145 | for every sequence of hints: consecutive disjoint ranges, an end, and the blocks, weights and rows of the page one read selects, said of rows and headers alone: of the whole request where no row lies past the last header, otherwise of that or of the request ending there |
| PageLoop.LayoutMatters | src/execution/page.rs:60-65 | ranges ending at the last header select the full read's page exactly when no row lies past it, or the first block that does would spend the budget |
| PageLoop.StrayRowMissed | src/execution/page.rs:60-65 | an instance in which the two pages differ |
| Counted.CountedAreWritten | src/output/weight.rs:390-415 | without positions, the rows the weight counts are the rows the merge writes if and only if no key has two rows in the first source that has it |
| Counted.MergeWrites | src/output/row_writer.rs:142-160 | the merge writes each row of its key's first source, as often as it is there, and no others |
| Counted.MergedAreCounted | src/output/weight.rs:390-415 | of the rows gathered for a block, those the merge writes are those the weight counts if and only if no key has two rows in the first source that has it |
| Counted.CountsAreCounted | src/output/weight.rs:416-444 | the rows counted by identity are those the weight of a block adds up |
| Counted.DoubledKeyOvershoots | src/output/row_writer.rs:153-160 | an instance: two rows of one key in one source, both written and one counted |
| Ascending.Collected | src/execution/page.rs:365-367 | a set collected and sorted is its ascending sequence |
| Ascending.AscendApart | src/execution/page.rs:67-131 | a set wholly below another comes before it |
| RowKeys.WordIsOffset | src/output/row_order.rs:153-160 | the order-preserving word of a stored integer is how far it is above its type's least value |
| RowKeys.FlipSign | src/output/row_order.rs:153-160 | flipping the sign bit moves a word by half its range, and stays in it |
| RowKeys.RowWordsOrder | src/output/row_order.rs:362-377 | columns shifted into one word compare as the columns do one after the other |
| RowKeys.RowBytesOrder | src/output/row_order.rs:139-149 | columns as big-endian bytes compare as the columns do |
| RowKeys.PathBytesOrder | src/output/row_order.rs:139-160 | paths as bytes compare element by element, then by length |
| RowKeys.PackedRowsOrder | src/output/row_order.rs:380-418 | a row's columns and trailing path as bytes compare as its columns and then its path do |
| RowOrder.ComparePaths | src/output/row_order.rs:184-195 | element by element, then by length, at any two widths and signs |
| RowOrder.CompareByColumns | src/output/row_order.rs:56-70 | the first column both sides have and that tells two rows apart decides |
| RowOrder.KeysReversed | src/output/row_order.rs:56-70 | comparing the other way round gives the opposite outcome |
| RowOrder.KeysTransitive | src/output/row_order.rs:56-70 | between rows of one shape the comparison is transitive |
| RowOrder.RowsOrdered | src/output/row_order.rs:444-482 | with file order behind it, it orders rows of one shape with no ties |
| RowLayers.LayeredOrders | src/output/row_order.rs:56-70 | batches that lack columns in layers are ordered by comparing the columns both have and then by file order |
| RowLayers.CycleOfTwo | src/output/row_order.rs:56-70 | two batches that compare by a column past one they do not share can hold rows that come before each other in a circle |
| RowLayers.CycleOfThree | src/output/row_order.rs:56-70 | so can three, where the middle one lacks a column the outer two compare by |
| RowLayers.LayeredExactly | src/output/row_order.rs:56-70 | of the columns each batch has: the comparison with file order is an order whatever they hold if and only if they are layered |
| KeyForms.FoldWord | src/output/row_order.rs:362-377 | the loop's word is the row's columns at their places, without overflow |
| Bits.FillLow | src/output/row_order.rs:370-374 | filling in bits below those a word has is adding them |
| KeyForms.WordKeys | src/output/row_order.rs:362-377 | one word a row, exactly where there is no path and eight bytes are enough |
| KeyForms.ShiftExact | src/output/row_order.rs:370-374 | shifting in a column loses nothing; a shift by the whole word gives zero |
| KeyForms.Pack | src/output/row_order.rs:139-149 | writes the elements' order-preserving bytes in place and nothing else |
| KeyForms.PackedEnds | src/output/row_order.rs:381-399 | where each row's bytes end, running on from the row before |
| KeyForms.PackRow | src/output/row_order.rs:403-415 | writes one row's bytes, columns and then path, and leaves the bytes before them |
| KeyForms.PackKeys | src/output/row_order.rs:380-418 | each row's slice of the buffer is that row's bytes |
| RowSort.CompareTyped | src/output/row_order.rs:204-222 | the typed comparison is the column comparison and then the path comparison |
| RowSort.RowSortKeys | src/output/row_order.rs:311-356 | which of the three forms is chosen, by width and by the paths' average depth, and that the one chosen holds every row's key |
| RowSort.PreparesExactly | src/output/row_order.rs:311-342 | keys are prepared exactly where there is a batch and a key and every batch has every column, at one type, integers or, of the last, paths of them |
| RowSort.FormsAgree | src/output/row_order.rs:204-222 | one word, typed values and packed bytes compare any two rows as the column-by-column comparator does |
| RowSort.SameOrder | src/output/row_order.rs:444-482 | so every form, with file order behind it, is one order |
| RowSort.SortRows | src/output/row_order.rs:444-482 | the rows sorted in place by that order, none lost, also without prepared keys wherever the comparison orders them |
| RowSort.SortedOneWay | src/output/row_order.rs:444-482 | the sorted permutation is unique, so an unstable sort and any form give the same |
| RowSort.PreparedUniform | src/output/row_order.rs:311-356 | where keys could be prepared, the rows are of one shape |
| JsonBuffer.Buffer.CloseObject | src/output/row_writer.rs:661-670 | after parts each written with a comma, the buffer holds the object of those parts, also of none |
| JsonBuffer.ClosedObject | src/output/row_writer.rs:661-670 | closing entries each followed by a comma gives the object with commas between them, also with no entries |
| JsonBuffer.Buffer.WriteFields | src/output/row_writer.rs:586-614 | each field present, its key and value, followed by a comma |
| JsonBuffer.Buffer.WriteGroup | src/output/row_writer.rs:639-653 | a group's fields flat or as an object of their own, nothing for a group without selected fields |
| JsonBuffer.Buffer.WriteItem | src/output/row_writer.rs:616-658 | an item is one object of its fields and groups, commas between them |
| JsonBuffer.Buffer.WriteItems | src/output/row_writer.rs:219-238 | a block's items as one array after the table's name, or nothing |
| Merge.KeptLowest | src/output/row_writer.rs:153-160 | after the sort the row dedup keeps last is of the lowest source with its key |
| Merge.KeptMerged | src/output/row_writer.rs:153-160 | sorted and deduplicated, the rows are, for each key, all rows of the lowest-numbered source that has it and no others, in order |
| Merge.FlatLeq | src/output/row_writer.rs:153-160 | rows of several sources compare as rows of one source with all their batches |
| Merge.RefsOrdered | src/output/row_writer.rs:153-160 | rows of one shape give the merge an order to sort by |
| Merge.RefsLayered | src/output/row_writer.rs:153-160 | so do the rows of layered batches |
| Merge.KeptOneWay | src/output/row_writer.rs:153-160 | what is sorted and kept is one sequence, whichever way the unstable sort went |
| Merge.RowScratch.Dedup | src/output/row_writer.rs:159 | the in-place dedup is that of each row against the last one kept |
| Merge.RowScratch.MergeRows | src/output/row_writer.rs:142-160 | gathers, sorts and dedups in place wherever the comparison orders the rows; of rows of one shape to the merged rows; without a key keeps all in source order |
| Merge.WriteMergedItems | src/output/row_writer.rs:136-175 | writes exactly the rows sorted and kept, which are the merged rows where they are of one shape, as one array, or nothing where there are none |
| BlockIndex.Place | src/output/block_index.rs:72-87 | the dense table says of each number the page spans which block it is, if any |
| BlockIndex.BlockPositions.Position | src/output/block_index.rs:94-104 | dense or searched, the position of a block on the page, or none, for every number |
| Grouping.Starts | src/output/block_index.rs:122-132 | counts summed in place are where each run starts and the last ends |
| Grouping.Fill | src/output/block_index.rs:134-141 | placing rows one by one fills every run with its items in their order |
| Grouping.RunsApart | src/output/block_index.rs:147-159 | no two runs share a place |
| BlockIndex.ForEachBlockNumber | src/output/block_index.rs:14-42 | every row with its block in file order, or an error where a column is no integer |
| BlockIndex.RowsOfCounts | src/output/block_index.rs:147-149 | a block's run holds each row as often as it occurs with that block |
| BlockIndex.Build | src/output/block_index.rs:117-145 | the run of the page's p-th block is the file-order list of its rows, and rows of other blocks are in no run |
| BlockIndex.Index.Runs | src/output/block_index.rs:152-159 | splitting the buffer at the runs' lengths gives those same runs |
| BlockIndex.Index.SortRuns | src/output/block_index.rs:152-159 | each run sorted in place within its own bounds, by any order of the rows it has |
| PreparedSources.Prepare | src/output/row_writer.rs:179-190 | index, row order and sort together: the run of each block is that block's rows, all and no others, by key and then by file order |
| PreparedSources.RunOneWay | src/output/row_writer.rs:179-190 | and is one sequence, whichever form of the keys it was sorted by |
| Cache.StepKeeps | src/scan/columns.rs:277-356 | every step of any call, clears among them, keeps the budget, one holder a slot, and one live slot a key |
| CacheSafety.WithinBudget | src/scan/columns.rs:314-356 | in every state of every run what is counted is within the budget |
| CacheSafety.OneLoad | src/scan/columns.rs:292-311 | no two threads load one slot, and none loads one that holds a value |
| CacheSafety.NeverStuck | src/scan/columns.rs:277-312 | while any call is in progress some thread can go on |
| CacheSafety.LaterCallersGet | src/scan/columns.rs:292-311 | once a slot holds a value every caller waiting for it then or later, and whose call ends in it, gets that value |
| CacheCalls.CallsDid | src/scan/columns.rs:277-312 | in every run each outcome is what the call's own steps make it: a value it found or loaded; no room only where no size was known or the count it last read could not take it; a failure only where loading gave nothing |
| CacheCalls.OwnCallerGets | src/scan/columns.rs:299-311 | the caller that loads a value gets it, kept or not |
| CacheCalls.UnknownGetsNone | src/scan/columns.rs:296-298 | a caller that finds the slot empty and knows no size gets none |
| CacheCalls.KeptWhereCounted | src/scan/columns.rs:308-335 | a loaded value is kept exactly where the budget took its bytes in place of those reserved |
| CacheCalls.OwnKey | src/scan/columns.rs:285-292 | a call is in a slot of the key it asked for, whatever is cleared meanwhile |
| CacheSafety.RunGoesOn | src/scan/columns.rs:277-356 | a run goes on by whatever step a thread can take |
| CacheSafety.RunStarts | src/scan/columns.rs:103-113 | any number of threads may start, with any budget and nothing cached |
| CacheSafety.SameSlot | src/scan/columns.rs:285-290 | a key finds the same slot until a clear drops it |
| CacheSafety.BytesBalance | src/scan/columns.rs:292-335 | what a step adds to the count is what it adds to bytes kept and bytes reserved |
| CacheSafety.QuietRunCounts | src/scan/columns.rs:120-132 | while no clear overlaps a call, the count is exactly the bytes kept and those reserved by loads in flight |
| CacheSafety.SettlingCounts | src/scan/columns.rs:325-335 | settling leaves the count exact if and only if it does not saturate |
| Ranges.Runs | src/scan/columns.rs:254-269 | ascending offsets as maximal, separate, non-empty runs that expand to the same offsets |
| Columnar.SignedBoundsUnsigned | src/scan/columnar.rs:395-409 | bounds taken in signed order that do not come out inverted as unsigned block numbers bound the block numbers between them |
| Columnar.BlockBounded | src/scan/columnar.rs:395-409 | a window's block bounds, where they are used, hold of every row in it |
| Columnar.StatedIs | src/scan/columnar.rs:395-409 | a statistic states one value, however widened, which its low bits give and whose block number they give unsigned |
| Columnar.PrunedRow | src/scan/columnar.rs:341-452 | a row of a pruned window is one the filters drop, or one outside the block range |
| ScanMeaning.PrunedExactly | src/scan/columnar.rs:386-440 | a window is left out exactly where the blocks its statistics state lie outside the request, or every item rules its bounds out, or no key of the relation is of those blocks |
| ColumnarScan.UsableStats | src/scan/columnar.rs:348-380 | only statistics that cover the table, of one cut into windows, are used |
| ColumnarScan.CandidateRows | src/scan/columnar.rs:341-452 | the ranges read are sorted, disjoint and not empty, and hold the rows of the windows no statistic rules out and no others |
| ColumnarScan.OrMask | src/scan/predicate.rs:1588-1599 | the three-valued OR of the items is yes exactly when some item says yes |
| ScanMeaning.KeepsAsked | src/scan/columnar.rs:278-327 | the filters keep a row exactly where its block is in the bounds looked at, the relation's mask says yes where there is one, and some item says yes where there are any |
| ColumnarScan.RowMasks | src/scan/columnar.rs:278-327 | a row is kept exactly when it is in the blocks, the relation picks it and some item matches; each tag says which items do |
| ColumnarScan.ScanReturns | src/scan/columnar.rs:132-166 | a scan returns rows asked for only, ascending, with their tags, and those of the windows left all |
| ColumnarScan.AllReturned | src/scan/columnar.rs:132-166 | without statistics, or with no items, keys or bounds, every row asked for is returned; without any filter the positions are 0, 1, 2 and so on |
| ColumnarScan.FilteredSame | src/scan/columnar.rs:132-166 | leaving out only rows the filters drop changes nothing they keep |
| ColumnarScan.Scan | src/scan/columnar.rs:132-202 | refused exactly when some row has no block; rows asked for, ascending, with positions and tags, all of them where nothing is pruned, every row where nothing is asked; those of the full filter where it keeps no row outside the range |
| ColumnarScan.ScanExact | src/scan/columnar.rs:132-202 | of a table's columns and a request: the scan is the full filter, for all rows and truthful statistics, if and only if the filters keep no row outside the range |
| ColumnarScan.ReadPositions | src/scan/columnar.rs:478-518 | exactly the rows named, refused unless they are ascending and in bounds |
| ColumnarScan.KeptRowPruned | src/scan/scanner.rs:404-419 | every row kept outside the range has a table, truthful and well typed, whose scan loses it |
| KeySets.ReadAlikeDecides | src/integers.rs:519-521 | one join word is one block number at two types if and only if the types read alike |
| KeySets.BlockWithinExactly | src/scan/keys.rs:174-225 | a relation has a block within bounds exactly where one of its source rows' block numbers is |
| KeySets.KeysKeepExactly | src/scan/keys.rs:174-225 | a relation's keys keep to the blocks of its source rows, and rule out only windows without a row they keep, for all source rows, if and only if the two block columns read alike |
| KeySets.KeyOutOfRange | src/execution/tables.rs:77-79 | where they do not, a source row and its request whose key keeps a row outside the range |
| Base58.AddByte | src/output/encoder.rs:438-449 | the digits' value times 256 and the byte; the carry stays a byte, and the top digit is not zero |
| Base58.Digits | src/output/encoder.rs:436-449 | the digits have the bytes' value and no leading zero |
| Base58.HundredBytes | src/output/encoder.rs:435-436 | 256^100 is less than 58^137 |
| Base58.DigitsFit | src/output/encoder.rs:435-436 | the digits never exceed len * 137 / 100 + 1 |
| Base58.Encode | src/output/encoder.rs:429-453 | the quoted text decodes to the very bytes, leading zeros included, and fits its bound |
| Base58.AlphabetIs | src/output/encoder.rs:420-426 | the alphabet ascends, and is every digit and letter but 0, O, I and l |
| Base58.DecodeInjective | src/output/encoder.rs:420-453 | no two texts of the alphabet decode alike, so encoding is a bijection onto them |
| Decimal.WriteDecimal | src/output/encoder.rs:1025-1049 | the text reads back as the stored integer and its digits after the point; it states the number exactly when the scale is not negative or the number is zero |
| Decimal.TextReads | src/output/encoder.rs:1030-1048 | sign, truncated parts and padding read as the whole, also where nothing but zero stands before the point |
| Decimal.PowersFit | src/output/encoder.rs:1030-1031 | a power of ten fits 128 bits, signed, exactly up to the 38th |
| Escape.BelowExact | src/output/encoder.rs:785-802 | the word test sees a control character exactly when some lane is one, whatever borrows between lanes |
| Escape.QuoteExact | src/output/encoder.rs:785-802 | the same of a quote |
| Escape.BackslashExact | src/output/encoder.rs:785-802 | the same of a backslash |
| Escape.WordExact | src/output/encoder.rs:785-802 | a word is flagged exactly when one of its eight bytes must be escaped |
| Escape.NeedsEscape | src/output/encoder.rs:785-802 | for every length and byte order, exactly when some byte is a control character, a quote or a backslash (section 7 of RFC 8259) |
| IntTypes.SameKey | src/integers.rs:519-521 | two integers have one join key exactly when they are equal, or 2^64 apart across zero |
| SemiJoin.MinusOneJoins | src/integers.rs:519-521 | so -1 and 2^64 - 1 join |
| SemiJoin.CellsTell | src/join/semi_join.rs:90-131 | followed by anything, two values of matching kinds have the same bytes exactly when they and what follows are the same, integers by their words |
| SemiJoin.MatchExactly | src/join/semi_join.rs:90-131 | kinds of key columns match exactly where some value is of both |
| SemiJoin.KeysTell | src/join/semi_join.rs:136-149 | composite keys are equal exactly when every column is the same |
| SemiJoin.ClashDecides | src/integers.rs:519-521 | the words of two types are equal exactly when the values are, for all values held, if and only if the types are not a signed and an unsigned 64-bit one |
| SemiJoin.JoinsByValue | src/join/semi_join.rs:136-149 | of key columns of given types, joining by encoded keys is joining by values, for all rows, if and only if no column clashes, nor an element type of a list |
| SemiJoin.WronglyKept | src/join/semi_join.rs:190-227 | where a column clashes, a build row and a probe row it keeps that no build row equals |
| SemiJoin.WriteKey | src/join/semi_join.rs:136-149 | writes the concatenated key, or stops at the first null |
| SemiJoin.BuildKeySet | src/join/semi_join.rs:152-168 | the set holds exactly the keys of complete build rows, or is refused where a column cannot be read |
| SemiJoin.SemiJoinMasks | src/join/semi_join.rs:190-227 | keeps a probe row exactly when some build row has every key column the same and not null, which without clashing columns means equal; refused exactly when a batch it needs cannot be read |
| Integers.StoredKeys | src/integers.rs:459-486 | the keys of exactly the filter values the stored width can hold |
| Integers.SignExtendIs | src/integers.rs:502-505 | sign extension keeps the low bits and repeats their top one |
| Integers.DeclaredIs | src/integers.rs:531-539 | the declared reading is the stored low bits at the declared sign |
| Integers.KeyMatches | src/integers.rs:459-539 | a filter value's key is a stored value's exactly when the stored value's declared reading is that value |
| Integers.EqualityIsOrder | src/integers.rs:459-539 | a stored value's key is in the list exactly when its declared reading is among the filter's values, for every width and both signs |
| Integers.StatisticIsBlock | src/integers.rs:246-251 | a statistic that states a value, however widened, reads as that value's block number |
| Integers.StatementIs | src/integers.rs:531-539 | and its low bits at the column's own type are the value |
| Integers.Within | src/integers.rs:73-105 | rows within bounds by value; an unfitting lower bound matches nothing and an unfitting upper one constrains nothing |
| Sets.FromBytes | src/sets.rs:64-102 | the structure the bytes hold, of 32-bit numbers, and none exactly where the header is short or unsound: a power-of-two length, its mask, a multiple for a count, and the fingerprints they need |
| Sets.SoundExactly | src/sets.rs:79-84 | a header is sound exactly where segments are 2 to the k long, k at most 18, a positive number of them is counted, and the fingerprints fill those and two more |
| Sets.LowestFirst | src/sets.rs:72-77 | the numbers of the header are little-endian |
| Bits.XorKeepsSegment | src/sets.rs:113-115 | flipping bits below a power of two stays in the segment |
| Bits.XorInSegment | src/sets.rs:114-115 | and flips its place within the segment |
| Bits.MaskIsRemainder | src/sets.rs:114-115 | masking by a power of two less one is the remainder |
| Sets.LookupsBounded | src/sets.rs:112-115 | for every sound header and hash, three distinct places in three consecutive segments, all inside the fingerprints |
| Sets.PlacesAre | src/sets.rs:112-115 | the three places: the hash scaled down to the count, and in the two segments after it that place with the hash's bits from the 18th on, and its lowest, flipped |
| Sets.NoOverflow | src/sets.rs:113-115 | no sum of a lookup overflows, whatever bytes the structure was read from |
| Sets.Contains | src/sets.rs:108-119 | in bounds, and passes exactly when the fingerprint is the exclusive or of the three |
| Sets.OddLengthOverruns | src/sets.rs:79-84 | with a length that is no power of two a lookup can leave the fingerprints |
| QueryFilters.KeepNames | src/query/plan.rs:926-1082 | adding a list element adds exactly the cells it names; an element dropped could name none |
| QueryFilters.BigEndianReads | src/query/plan.rs:969-997 | bytes are the big-endian bytes of the number they are read as, and of no other |
| QueryFilters.CompileInList | src/query/plan.rs:926-1082 | refused exactly where an element is no value of the type; otherwise the test passes exactly the cells some element names, and there is none exactly where the type can hold no element |
| QueryFilters.PrefixTestExact | src/query/plan.rs:1095-1188 | a length's test passes exactly the cells that store one of the prefixes of that length, an integer by its big-endian bytes |
| QueryFilters.CompileDiscriminator | src/query/plan.rs:1095-1188 | one group per length: a row passes some group exactly when one of the prefixes starts it; the empty prefix constrains nothing |
| QueryItems.CompileColumn | src/query/plan.rs:434-618 | a column filter, list or scalar, passes exactly the rows it accepts, and sinks the item exactly where its column can hold no listed value |
| QueryItems.SetReferences | src/query/plan.rs:631-653 | the sets a filter's list names, each once, or a refusal exactly where an object names none |
| QueryItems.ReferenceTally.Add | src/query/plan.rs:395-421 | adds a list's references, refused exactly where the request then has too many |
| QueryItems.CompileSetFilter | src/query/plan.rs:660-772 | set references and values in one list pass exactly the rows some of them names |
| QueryItems.CompileSpecial | src/query/plan.rs:434-618 | range, bloom, flag and discriminator filters pass exactly the rows they accept |
| QueryItems.CompileFilter | src/query/plan.rs:434-618 | any filter: refused exactly where its value is none its kind takes or it brings the request to too many references, exact otherwise |
| QueryItems.CompileItem | src/query/plan.rs:355-618 | refused exactly where a limit is broken, a filter refused or references are too many, dropped exactly where a filter looks for nothing; an item's predicate passes exactly the rows all its filters accept |
| QueryItems.WholePasses | src/scan/predicate.rs:1392-1447 | columns and alternatives combined pass exactly the rows all columns and some alternative pass |
| QueryPlan.AskFor | src/query/plan.rs:181-222 | each join is planned once, with exactly the items that ask for it under any name |
| QueryPlan.FeedsRight | src/query/plan.rs:225-230 | a relation's source rows are exactly those accepted by an item that asked for it, also where no items are named because every one asked |
| QueryPlan.ScansRight | src/query/plan.rs:171-180 | the scan returns exactly the rows some item accepts |
| QueryPlan.CompileTable | src/query/plan.rs:138-244 | refused exactly where an item is, a name of an item that is not dropped denotes no relation, or references are too many; no plan exactly where every item is dropped; otherwise the plan answers the items read directly: its rows, its joins and each join's source rows |
| QueryPlan.CompileQuery | src/query/plan.rs:91-270 | a request is refused exactly where a table is unknown or refused, its filters refer to sets too often in all, or no filter refers to a set it declares; otherwise every table with a plan is answered by it, in order, and one without selects no row |
| QueryMeaning.AcceptsAsked | src/query/plan.rs:434-618 | a filter accepts exactly the rows that hold what it asks for, read off its own values, the column's type and the row: any of a list, hex by its big-endian bytes, a range, a flag, a prefix |
| QueryMeaning.FitsHeld | src/query/plan.rs:926-1082 | a listed value fits a column's type exactly where the type holds a value it asks for |
| QueryMeaning.NothingHeld | src/query/plan.rs:434-618 | a filter looks for nothing exactly where its list is empty, or its column can hold none of what it asks for |
| QueryMeaning.RefusedExactly | src/query/plan.rs:434-618 | a filter is refused exactly where its value is none its kind takes |
| QueryMeaning.LimitsExactly | src/query/plan.rs:355-393 | an item is within the limits exactly where at most one filter narrows a discriminator's columns, and no bloom filter lists more than ten values |
| QueryMeaning.PlanWants | src/query/plan.rs:138-244 | so a plan scans exactly the rows that hold what all filters of some item ask for, and feeds a relation with those of an item that names it |

## Left out

- Memory orderings weaker than sequential consistency, and what the thread pool does inside: claims, counters, locks and the condition variable are atomic steps.
- Panics of a payload's own destructor, and lifetimes of the closure behind raw pointers.
- ForkJoinLiveness.EveryScheduleEnds: spurious wakeups are left out of its schedules, since endless ones would keep a run from ending; the other scheduler results allow them, and items are taken to be finite.
- A panic inside a cache load, which poisons its slot's lock.
- CacheSafety.QuietRunCounts: assumes that no clear overlaps a call, as the count's documentation does, and a budget below 2^64 - 1; CacheSafety.WithinBudget does not.
- Narrowing of group numbers, offsets and lengths to 32 bits in the address index; there a group's key is an abstract value, whether a pair of integers or bytes.
- PageLoop.SelectPage: takes a row's identity (its position, or its block and keys) as given, and the whole block range as known when hints are given; the refusal to mix rows with and without positions is not part of it.
- Reading payload columns back for a selected page, and estimates of sizes: decisions about cost.
- RowSort.SortRows: where keys cannot be prepared, asks that the comparison orders the rows, since a sort by anything else promises nothing; RowLayers.LayeredExactly says when it does.
- Merge.RowScratch.MergeRows: asks the same of its rows, and of rows of unlike shapes promises only that they are sorted and the in-place dedup applied, since equal keys are then not transitive.
- Text sort keys are compared as sequences of characters; how text is stored is not part of the model.
- ColumnarScan.ScanExact: takes item statistics tests as sound for true bounds, and the test of a window by keys likewise; KeySets.KeysKeepExactly discharges the latter for relation keys.
- SemiJoin.SemiJoinMasks: takes lengths of text, bytes and lists below 2^32, as the offsets of such columns are, and key columns of matching kinds; integers of one column may be stored at any width and sign, batch by batch.
- QueryPlan.CompileQuery: takes the tables in the order of the catalog; error kinds and messages and which of several is reported, checks of the response's columns, the order of output columns and the request for a parent hash are not modelled.
- QueryItems.CompileSetFilter: whether a filter's sets are declared, its column renders text, a selected field shows it and the sets hold their canaries is one given answer for the filter and its sets.
- Sets.Contains: the hash of a value is given; how sets are built and how often they pass a stranger are not part of the model.
- Parquet, memory maps, Arrow and compression; hash functions, which are arbitrary; parsing requests and catalogs; number formatting and naming of keys; the encoders of single values but base58, decimals and escaping; rolls.
- Profiling and benchmarks.
