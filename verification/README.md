# Verification of simple_olap

simple_olap is a columnar query engine. Again and again it puts a fast form in the place of a simple one: workers
that claim segments instead of one loop, zone maps and rewritten literals instead of row tests, an index instead of
a scan, bit masks instead of row-wise evaluation, partial aggregates instead of one fold, bytes instead of values.
This project models both forms, in Dafny, and proves that they agree, or states exactly when they do.

The modules follow the engine's layers:

- **Parallel execution**: `BlockingQueue`, `ParallelScan`, `ParallelQuery` (the protocol of workers, queue, exit
  guard and consumer as a transition system with arbitrary interleavings), `ParallelQueryProofs` (its invariant),
  `ParallelQueryTheorems` and `ParallelQueryErrors` (complete and exact delivery, failure, progress),
  `ParallelTableScan` (with table scans as pipelines), `ParallelAggregate`, `ParallelAggregateProofs` and
  `ParallelAggregateProgress` (the same for partial aggregation).
- **Aggregation**: `Aggregates`, `GroupTables`, `HashAggregate`, `AggregateMeaning` (what a result is, said of the
  argument's values alone), `AggregateQuery` (that operator and workers give it).
- **Storage scan**: `Rounding`, `FloatRounding`, `ZoneMaps`, `StoragePredicates`, `StorageScan`, `TableScan`,
  `PushdownExactness`.
- **Table and indexes**: `KeyEncoding`, `KeyIndexes`, `TableState`, `TableRuns`, `TableProofs`,
  `TableDurability` (what is inserted stays), `TableStorageClass`, `AccessPath`, `IndexScanOperator`,
  `IndexEqualsScan`, `QueryPaths` (all of these as one answer).
- **Query transformations**: `Expressions` (row-wise evaluation, the specification side), `EvaluationMeaning` and
  `PlanMeaning` (what that evaluation and a plan's nodes compute, said without their cases), `Optimizer`,
  `OptimizerProofs`, `OptimizerFixpoint`, `StoredPlans` (plans over stored segments), `PlanExecution` (from the
  optimised plan to its rows), `VectorPredicates`, `FilterOperator`, `Projection`, `ProjectionOperators`.
- **Bits and bytes**: `BitWords`, `SelectionMasks`, `SelectionCursors`, `CompareKernels`, `FloatBits`,
  `SegmentFiles`, `SegmentLayout`, `SegmentValues`, `BlockPools`, `Arenas`, `BufferPools`.
- **SQL text**: `SqlAst`, `SqlLexer`, `SqlTokens`, `SqlParser`, `SqlGrammar`, `SqlGrouping`, `SqlRoundTrip`,
  `SqlPrintable`, `SqlTermination`.

Objects the engine updates in place (queue, scan state, column builder, aggregate state, indexes, table, cursors,
masks, lexer, parser, writer, reader, pools, arena, operators) are classes; their methods are proved against
functions of the old state, and the laws are lemmas about those functions. Integers are unbounded with explicit
ranges where a width matters; FLOAT and DOUBLE values are reals, with the rounding of an integer to a double, of a
double to a float, and their bit patterns modelled where the code converts or stores one. A C++ exception is a
`Result` or a `threw` flag.

Where the code leaves what its comments claim, the model follows the code, and the exact condition is proved:

- `DataChunk::Slice` does not accumulate its start, so an Append stores the rows it was given, for all contents,
  exactly when it needs no second slice away from row zero (`TableState.AppendCopiesIff`).
- Zone maps hold doubles, so pruning is sound for all operators exactly when no extreme value differs from the
  literal and is the same double (`ZoneMaps.ZoneMapSoundIff`); 2^53 + 1 against 2^53 is lost
  (`ZoneMaps.ZoneMapLosesARow`), integers within 2^53 never are (`ZoneMaps.NoCollisionWithin53Bits`).
- Binding a literal on a DOUBLE column is exact exactly when the literal is a double
  (`StoragePredicates.DoubleBindingExactIff`), on a FLOAT column exactly when narrowing leaves it alone or takes it
  beyond every float (`StoragePredicates.FloatBindingExactIff`).
- A comparison pushed into storage finds other rows than the filter it came from exactly when some segment holds a
  value that it misreads (`StoredPlans.OneFilterExactIff`, `PushdownExactness.TakesIff`): the pushed form loses
  2^53 + 1 under `x > 2^53` (`StoredPlans.PushLosesARow`) and finds a row under `f = 2^24 + 1`
  (`StoredPlans.PushFindsARow`).
- Predicate pushdown preserves every result that is returned, and makes a filter's exception vanish exactly when every
  row that the filter throws on fails a pushed condition (`OptimizerProofs.FilterPushSameIff`, for whole plans
  `OptimizerProofs.PushSameIff`, one such plan in `OptimizerProofs.PushHidesAnError`); it never does when no
  pushable conjunct follows one that can throw (`OptimizerProofs.OrderedPushSame`).
- A lookup on a FLOAT key compares the narrowed literal, so it is the comparison exactly when narrowing leaves the
  literal alone (`KeyEncoding.LookupIsComparisonIff`).
- The planner offers an integer literal on a FLOAT key to an encoder that throws on it, and nothing else of that kind
  (`AccessPath.UsableLiteralEncodesIff`).
- Two dashes where a token starts make the lexer recurse without advancing, so tokenizing never returns exactly when
  they stand outside a string before the first `!` without `=` (`SqlTermination.NeverReturnsIff`); and an expression
  survives printing and reading exactly when it is printable (`SqlPrintable.RoundTripIff`).
- A SaveMeta that fails leaves rows a scan sees and a lookup does not (`TableProofs.FailedSaveHidesARow`), until one
  succeeds (`TableProofs.SaveSettles`).
- Arena alignment holds for every block address exactly up to 64 (`Arenas.AlignmentHoldsIff`).
- Whole-column integer arithmetic is the row-wise one exactly when the result fits the type
  (`Projection.KernelIsExactIff`).
- A segment file cut short still opens whenever its header is whole (`SegmentLayout.CutFileOpensIff`).

## Model

| member | source | states |
|---|---|---|
| BlockingQueue.BoundedBlockingQueue.Push | src/parallel/queue/bounded_blocking_queue.h:32-43 | Push waits only while the queue is full and open, refuses after close, abort or cancel, and otherwise adds at the back; the bound and the flags' consistency hold afterwards |
| BlockingQueue.BoundedBlockingQueue.Pop | src/parallel/queue/bounded_blocking_queue.h:45-59 | Pop hands out the oldest element even after close or abort, waits only on an empty live queue, and says false only when nothing is left and no more can come |
| BlockingQueue.BoundedBlockingQueue.Close | src/parallel/queue/bounded_blocking_queue.h:61-69 | closing drops nothing that is queued |
| BlockingQueue.BoundedBlockingQueue.Abort | src/parallel/queue/bounded_blocking_queue.h:71-82 | abort stops producers; an error that is given replaces the one kept, and without one the kept error stays |
| ParallelScan.ParallelScanGlobalState.ClaimSegment | src/storage/scan/parallel_scan_state.h:50-60 | each claim takes the next unclaimed segment, none past the end, and none once cancelled |
| ParallelScan.ResolveWorkerCount | src/execution/parallel/parallel_executor.cpp:47-62 | at least one worker, and otherwise the least of what the configuration, the pool, the memory contexts and the segments allow |
| ParallelQueryProofs.ShapeKept | src/execution/parallel/parallel_executor.cpp:285-373 | queue bound, active-worker count and worker states stay consistent under every step of every interleaving |
| ParallelQueryProofs.CloseKept | src/execution/parallel/parallel_executor.cpp:299-337 | the exit guard closes the queue only after the last worker has stopped |
| ParallelQueryProofs.ClaimKept | src/storage/scan/parallel_scan_state.h:50-60 | no step lets two workers hold one segment or skips a segment |
| ParallelQueryProofs.SegmentKept | src/execution/parallel/parallel_executor.cpp:315-337 | every batch of a segment is at every moment delivered, queued, still owed by the one worker that claimed it, or unclaimed |
| ParallelQueryProofs.InvKept | src/execution/parallel/parallel_executor.cpp:285-390 | the whole invariant survives every enabled step of workers and consumer |
| ParallelQueryTheorems.ReturnedIsComplete | src/execution/parallel/parallel_executor.cpp:285-390 | whenever the query returns normally, in any interleaving, each segment's batches were delivered in order and exactly once, the rows are as a multiset those of the serial pipeline, and the count reported is theirs |
| ParallelQueryTheorems.FinishedThrowsIffFailed | src/execution/parallel/parallel_executor.cpp:375-390 | a finished query rethrows if and only if some part of it failed: no partial result passes for a whole one |
| ParallelQueryErrors.ThrowsIffAStepThrew | src/execution/parallel/parallel_executor.cpp:285-390 | in every interleaving a finished query throws if and only if one of its steps threw |
| ParallelQueryErrors.ThrownIsFromAStep | src/execution/parallel/parallel_executor.cpp:285-390 | the exception it throws is one that a step of the run threw |
| ParallelQueryTheorems.AlwaysAPrefix | src/execution/parallel/parallel_executor.cpp:345-373 | at any moment what was delivered of a segment is a prefix of its serial output, and the queue is within capacity |
| ParallelQueryTheorems.NoSegmentClaimedTwice | src/storage/scan/parallel_scan_state.h:50-60 | in every reachable state no two workers hold the same segment |
| ParallelQueryTheorems.NeverStuck | src/execution/parallel/parallel_executor.cpp:285-390 | every reachable unfinished state has an enabled step of a worker or the consumer: no deadlock |
| ParallelQueryTheorems.StepDecreases | src/execution/parallel/parallel_executor.cpp:285-390 | every step lowers a measure of remaining batches, queued batches and running workers |
| ParallelQueryTheorems.RunsAreBounded | src/execution/parallel/parallel_executor.cpp:285-390 | no schedule is longer than the measure of its first state |
| ParallelQueryTheorems.MaximalRunsFinish | src/execution/parallel/parallel_executor.cpp:285-390 | a schedule that cannot be continued has finished the query |
| ParallelTableScan.ScanClaimed | src/storage/table/table_storage.cpp:463-506 | a worker that scans its segment batch by batch emits, all together, what the serial scan takes of that segment |
| ParallelTableScan.ParallelScanIsScan | src/execution/parallel/parallel_executor.cpp:285-390 | whenever a query that scans a table returns, in any interleaving, the rows delivered are as a multiset those of the serial scan of the whole table |
| ParallelTableScan.ParallelScanIsFilter | src/execution/parallel/parallel_executor.cpp:285-390 | on a table as written, under literals that collide with no extreme, those are the stored rows that meet every condition |
| Aggregates.CombineLaws | src/execution/aggregate/hash_aggregate_state.cpp:113-144 | combining partial states is commutative, has the empty state as its unit and keeps states well formed |
| Aggregates.CombineAssociative | src/execution/aggregate/hash_aggregate_state.cpp:113-144 | combining partial states is associative |
| Aggregates.UpdateIsCombine | src/execution/aggregate/hash_aggregate_state.cpp:50-93 | folding a row in is combining with the state of that row alone, and the two throw alike |
| GroupTables.MergeCommutes | src/execution/aggregate/hash_aggregate_state.cpp:188-221 | merging two group tables does not depend on which is merged into which |
| GroupTables.MergeAssociates | src/execution/aggregate/hash_aggregate_state.cpp:188-221 | merging group tables is associative |
| GroupTables.TableOfConcat | src/execution/aggregate/hash_aggregate_state.cpp:146-221 | the table of two row sequences in a row is the merge of their tables, errors included |
| GroupTables.AddRowsIsMerge | src/execution/aggregate/hash_aggregate_state.cpp:176-186 | folding rows into a table is one merge with the table of those rows |
| HashAggregate.CountStarCounts | src/execution/aggregate/hash_aggregate_state.cpp:155-174 | COUNT(*) over a batch may be one addition: the row-wise fold adds one per row whatever the rows hold |
| HashAggregate.HashAggregateState.constructor | src/execution/aggregate/hash_aggregate_state.h:90-107 | a new state stands for the empty input, with the single group in place in global mode |
| HashAggregate.HashAggregateState.Consume | src/execution/aggregate/hash_aggregate_state.cpp:146-186 | Consume folds exactly the active rows into the table and throws exactly when the row-wise fold would |
| HashAggregate.HashAggregateState.Merge | src/execution/aggregate/hash_aggregate_state.cpp:188-221 | Merge leaves the merge of the two tables |
| HashAggregate.HashAggregateState.NextResult | src/execution/aggregate/hash_aggregate_state.cpp:223-300 | one call emits the next batch of groups, every key of the table standing once in the emission order |
| HashAggregate.EmitAll | src/execution/aggregate/hash_aggregate_state.cpp:223-300 | repeated NextResult emits every group exactly once in non-empty batches of at most 1024, exactly one row in global mode even on empty input |
| HashAggregate.SameRowsAnyOrder | src/execution/aggregate/hash_aggregate_state.cpp:258-300 | the rows output do not depend on the hash table's bucket order |
| AggregateMeaning.FoldedIsAggregate | src/execution/aggregate/hash_aggregate_state.cpp:50-111 | folded rows finalize to their number for COUNT, the sum of their argument values for SUM, that over their number for AVG, and for MIN and MAX to a value that occurs and that none is before, or after |
| AggregateMeaning.TableMeans | src/execution/aggregate/hash_aggregate_state.cpp:146-186 | the table that consuming rows leaves has exactly the groups that occur, each with the folds of its own rows |
| AggregateMeaning.ConsumingThrowsIff | src/execution/aggregate/hash_aggregate_state.cpp:43-93 | consuming rows throws if and only if on one of them a group expression or an argument throws, or a sum meets a string |
| AggregateMeaning.ResultMeans | src/execution/aggregate/hash_aggregate_state.cpp:223-300 | the rows put out of a table are one for every group, holding in each column the group value or the aggregate over that group's rows that the column asks for |
| AggregateQuery.Aggregate | src/execution/aggregate/hash_aggregate.cpp:7-24 | the operator consumes all its input and puts out exactly that result; it throws if a row of the input does, and otherwise only if some group has no row that can be stored |
| ParallelAggregateProofs.ConservedKept | src/execution/parallel/parallel_executor.cpp:150-215 | every step of every worker keeps the merge of all partial states with the unclaimed segments' tables unchanged |
| ParallelAggregateProofs.TotalOfFailed | src/execution/parallel/parallel_executor.cpp:150-215 | once a worker has failed there is no table the states could add up to |
| ParallelAggregateProofs.ParallelIsSerial | src/execution/parallel/parallel_executor.cpp:150-215 | for every configuration, assignment of segments to workers and interleaving, a result that is returned is the table of one serial Consume over all batches |
| ParallelAggregateProofs.ThrowsIffSerialThrows | src/execution/parallel/parallel_executor.cpp:150-215 | the parallel aggregate throws exactly when one of its steps throws for a reason of its own or the serial form throws |
| AggregateQuery.ParallelResult | src/execution/parallel/parallel_executor.cpp:150-215 | whatever workers made of which segment, the rows put out from their merged table are that result over all rows |
| ParallelAggregateProgress.NeverStuck | src/execution/parallel/parallel_executor.cpp:150-215 | an aggregation that is not done has an enabled step: no deadlock |
| ParallelAggregateProgress.StepDecreases | src/execution/parallel/parallel_executor.cpp:150-215 | every step lowers a measure of unclaimed segments, batches in hand, running tasks and futures to collect |
| ParallelAggregateProgress.RunsAreBounded | src/execution/parallel/parallel_executor.cpp:150-215 | no run is longer than the measure of its first state |
| ParallelAggregateProgress.MaximalRunsFinish | src/execution/parallel/parallel_executor.cpp:150-215 | a run that cannot be continued has finished the aggregation |
| Rounding.ToDoubleMonotone | src/storage/segment/columnchunk.cpp:33-70 | converting integers to double never swaps two of them |
| Rounding.ToDoubleExact | src/storage/segment/columnchunk.cpp:33-70 | integers within 2^53 convert to themselves |
| Rounding.RoundToNearest | src/storage/segment/columnchunk.cpp:33-70 | no multiple of the spacing is nearer than the one a number is rounded to |
| FloatRounding.ToFloatMonotone | src/storage/scan/storage_predicate.cpp:167-182 | narrowing doubles to floats never swaps two of them |
| FloatRounding.ToFloatStays | src/storage/scan/storage_predicate.cpp:167-182 | what narrowing gives is left alone by narrowing again |
| ZoneMaps.ColumnBuilder.Append | src/storage/segment/columnchunk.cpp:24-84 | appending adds the batch's values and keeps the statistics those of all values so far |
| ZoneMaps.StatsAreExtremes | src/storage/segment/columnchunk.cpp:33-77 | after any run of appends min and max bound every value as a double and are both attained; there are none exactly on an empty column |
| ZoneMaps.ZoneMapSoundIff | src/storage/segment/segment.cpp:111-184 | SKIP and ALL_MATCH are right for every operator if and only if no extreme value differs from the literal and rounds to the same double |
| ZoneMaps.NoCollisionWithin53Bits | src/storage/segment/segment.cpp:111-184 | integers within 2^53 on both sides meet that condition |
| ZoneMaps.VerdictsAreSharp | src/storage/segment/segment.cpp:111-184 | SKIP and ALL_MATCH are given exactly when no number, or every number, between the extremes satisfies the comparison |
| ZoneMaps.ZoneMapLosesARow | src/storage/segment/segment.cpp:111-184 | a column holding 2^53 + 1 is skipped by `> 2^53` though its row matches |
| StoragePredicates.IntegerConstantExact | src/storage/scan/storage_predicate.cpp:26-58 | clamping an int64 constant to the column's range keeps every comparison's outcome |
| StoragePredicates.IntegerBindingExact | src/storage/scan/storage_predicate.cpp:26-165 | for every integer column, operator and numeric literal, the bound predicate decides every value in range as exact comparison does; anything but a number is refused |
| StoragePredicates.DoubleBindingExactIff | src/storage/scan/storage_predicate.cpp:167-182 | on a DOUBLE column the bound predicate is exact for all operators and values if and only if the literal is exactly a double |
| StoragePredicates.FloatBindingExactIff | src/storage/scan/storage_predicate.cpp:167-182 | on a FLOAT column the bound predicate is exact for all operators and values if and only if the narrowed literal is the literal or beyond every float |
| StoragePredicates.BindOkIff | src/storage/scan/storage_predicate.cpp:184-220 | binding succeeds exactly for a scanned numeric column and a numeric literal |
| StoragePredicates.Build | src/storage/scan/storage_predicate.cpp:184-220 | either every condition is bound, in order, or the error is that of a condition that cannot be |
| StorageScan.EvaluatePredicates | src/storage/segment/segment.cpp:186-210 | the segment is skipped exactly when some verdict is SKIP, and otherwise the mask is on exactly where a row test is still needed |
| StorageScan.GetVectorBatch | src/storage/segment/segment.cpp:212-264 | a batch is the next rows of the segment, at most 1024, all active, of the columns asked for or of all when none is named; there is none exactly past the end |
| StorageScan.ApplyRowFilter | src/storage/scan/row_filter.cpp:39-91 | a row stays selected exactly when it passes every predicate whose mask is on, and a mask that is too short counts as on; it throws exactly on an oversized batch |
| StorageScan.VerdictExact | src/storage/segment/segment.cpp:111-210 | under a literal that collides with no extreme, a SKIP verdict means no stored row meets the condition, an ALL_MATCH verdict that every one does |
| StorageScan.BindingExact | src/storage/scan/row_filter.cpp:14-91 | a predicate bound without changing its literal decides on a stored row as the condition does |
| StorageScan.FilterExact | src/storage/table/table_storage.cpp:312-374 | with the predicates the zone map settled left out, the row filter passes exactly the rows that verdict and binding take, for any literals |
| StorageScan.TrustedIsExact | src/storage/table/table_storage.cpp:312-374 | zone map, binding and filter together take exactly the rows that meet the conditions, on every segment as written and every numeric column type, if the literals collide with no extreme and are bound unchanged |
| StorageScan.SkippedIsEmpty | src/storage/table/table_storage.cpp:312-374 | a skipped segment is one of which the layers take no row |
| StorageScan.ScanSegment | src/storage/table/table_storage.cpp:312-374 | a call returns what is taken of the physical rows it passes over, so nothing is lost or repeated across resumed calls |
| TableScan.ScanCursor.Advance | src/storage/table/table_storage.cpp:268-285 | moving on enters the next segment with a fresh offset and no remembered decision |
| TableScan.Scan | src/storage/table/table_storage.cpp:376-430 | a call returns a non-empty part of what was still to come and leaves the cursor at exactly the rest; it throws exactly when a condition cannot be bound |
| TableScan.Drain | src/storage/table/table_storage.cpp:376-430 | draining a fresh cursor yields, in segment order and then row order, exactly what verdict and row filter take of the stored rows, whatever the literals |
| TableScan.TakenFromIsKept | src/storage/table/table_storage.cpp:376-430 | where every row is decided as the conditions decide it, scanning segment by segment is one filter over the table as a single sequence of rows |
| TableScan.ScanAll | src/storage/table/table_storage.cpp:312-430 | all layers together return exactly the stored rows meeting every condition, in order, when the literals collide with no extreme and are bound unchanged |
| PushdownExactness.TakesIff | src/storage/table/table_storage.cpp:312-374 | verdict and filter decide a stored row as the comparison does if and only if its value is not misread: on INT64 the deciding extreme rounds to the literal, on FLOAT the literal is narrowed to that very value |
| PushdownExactness.ScanExactIff | src/storage/table/table_storage.cpp:376-430 | a scan is the filter over the whole table if and only if it decides every stored row as the conditions do |
| PushdownExactness.OneConditionExactIff | src/storage/table/table_storage.cpp:376-430 | with one condition, if and only if no segment holds a value that the condition misreads |
| KeyEncoding.EncodeInjective | src/storage/index/key_encoder.cpp:13-27 | tagged, length-prefixed encoding is injective over tuples of any lengths and types |
| KeyEncoding.EncodeChunkRow | src/storage/index/key_encoder.cpp:130-151 | encoding a row being appended encodes the tuple of its key cells |
| KeyEncoding.EncodeBatchRow | src/storage/index/key_encoder.cpp:153-176 | encoding a row read back encodes the key cells found through the batch's columns, and fails only where one was not read |
| KeyEncoding.EncodeValues | src/storage/index/key_encoder.cpp:178-192 | encoding literals encodes their conversions to the key's types, and fails on a wrong count or an unconvertible literal |
| KeyEncoding.BatchAgreesWithChunk | src/storage/index/key_encoder.cpp:130-176 | a row read back has the key it had when it was appended |
| KeyEncoding.LookupKeyIff | src/storage/index/key_encoder.cpp:50-118 | a lookup key equals a row's key if and only if every literal matches the row's value: equal strings, equal numbers, on FLOAT columns the narrowed literal |
| KeyEncoding.LookupIsComparisonIff | src/storage/index/key_encoder.cpp:50-118 | a lookup on a column compares numbers exactly if narrowing leaves the literal alone |
| FloatBits.PatternInjective | src/storage/index/key_encoder.cpp:13-27 | two numbers of a binary format with one bit pattern are one number |
| FloatBits.NarrowedHeld | src/storage/index/key_encoder.cpp:71-82 | whatever is narrowed has a binary32 pattern, infinity beyond the largest float |
| KeyIndexes.PrimaryKeyIndex.ValidateBatch | src/storage/index/primary_key_index.cpp:7-23 | a batch is accepted exactly when it repeats no key and none is taken, visible or not |
| KeyIndexes.SecondaryKeyIndex.LookupEqual | src/storage/index/secondary_key_index.cpp:9-24 | a lookup gives the visible locations under the key, in insertion order |
| KeyIndexes.SecondaryKeyIndex.MarkSegmentVisible | src/storage/index/secondary_key_index.cpp:26-36 | exactly the entries of that segment become visible |
| KeyIndexes.LookupExact | src/storage/index/table_index_manager.cpp:100-118 | in an index in step with the data a lookup returns each visible row with that key once, and nothing else |
| KeyIndexes.UniqueInSync | src/storage/index/primary_key_index.cpp:7-28 | a unique index in step with the data means no two stored rows share a key |
| TableState.AppendCopiesIff | src/storage/datachunk.h:45-66 | an Append copies the rows it was given, whatever they hold, if and only if it needs no second slice away from row zero |
| TableRuns.InsertAllInSync | src/storage/index/table_index_manager.cpp:49-85 | entering the rows of an append keeps the index in step with the data, visible or not as their segment is |
| TableProofs.AppendKeeps | src/storage/table/table_storage.cpp:108-164 | an accepted append stores row j at reported location j, overwrites nothing and keeps indexes and data in step |
| TableDurability.AppendAcceptedIff | src/storage/table/table_storage.cpp:108-164 | a batch is refused if and only if the table has a primary key and the batch repeats a key or has one of a row that is stored or was lost to a failed write |
| TableProofs.FlushKeeps | src/storage/table/table_storage.cpp:171-220 | a flush keeps the invariant whichever segment writes fail and whatever becomes of SaveMeta |
| TableDurability.FlushPutsOnDisk | src/storage/table/table_storage.cpp:171-204 | a flush leaves nothing in memory: every row is in the file of a listed segment afterwards unless that segment's write failed, and no row appears |
| TableDurability.FlushIsDurable | src/storage/table/table_storage.cpp:171-220 | when all writes succeed and the metadata is saved, every row is visible and is there after reopening |
| TableDurability.UnsavedFlush | src/storage/table/table_storage.cpp:171-220 | when the metadata is not saved, lookups see what they saw and what was written waits for the next save |
| TableProofs.ReopenKeeps | src/storage/table/table_storage.cpp:51-106 | reopening rebuilds indexes in step with what is on disk |
| TableProofs.ReachableInv | src/storage/table/table_storage.cpp:108-259 | the invariant holds after every run of appends, flushes and reopens |
| TableDurability.NothingIsLost | src/storage/table/table_storage.cpp:51-220 | after any run of appends, flushes that succeed and reopens of a flushed table, the table holds exactly the rows it accepted, each once |
| TableDurability.ScanSeesInserts | src/storage/table/table_storage.cpp:51-220 | and after a flush at its end the segments a scan reads hold exactly those rows |
| TableProofs.SecondaryLookupExact | src/storage/table/table_storage.cpp:432-435 | in every reachable table a secondary lookup returns exactly the visible listed rows under the key, each once, and all of them when nothing is pending |
| TableProofs.PrimaryLookupExact | src/storage/table/table_storage.cpp:432-435 | the same for the primary key, with at most one row |
| TableProofs.PrimaryKeysDistinct | src/storage/index/primary_key_index.cpp:7-28 | no two rows of active, sealed and flushed segments share a primary key, over every run |
| TableProofs.SegmentsBounded | src/storage/table/table_storage.cpp:108-169 | no segment in memory or on disk exceeds 65536 rows, over every run |
| TableProofs.RebuiltAnswersAlike | src/storage/table/table_storage.cpp:227-261 | rebuilding on open gives a secondary index that answers every lookup as the maintained one did |
| TableProofs.RebuiltPrimaryAlike | src/storage/table/table_storage.cpp:227-261 | the same for the primary key |
| TableProofs.SaveSettles | src/storage/table/table_storage.cpp:171-220 | the next successful SaveMeta makes every listed segment visible and leaves nothing pending |
| TableProofs.FailedSaveHidesARow | src/storage/table/table_storage.cpp:171-220 | until then a listed, stored row can be missing from every lookup |
| TableStorageClass.TableStorage.Append | src/storage/table/table_storage.cpp:108-164 | an append that would repeat a primary key is refused as a whole and changes nothing, and otherwise does what the run step does |
| TableStorageClass.TableStorage.Flush | src/storage/table/table_storage.cpp:171-204 | a flush does what the run step does, for any segment writes that fail, and reports whether the metadata was saved |
| TableStorageClass.OpenTable | src/storage/table/table_storage.cpp:51-106 | opening fails exactly on an unreadable list, or, if the table has keys, a listed segment that is missing; otherwise it rebuilds the table from disk |
| AccessPath.UsableLiteralEncodesIff | src/planner/physical_plan/physical_planner.cpp:19-40 | the planner accepts every literal the encoder can convert, and beyond those exactly the integers on FLOAT keys, which the encoder throws on |
| AccessPath.MatchKeyLookup | src/planner/physical_plan/physical_planner.cpp:42-72 | a lookup is offered exactly when every key column is pinned by one usable equality and no second one |
| AccessPath.PlanScan | src/planner/physical_plan/physical_planner.cpp:74-184 | the primary key is used if it matches, else the first secondary key that does, and a scan exactly when none does; the residual is the predicates not looked up |
| AccessPath.LookupAndResidual | src/planner/physical_plan/physical_planner.cpp:42-90 | a row meets all predicates if and only if it has the looked-up key and meets the residual, for keys of any types that can hold the literals |
| IndexScanOperator.GroupBySegment | src/execution/scan/index_scan.cpp:40-58 | grouping by segment keeps every location and their order |
| IndexScanOperator.IndexScan.Next | src/execution/scan/index_scan.cpp:71-107 | a call returns a non-empty batch of what is left to deliver and leaves exactly the rest; it throws exactly when rows are left and no column is asked for |
| IndexScanOperator.Drain | src/execution/scan/index_scan.cpp:36-107 | reading to the end delivers the looked-up rows meeting the residual, once each |
| IndexEqualsScan.LookupIsScan | src/execution/scan/index_scan.cpp:36-107 | looked-up rows filtered by the residual are, as a multiset, the rows a scan with all predicates keeps |
| IndexEqualsScan.SecondaryPathIsScan | src/planner/physical_plan/physical_planner.cpp:157-184 | on every reachable table with nothing pending, the index path of a secondary key returns the rows of the sequential scan |
| IndexEqualsScan.PrimaryPathIsScan | src/planner/physical_plan/physical_planner.cpp:157-184 | the same for the primary key |
| IndexEqualsScan.RunIndexScan | src/execution/scan/index_scan.cpp:36-107 | the operator run on a lookup's locations delivers, up to order, the located rows that meet its conditions |
| QueryPaths.TableIsStore | src/storage/table/table_storage.cpp:376-430 | the segments a scan reads one after the other are the stored rows of the table |
| QueryPaths.Answer | src/planner/physical_plan/physical_planner.cpp:74-184 | planner, encoder, lookup, index scan and table scan together: whichever path is chosen, the rows delivered are up to order the stored rows that meet every condition; it throws only where no column is asked for, a condition cannot be bound or an integer is looked up on a FLOAT column |
| QueryPaths.AnswersInserts | src/storage/table/table_storage.cpp:51-430 | so after inserts and a flush, a query answers with the inserted rows that meet its conditions |
| OptimizerProofs.ConjunctsMean | src/planner/optimizer/optimizer.cpp:86-100 | flattening an AND tree keeps its short-circuit meaning on every row, errors included |
| OptimizerProofs.ConjunctionMeans | src/planner/optimizer/optimizer.cpp:102-115 | rebuilding a conjunction means all its parts in order |
| OptimizerProofs.PushableIff | src/planner/optimizer/optimizer.cpp:42-84 | what can be pushed is exactly a numeric column compared by =, > or < with a numeric literal to its right |
| OptimizerProofs.ExtractedMeans | src/planner/optimizer/optimizer.cpp:42-84 | a comparison that is pushed decides on a row as it did in the filter, and cannot throw |
| OptimizerProofs.PushPreserves | src/planner/optimizer/optimizer.cpp:152-222 | for every logical plan and contents, where the scan decides its conditions by exact comparison, a result the plan returns is the result after pushdown |
| OptimizerProofs.FilterPushSameIff | src/planner/optimizer/optimizer.cpp:152-222 | a filter whose conditions are pushed has the same outcome, errors included, if and only if it throws on no row or on some row that meets the pushed conditions |
| OptimizerProofs.PushSameIff | src/planner/optimizer/optimizer.cpp:152-222 | the plan after pushdown has the same outcome, errors included, if and only if it is not so that some row makes a filter throw, every such row fails a pushed condition, and nothing else throws |
| OptimizerProofs.OrderedPushSame | src/planner/optimizer/optimizer.cpp:152-222 | if in every filter no pushable conjunct follows one that can throw, pushdown changes neither result nor exception |
| OptimizerProofs.WellTypedFiltersSame | src/planner/optimizer/optimizer.cpp:152-222 | well-typed filters are so ordered, and neither the plan nor the pushed plan throws in them |
| OptimizerProofs.PushHidesAnError | src/planner/optimizer/optimizer.cpp:152-222 | one plan that throws and returns once pushed |
| OptimizerProofs.WellTypedNeverThrows | src/execution/expression/exec_expression.cpp:149-192 | evaluating a well-typed expression never throws |
| EvaluationMeaning.StringLessIff | src/execution/expression/exec_expression.cpp:116-139 | strings compare as in a dictionary: at the first difference, or where one ends |
| EvaluationMeaning.EvalCompares | src/execution/expression/exec_expression.cpp:116-182 | a comparison is by dictionary order on two strings and by size on two numbers, and throws exactly when an operand does or one of the two is a string |
| EvaluationMeaning.EvalAdds | src/execution/expression/exec_expression.cpp:66-192 | + and - give the sum and difference, cut towards zero for an integer type, and throw exactly when an operand does or is a string |
| EvaluationMeaning.EvalShortCircuits | src/execution/expression/exec_expression.cpp:146-158 | AND and OR look at the right operand exactly when the left one leaves it open; false, zero and the empty string count as false |
| PlanMeaning.ProjectionMeans | src/execution/projection/projection.cpp:74-140 | row k of a projection holds in column c what expression c stores for row k, and it throws exactly if one of those does |
| PlanMeaning.FilterMeans | src/execution/filter/filter.cpp:15-40 | a filter keeps, in order, exactly the rows on which its predicate is true, and throws exactly if the predicate does on one |
| FilterOperator.Filter.Next | src/execution/filter/filter.cpp:15-40 | the operator passes over batches of which nothing is kept; what it puts out, with what it passed over, is the plan's filter of the input, and it throws exactly when that does |
| PlanMeaning.BatchIsTuples | src/execution/projection/projection.cpp:50-212 | what the projection operator makes of a batch is the plan's projection of its active rows |
| StoredPlans.StoredPushSameIff | src/planner/optimizer/optimizer.cpp:152-222 | over stored segments, with zone maps and bound literals: where no segment holds a value a pushed condition misreads, pushdown keeps every result, and keeps the outcome if and only if it hides no error |
| StoredPlans.PushedAwayExactIff | src/planner/optimizer/optimizer.cpp:152-222 | a chain of filters pushed away entirely returns the same if and only if storage decides every row as the filters do |
| StoredPlans.OneFilterExactIff | src/planner/optimizer/optimizer.cpp:152-222 | pushing one comparison changes the result if and only if some segment holds a value that it misreads |
| StoredPlans.PushLosesARow | src/planner/optimizer/optimizer.cpp:152-222 | 2^53 + 1 is kept by the filter `x > 2^53` and skipped by the pushed scan |
| StoredPlans.PushFindsARow | src/planner/optimizer/optimizer.cpp:152-222 | a FLOAT column on which `f = 2^24 + 1` finds nothing in the filter and a row once pushed |
| OptimizerFixpoint.PushTwice | src/planner/optimizer/optimizer.cpp:152-222 | a second pushdown changes nothing |
| OptimizerFixpoint.PushMovesAll | src/planner/optimizer/optimizer.cpp:152-222 | pushdown leaves no filter on the scan with a comparison that can be pushed |
| OptimizerFixpoint.OptimisedIsFixed | src/planner/optimizer/optimizer.cpp:286-303 | on an optimised plan neither rule finds anything to do |
| OptimizerFixpoint.Optimize | src/planner/optimizer/optimizer.cpp:305-319 | the loop ends after at most two passes, so the cap of eight never cuts it short |
| OptimizerFixpoint.OptimisedIsCovered | src/planner/optimizer/optimizer.cpp:224-303 | after pruning the scan reads every referenced column, no other, in ascending order |
| OptimizerFixpoint.OptimisedMeansTheSame | src/planner/optimizer/optimizer.cpp:305-319 | where the scan decides by exact comparison, the optimised plan returns what the original returns |
| PlanExecution.ExecIsMeaning | src/planner/optimizer/optimizer.cpp:290-303 | executing any plan, projections and aggregates on top, on the pruned columns gives what the plan means on whole stored rows, errors included |
| PlanExecution.OptimisedExecutes | src/planner/optimizer/optimizer.cpp:286-319 | pushdown, pruning, zone maps, binding and compilation together: where no pushed condition misreads a stored value, executing the optimised plan returns what the query means over the table, and has the same outcome if and only if pushdown hides no error |
| VectorPredicates.CoercionIsExact | src/execution/expression/numeric_value.h:29-120 | a literal that converges to a column type is the same number in that type |
| VectorPredicates.CoercionIff | src/execution/expression/numeric_value.h:29-120 | a number converges to an integer type exactly if the type has it, and to DOUBLE whenever it is an int32, a double, or within 2^53 |
| VectorPredicates.CompareCompiles | src/execution/expression/vector_predicate_compiler.cpp:43-113 | a compiled comparison, operands swapped or literal converted, decides every typed row as row-wise evaluation, which then cannot throw |
| VectorPredicates.LogicalCompiles | src/execution/expression/vector_predicate_compiler.cpp:115-134 | AND and OR compile to their operands' predicates |
| VectorPredicates.EvaluateLogical | src/execution/expression/vector_predicate.cpp:111-146 | AND and OR over narrowed inputs set exactly the right bits and evaluate the right operand only where short-circuit evaluation would |
| VectorPredicates.Evaluate | src/execution/expression/vector_predicate.cpp:26-163 | bit i is set exactly when input bit i is and row i evaluates to true; it throws exactly when some input row's evaluation does |
| SelectionMasks.SelectionMask.ClearUnusedBits | src/simd/selection_mask.cpp:7-25 | bits at or above the row count are cleared and no other |
| SelectionMasks.SelectionMask.SetAll | src/simd/selection_mask.cpp:27-31 | exactly the rows below the count are set |
| SelectionMasks.SelectionMask.Intersect | src/simd/selection_mask.cpp:47-53 | And is set intersection, of a mask with itself too |
| SelectionMasks.SelectionMask.Union | src/simd/selection_mask.cpp:55-61 | Or is set union, of a mask with itself too |
| SelectionMasks.SelectionMask.Subtract | src/simd/selection_mask.cpp:63-68 | AndNot is set difference, of a mask with itself too |
| SelectionMasks.SelectionMask.IsAll | src/simd/selection_mask.cpp:79-98 | IsAll says whether every row is set, word by word with a short last word |
| SelectionMasks.SelectionMask.Count | src/simd/selection_mask.cpp:100-107 | Count is the number of set rows |
| SelectionMasks.SelectionMask.ToSelectionVector | src/simd/selection_mask.h:54-64 | ForEachSetBit visits exactly the set rows, ascending |
| SelectionMasks.RowsDenote | src/simd/selection_mask.h:54-64 | the walk over the words lists exactly the rows whose bit is set, ascending |
| SelectionCursors.SelectionCursor.Next | src/simd/selection_mask.cpp:137-146 | Next returns the walk's next row, and false exactly at its end |
| SelectionCursors.SelectionCursor.NextBlock | src/simd/selection_mask.cpp:148-156 | a block is the next rows of the walk, short only at its end, whatever capacities came before |
| SelectionCursors.GatherScalar | src/simd/scalar/gather_scalar.cpp:10-16 | the reference gather picks the set rows in order |
| SelectionCursors.GatherBlocks | src/simd/avx2/gather_avx2.cpp:36-59 | the eight-wide gather picks the same rows for every mask |
| CompareKernels.BlockWordBit | src/simd/avx2/compare_avx2.cpp:71-84 | bit k of a packed 64-row block is lane k mod n of vector mask k / n, for 8 and 4 lanes |
| CompareKernels.NoStraddle | src/simd/avx2/compare_avx2.cpp:183-211 | a partial vector write never straddles two words |
| CompareKernels.CompareScalar | src/simd/scalar/compare_scalar.cpp:8-27 | the reference kernel's mask has a bit exactly where the comparison holds, and none at or above the count |
| CompareKernels.CompareBlocks | src/simd/avx2/compare_avx2.cpp:330-491 | blocks, vector remainder and scalar tail together write that same mask |
| CompareKernels.KernelsAgree | src/simd/avx2/compare_avx2.cpp:330-491 | the scalar and the vector kernel leave the same words and row count |
| Projection.KernelIsExactIff | src/simd/arithmetic_kernel.h:24-35 | a fixed-width sum or difference is the row-wise one if and only if it fits the type |
| Projection.VectorCompiles | src/execution/expression/vector_expression_compiler.cpp:16-86 | a compiled column expression throws where row-wise evaluation does, and otherwise gives its stored value |
| Projection.ProjectionsAgree | src/execution/projection/projection.cpp:50-212 | two projections of one batch, sparse view or dense, have the same sequence of active rows |
| ProjectionOperators.EvaluateVector | src/execution/expression/vector_expression.cpp:23-86 | over gathered columns the whole-column evaluation is the row-wise one on the active rows, in values and in throwing |
| ProjectionOperators.ProjectionOperator.Init | src/execution/projection/projection.cpp:12-48 | every output is planned, and every slot a compiled expression reads is collected |
| ProjectionOperators.ProjectionOperator.ProduceViewProjection | src/execution/projection/projection.cpp:74-92 | zero-copy columns under the input's own selection are the projection |
| ProjectionOperators.ProjectionOperator.ProduceDenseProjection | src/execution/projection/projection.cpp:94-140 | on a dense batch the output is the row-wise projection, and it throws exactly when that would |
| ProjectionOperators.ProjectionOperator.BuildGatheredInput | src/execution/projection/projection.cpp:214-258 | every slot read holds the active rows of its input column, shared with a direct output or gathered anew |
| ProjectionOperators.ProjectionOperator.ProduceSparseProjection | src/execution/projection/projection.cpp:142-212 | on a sparse batch the dense output is the row-wise projection of the active rows, buffers shared or not, and it throws exactly when that would |
| ProjectionOperators.ProjectionOperator.Next | src/execution/projection/projection.cpp:50-70 | batches without active rows are passed over and the first other one is projected |
| SqlLexer.Lexer.NextToken | src/sql/lexer/lexer.cpp:21-107 | the cursor loop reads the token the grammar of tokens says comes next, and gets stuck exactly where that is stuck |
| SqlLexer.Lexer.Tokenize | src/sql/lexer/lexer.cpp:109-122 | tokenizing gives the text's token sequence, or never returns |
| SqlTokens.RenderedIsRead | src/sql/lexer/lexer.cpp:21-122 | tokens of every kind, written out with spaces between them, are read back as themselves |
| SqlParser.Parser.ParseExpression | src/sql/parser/parser.cpp:258-330 | the recursive descent accepts and builds exactly what the layered grammar says, and stops at the same token |
| SqlParser.Parser.ParsePrimaryExpression | src/sql/parser/parser.cpp:330-403 | literals, names, calls and parentheses parse as the grammar says, with the same refusals |
| SqlGrammar.ParsesIff | src/sql/parser/parser.cpp:258-403 | a text is accepted if and only if its tokens are a phrase of the grammar, and the tree is that phrase's: OR over AND over comparisons and arithmetic, each layer grouping to the left, over literals, names, calls and parentheses |
| SqlGrammar.Unambiguous | src/sql/parser/parser.cpp:258-403 | no text stands for two expressions |
| SqlGrouping.GroupsAsWritten | src/sql/parser/parser.cpp:258-330 | an expression printed without the parentheses that its grouping makes redundant is read back as itself |
| SqlRoundTrip.LexPrinted | src/sql/ast/expression.h:32-99 | the printed form of an expression lexes to the expression's tokens |
| SqlRoundTrip.ParsePrinted | src/sql/parser/parser.cpp:258-403 | those tokens parse back to the expression, whatever may follow an operand |
| SqlRoundTrip.RoundTrip | src/sql/ast/expression.h:32-99 | printing, lexing and parsing a printable expression gives the same tree |
| SqlPrintable.ParsedIsPrintable | src/sql/parser/parser.cpp:258-403 | whatever text parses, its tree is printable |
| SqlPrintable.RoundTripIff | src/sql/ast/expression.h:32-99 | the round trip holds if and only if names are identifiers, integers are non-negative int32, strings hold no quote and `*` stands only in COUNT |
| SqlPrintable.ParsedIsFixed | src/sql/parser/parser.cpp:258-403 | a parsed expression is a fixed point of printing and parsing |
| SqlTermination.NeverReturnsIff | src/sql/lexer/lexer.cpp:21-122 | tokenizing a text never returns if and only if two dashes stand outside a string before the first `!` that no `=` follows |
| SegmentFiles.BinaryWriter.WriteUInt | src/storage/serialization.h:36-47 | an integer is appended low byte first |
| SegmentFiles.BinaryReader.ReadInteger | src/storage/serialization.h:137-160 | a read takes exactly its bytes off the front, or throws and takes none when they are not there |
| SegmentFiles.ReadBack | src/storage/serialization.h:36-160 | an integer that fits its width reads back, whatever follows |
| SegmentFiles.ReadChunkBack | src/storage/datastructs.h:319-341 | column metadata survives Serialize and Deserialize |
| SegmentFiles.Deserialize | src/storage/datastructs.h:363-375 | reading a header consumes and yields what the format says, or throws |
| SegmentFiles.ReadMetaBack | src/storage/datastructs.h:353-375 | segment metadata survives Serialize and Deserialize, whatever follows it in the file |
| SegmentFiles.CutHeaderIsRefused | src/storage/segment/segment.cpp:32-41 | a header is read if and only if all of it is there |
| SegmentFiles.HeaderFields | src/storage/datastructs.h:353-375 | id, row count, path and column entries stand at these offsets of the header, low byte first |
| SegmentFiles.ChunkFields | src/storage/datastructs.h:319-341 | and id, type, offset, flag and extremes at these of a column's entry |
| SegmentLayout.SegmentBuilder.Append | src/storage/segment/segment.cpp:323-341 | every column grows by the batch's bytes and the row count by its rows |
| SegmentLayout.SegmentBuilder.Flush | src/storage/segment/segment.cpp:346-403 | the file is the header with back-filled offsets and then the columns, and the check of the header's size never fails |
| SegmentLayout.RegionsAreDisjoint | src/storage/segment/segment.cpp:370-379 | column regions follow the header in order, without overlap and inside the file |
| SegmentLayout.OpenSegment | src/storage/segment/segment.cpp:24-61 | a file opens exactly when its header can be read and carries the id asked for |
| SegmentLayout.FlushedOpens | src/storage/segment/segment.cpp:24-61 | what Flush wrote reopens to the metadata it wrote, under its own id only |
| SegmentLayout.CutFileOpensIff | src/storage/segment/segment.cpp:24-61 | a file cut short opens if and only if its header is whole, whatever columns are missing |
| SegmentLayout.GetVectorBatch | src/storage/segment/segment.cpp:212-264 | the batch at an offset is those rows of every column asked for, all of them when none is named |
| SegmentLayout.FlushedReadsBack | src/storage/segment/segment.cpp:212-264 | any rows of any column of a reopened segment are the bytes that were appended there |
| SegmentLayout.BatchesCoverColumn | src/storage/segment/segment.cpp:212-264 | reading batch after batch gives the whole column, nothing lost or repeated |
| SegmentLayout.GatherRows | src/storage/segment/segment.cpp:266-305 | gathering listed rows gives their cells in that order and is refused as a whole when one is past the end |
| SegmentLayout.GatherIsRead | src/storage/segment/segment.cpp:212-305 | gathering consecutive rows is the batch read of those rows |
| SegmentValues.CellBack | src/type.h:64-86 | a cell reads back as it was written, strings through their slots |
| SegmentValues.SegmentGivesRows | src/storage/segment/segment.cpp:212-264 | a segment written from rows, reopened and read at any offset, gives those rows' values of any column |
| BlockPools.AlignUpIsLeast | src/memory/block_pool/block_pool.cpp:12-14 | for a power of two the bit trick gives the least multiple not below the value |
| BlockPools.AcquireKeeps | src/memory/block_pool/block_pool.cpp:30-46 | an acquired block is big enough, held by nobody else, and comes from the system exactly when it is large or nothing is cached |
| BlockPools.ReleaseKeeps | src/memory/block_pool/block_pool.cpp:48-75 | a released block is cached within the limit or freed, and never both free and held |
| BlockPools.RunsAreSound | src/memory/block_pool/block_pool.cpp:30-121 | over every run, allocations less deallocations are the held and cached blocks, cached at most the limit, no block in two places |
| BlockPools.NothingLeaks | src/memory/block_pool/block_pool.cpp:22-121 | once everything was returned, all that is not freed is cached |
| BlockPools.BlockPool.Acquire | src/memory/block_pool/block_pool.cpp:30-46 | the pool object hands out what the law says and never re-issues a held block |
| BlockPools.BlockPool.Destroy | src/memory/block_pool/block_pool.cpp:22-28 | destruction frees every cached block, leaving only those still held |
| Arenas.BumpIsDisjoint | src/memory/arena/arena.cpp:18-37 | bumping a block hands out a range that meets none handed out before |
| Arenas.AlignmentHoldsIff | src/memory/arena/arena.cpp:14-37 | aligned offsets are aligned addresses in every 64-byte aligned block if and only if the alignment is at most 64 |
| Arenas.Arena.Allocate | src/memory/arena/arena.cpp:18-69 | the range returned has the size and alignment asked for, lies in a held block and is disjoint from all others since the last Reset; no block is acquired while one from the current on has room |
| Arenas.Arena.Reset | src/memory/arena/arena.cpp:71-77 | every block is kept and empty again, and nothing counts as handed out |
| Arenas.Arena.Release | src/memory/arena/arena.cpp:79-85 | exactly the arena's own blocks go back to the pool |
| BufferPools.ClassFor | src/memory/buffer_pool/buffer_pool.cpp:84-104 | the class chosen is the smallest that can hold the request |
| BufferPools.AcquireKeeps | src/memory/buffer_pool/buffer_pool.cpp:75-110 | a buffer handed out is big enough, of the capacity its handle claims, and owned by nobody else; DIRECT mode never touches the lists |
| BufferPools.ReleaseKeeps | src/memory/buffer_pool/buffer_pool.cpp:112-138 | a returned buffer is cached in its class while there is room, and otherwise freed |
| BufferPools.OneOwner | src/memory/buffer_pool/buffer_pool.cpp:12-51 | no two handles own one buffer, and no handle owns a cached one |
| BufferPools.RunsKeepOwnership | src/memory/buffer_pool/buffer_pool.cpp:12-138 | after every run of acquires, moves and resets owners are apart, capacities true, and allocations less deallocations are what is owned and cached |
| BufferPools.BufferPool.Acquire | src/memory/buffer_pool/buffer_pool.cpp:75-110 | the pool object's loop over the classes acquires as that law says |

## Left out

- Files, mmap and directories: a file is a byte sequence, a segment write and SaveMeta are outcomes; the name-to-id
  parse of a segment file and the table metadata file are not modelled.
- Thread pool, mutexes, condition variables and C++ memory order: each queue operation, claim and counter update is
  one atomic step, and a submitted task runs once.
- A result consumer that throws: its callback is taken to return.
- ParallelQueryTheorems.ReturnedIsComplete: a worker's output on a segment is a given sequence of batches that may end
  in a failure; ParallelTableScan says what it is for a table scan, filters and projections above it are not composed.
- NaN, signed zero, IEEE rounding of sums and `long double`: reals are exact; SUM is exact. A key of -0.0 has other
  bytes than 0.0, which the model cannot tell apart.
- Overflow of integer SUM and of row-wise arithmetic; whole-column arithmetic wraps in the model and its exactness
  carries the range condition.
- TableStorageClass.TableStorage.Append: holds the index entries as values where the source owns index objects, which
  KeyIndexes models one by one.
- TableProofs.AppendKeeps: requires an append that slices right; what one that does not stores is the other half of
  TableState.AppendCopiesIff.
- The rebuild on open reads a segment's rows at once where the source reads it in batches of 1024.
- IndexEqualsScan.SecondaryPathIsScan: takes the table's key function to be the encoder on the key's columns, and the
  conditions to be numeric, the only ones the optimizer pushes, with literals a FLOAT key column can hold.
- A segment that cannot be opened during a scan, and calling Scan again after it has returned false.
- OptimizerProofs.PushPreserves: the scan of a logical plan compares exactly there; StoredPlans has the same plans over
  segments with zone maps and bound literals.
- PlanExecution.OptimisedExecutes: requires that no stored value is misread; for plans where one is, the exact condition
  is proved for filters that are pushed away entirely, as what stays above may hide the difference.
- PlanExecution.ExecIsMeaning: group-by evaluation is a given function of the groups' inputs; GroupTables and
  HashAggregate are about that function.
- VectorPredicates.Evaluate: masks are values there, not updated in place; references to missing columns, which the
  binder never makes, are excluded: a kernel selects no row for one where row-wise evaluation throws.
- SIMD intrinsics: each is its definition lane by lane.
- SqlPrintable.RoundTripIff: leaves out floating literals, whose digits `std::to_string` decides; token positions and
  statements are not modelled.
- SegmentLayout.SegmentBuilder.Flush: column statistics are bit patterns given to Append; the values they stand for
  are in ZoneMaps. SegmentValues.SegmentGivesRows gives the cells their values.
- SegmentLayout.GetVectorBatch: requires the regions to lie in the file and the columns to exist, which the source
  relies on without checking.
- Arenas.Arena.Allocate: sizes are unbounded, so the wrap-around of size plus alignment is not modelled; nor is the
  zeroing of memory on Reset.
- ProjectionOperators.ProjectionOperator.Next: buffers are values, so sharing is equality of contents and not aliasing.
- Hash functions and bucket order: a table is a map listed in an arbitrary order.
- Binder, catalog, DDL, INSERT, EXPLAIN, REPL, CLI and benchmarks: easy members or no state worth proving.
