# Verified model of the benchmark engine

The repository is a storage benchmark. Workers issue timed requests, a collector
gathers them, and an analysis cuts the run into time segments and adds up what
each moved. Mixed and versioned benchmarks draw from a shared pool of objects on
a cyclic schedule. A server can drive several clients through the stages of one
benchmark and merge their results. This project models those parts in Dafny and
proves properties of them for all inputs, all reachable states or all runs.

Instants are integer nanoseconds (0 is Go's zero `time.Time`). `float64` is `real`,
but where rounding decides, in the share of a split operation, it is IEEE 754
double precision (IEEE 754-2008, section 4.3.1). The order of a Go map and every
random choice are arbitrary, and steps under one lock are atomic. A Go panic is an
outcome of the model, not a precondition.

| file | contents |
|---|---|
| `Basics.dfy`, `Arithmetic.dfy` | instants, 64-bit wrap-around, extremes of finite sets, facts about quotients |
| `Float64.dfy` | rounding to 53 bits, floating-point products and quotients |
| `Operations.dfy` | operations, filtering, counting, sorting in place |
| `ActiveRange.dfy` | the active stretch of a run, and what it means |
| `Aggregate.dfy` | one operation added to one segment, in place |
| `Segmentation.dfy` | the loops of `Segment`, the windows they visit |
| `FastForm.dfy` | prefix skip and early exit against a plain fold |
| `Conservation.dfy` | bytes, objects, starts, ends and errors over contiguous segments |
| `WindowCounts.dfy` | the counters of a segment, and of a whole run, from times, types and error texts |
| `Totals.dfy` | `Total` and overlapping operation types |
| `AutoTerm.dfy` | the stability check that ends a benchmark |
| `Merge.dfy` | thread offsets and the active range of merged clients |
| `Collector.dfy` | channel, drainer and snapshots |
| `Schedule.dfy` | generating the cyclic schedule, the mixed pool's operations |
| `MixedPool.dfy`, `VersionedPool.dfy` | workers over the pools as transition systems |
| `StageProtocol.dfy` | server, clients, lost and resent requests |
| `StageRuns.dfy` | what single requests bring about, and a complete run |
| `CsvText.dfy`, `CsvFile.dfy`, `CsvRoundTrip.dfy` | quoting, reader, writer, loader, round trip |
| `CsvAnalysis.dfy` | loading with clients and files renamed |
| `Circular.dfy` | the circular reader |
| `HostSelect.dfy` | host selection |

## Where the code does less than it says

Each of these is proved, with the exact condition beside it.

- Splitting an operation's bytes panics exactly when bytes times nanoseconds is
  2^63 to 2^63 + 1024, for sizes below 2^52 bytes and durations below 2^53 ns: the
  integer product wraps, while the floating-point one is rounded to 2^63 and so does
  not exceed the largest 64-bit integer, which is 2^63 in floating point
  (`Aggregate.PanicsIff`, `Aggregate.HalfOfTwoGiBPanics`, `Aggregate.OneMorePanics`).
- The prefix skip changes a segment exactly when a skipped operation of its type ends
  on its start, and loses bytes exactly when such an operation has no duration,
  succeeded and moved some (`FastForm.FastRefinesPlain`, `FastForm.InstantOperationsLoseBytes`).
- A failed operation adds bytes to every segment it spans, and to no other
  (`Conservation.FailedOperationsCountWhenSpanning`).
- The average request time of a segment divides the time of its successes by a number
  that includes late failures, so it is their mean exactly when no operation fails in
  the window after starting before it (`WindowCounts.AverageIsMeanIff`).
- Automatic termination of mixed and versioned benchmarks asks for all types, but then
  examines only operations of the type of the first one (`AutoTerm.OneTypeIsExamined`).
- `Total` indexes an empty list when the active range is a single nanosecond
  (`Totals.TotalIsOneSegment`).
- Two operation types with the same first start and last end overlap but are not
  reported as mixed (`Totals.MixedIff`).
- A client without operations resets the thread offset. Clients whose workers are
  numbered from 0 keep thread ids of their own exactly when none without operations
  comes between two that have some (`Merge.EmptyClientResetsOffset`, `Merge.KeptApartIff`).
- Preparing more objects than workers does not keep the pool from running out
  (`MixedPool.PreparationCheckIsNotEnough`). It can run out exactly when at some point
  of the schedule the lead of deletions plus the operations the other workers can be
  busy with reaches the initial pool (`MixedPool.RunsDryIff`), which one cycle per
  worker decides (`MixedPool.DryWithinOneCyclePerWorker`).
- A connection lost while operations are downloaded ends the server: the missing reply
  is read for its error (`StageRuns.FailureIsFatalIff`).
- Endpoints and errors with a CR LF pair do not survive a file
  (`CsvRoundTrip.RoundTripIff`).
- Loading for analysis only renames clients to one byte each, so they are told apart
  exactly when there are no more than 256 (`CsvAnalysis.ClientsStayDistinctIff`).
- A Seek to before the start reports an error but keeps the negative position: later
  reads deliver as many bytes more than wanted, or panic when the remainder exceeds 63
  bits (`Circular.CircularBuffer.Seek`, `Circular.ReadAfterSeekBeforeStart`).
- The random offset meant to vary the first host has no effect
  (`HostSelect.FirstChoiceIsHostZero`).

## Model

| member | source | states |
|---|---|---|
| `Operations.SortByStartTime` | pkg/bench/ops.go:296-305 | in place: sorted by start, a permutation, untouched if already sorted; nothing about ties |
| `Operations.FilterByOp` | pkg/bench/ops.go:391-399 | the operations of one type in order, all of them for the empty type |
| `Operations.OfTypeIsExact` | pkg/bench/ops.go:391-399 | what is selected are exactly the operations of the type, each as often as it was recorded |
| `ActiveRange.ActiveTimeRange` | pkg/bench/ops.go:751-814 | both branches compute the active range defined from each thread's first end and last start, or from the boundaries of single operations |
| `ActiveRange.WidestWindow` | pkg/bench/ops.go:783-813 | the all-threads range contains every window before which each thread has ended an operation and after which each starts one, and is such a window exactly when one exists; it begins when the last thread has ended one, and is empty there if there is no window |
| `ActiveRange.OrderDoesNotMatter` | pkg/bench/ops.go:783-813 | the all-threads range is the same for every permutation of the operations |
| `ActiveRange.AnyRangeDiscardsBoundaries` | pkg/bench/ops.go:755-781 | on sorted operations only those that start first of all start before the range, and those that end after it end no earlier than any start |
| `ActiveRange.AnyRangeStart` | pkg/bench/ops.go:755-781 | on sorted operations the other range begins at the first start after the first operation's, or at the larger of the last start and the first operation's end if none is earlier |
| `ActiveRange.AnyRangeEnd` | pkg/bench/ops.go:755-781 | it ends at the last end before that bound; it is empty exactly when no operation ends between its start and the bound |
| `Aggregate.PartSizeIsShare` | pkg/bench/ops.go:269-275 | for products below 2^63 integer quotient and overflow test together give the exact rounded-down share, whatever rounding does to the factors |
| `Aggregate.CheckFailsIff` | pkg/bench/ops.go:269-280 | the computed share is negative or too large exactly for products of 2^63 to 2^63+1024; everywhere else it is within one byte of the exact one and at most the size |
| `Aggregate.PanicsIff` | pkg/bench/ops.go:277-280 | adding an operation panics exactly for a split share with such a product or for a negative size |
| `Aggregate.HalfOfTwoGiBPanics` | pkg/bench/ops.go:269-280 | a concrete operation and segment that fail the check |
| `Aggregate.OneMorePanics` | pkg/bench/ops.go:269-280 | another one, whose product is 2^63+1 and rounds down |
| `Aggregate.SmallOpsDoNotPanic` | pkg/bench/ops.go:269-280 | below 2^63 byte-nanoseconds no segment fails the check |
| `Aggregate.SegmentRef.Aggregate` | pkg/bench/ops.go:211-284 | the whole new segment: each total grows by its line of `Add`; done exactly when the operation starts at or after the window's end; panics exactly when the check fails |
| `WindowCounts.FullAndPartial` | pkg/bench/ops.go:226-258 | full and partial operations and the failures inside a window make up the operations that meet it |
| `WindowCounts.AverageIs` | pkg/bench/analyze.go:205-207 | the average request time is that of the successes ended in the window over the number of those and of late failures |
| `WindowCounts.AverageIsMeanIff` | pkg/bench/ops.go:231-256 | that is the mean of the successes exactly when there are no late failures, or no time was spent |
| `WindowCounts.SegmentCounts` | pkg/bench/analyze.go:174-209 | a segment of a run holds as full exactly the successes that begin and end in its window; partial ones are those that cross its borders, when no operation ends on a window's start |
| `WindowCounts.SegmentLabels` | pkg/bench/analyze.go:174-210 | times, type and endpoint of the k-th segment |
| `Segmentation.FindFirst` | pkg/bench/analyze.go:193-199 | the last entry of the leading run of operations ended by the segment's start |
| `Segmentation.FillSegment` | pkg/bench/analyze.go:192-207 | skip and early exit together give the fold over everything from the first entry on, or a panic exactly when that fold panics |
| `Segmentation.Segments` | pkg/bench/analyze.go:159-212 | the operations get sorted; the result is one segment for each window, or a panic that some window causes |
| `Segmentation.SegmentsFrom` | pkg/bench/analyze.go:174-211 | the loop stops after exactly (end-1-from)/d windows, in order |
| `Segmentation.CountIff` | pkg/bench/analyze.go:174-174 | a window's start passes the loop guard exactly when its index is below that count |
| `Segmentation.WindowsTile` | pkg/bench/analyze.go:170-210 | windows join without gap, and a window ends strictly before the active end exactly when it is among those counted |
| `Segmentation.SmallRunsDoNotPanic` | pkg/bench/analyze.go:159-212 | no segment of a run panics when every operation stays below 2^63 byte-nanoseconds |
| `FastForm.PlainIsFastPlusSkipped` | pkg/bench/analyze.go:192-204 | both forms panic together; otherwise the plain fold is the fast one plus what skipped operations add that ended on the window's start, in full for those without duration |
| `FastForm.FastRefinesPlain` | pkg/bench/analyze.go:192-204 | the segments agree exactly when no skipped operation touches the window, their bytes exactly when none without duration that succeeded brings any |
| `FastForm.FastKeepsSizes` | pkg/bench/analyze.go:192-204 | without skipped operations of no duration bytes, objects, full and started operations always agree, and ended, partial and failed ones differ by those that touch |
| `FastForm.SkippedTouchesAtStart` | pkg/bench/analyze.go:193-199 | a skipped operation touches the window exactly when it is of its type and ends on its start |
| `FastForm.InstantOperationsLoseBytes` | pkg/bench/analyze.go:193-199 | two successful operations without duration on the segment's start for which the bytes differ |
| `Conservation.SharesAreProportional` | pkg/bench/ops.go:226-282 | in every window any operation adds its size times the time it is credited with over its duration, rounded down; off by at most a byte when the product exceeds 63 bits |
| `Conservation.CreditedTimeIs` | pkg/bench/ops.go:226-258 | a window credits a success with all its time inside, a failure with the whole window when it runs right through, and otherwise nothing |
| `Conservation.FailedOperationsCountWhenSpanning` | pkg/bench/ops.go:241-282 | a failed operation adds its share of bytes and objects to the windows it spans and nothing to others |
| `Conservation.BytesConserved` | pkg/bench/ops.go:259-282 | over n windows the bytes of any operation add up to the share of its credited time, short by less than one byte for each window that credits it; one more either way for each share beyond 63 bits |
| `Conservation.TimeOfSuccess` | pkg/bench/ops.go:259-268 | a success is credited with exactly its time in the tiled stretch |
| `Conservation.TimeOfFailure` | pkg/bench/ops.go:241-258 | a failure is credited with exactly the windows it spans |
| `Conservation.ObjectsConserved` | pkg/bench/ops.go:281-281 | over n windows the object shares of any operation add up exactly to the share of its credited time |
| `Conservation.BytesAtMost` | pkg/bench/ops.go:259-282 | all windows together hold no more of an operation than its size |
| `Conservation.BytesOfContained` | pkg/bench/ops.go:226-240 | an operation inside one window adds exactly its size over all windows |
| `Conservation.BytesOfCovered` | pkg/bench/ops.go:259-282 | a success inside the tiled stretch adds at most its size and loses less than one byte for each window that credits it |
| `Conservation.ErrorCountedOnce` | pkg/bench/ops.go:226-256 | a failure is counted once, in the window that holds its end |
| `Conservation.StartAndEndCountedOnce` | pkg/bench/ops.go:231-252 | a start and an end are each counted once, where they happen, except for an operation that fails in the window it starts in |
| `Conservation.FullCountedOnce` | pkg/bench/ops.go:235-240 | over n windows a success is full exactly once if it begins and ends in the same window, and never otherwise; a failure never is |
| `Conservation.ExchangeSums` | pkg/bench/analyze.go:174-210 | adding up per window and per operation is the same |
| `Conservation.SegmentsConserveBytes` | pkg/bench/analyze.go:174-211 | the segments of any run, failures and other types included, hold the exact bytes of the credited time, short by less than one for each share, off by one more for each share beyond 63 bits |
| `Conservation.SegmentsHoldNoMore` | pkg/bench/analyze.go:174-211 | they hold no more bytes than the run's operations moved |
| `Conservation.SegmentsCountErrorsOnce` | pkg/bench/analyze.go:200-204 | the errors of all segments are the failures of the type that end in the tiled stretch, when no operation ends on a segment's start |
| `Conservation.SegmentsCountStartsAndEndsOnce` | pkg/bench/analyze.go:200-204 | started, ended and full operations of all segments are those of the type that start or end in the tiled stretch without failing in the window they start in, and the successes that begin and end in one window; for ends, when no operation ends on a segment's start |
| `Conservation.SegmentsOfRun` | pkg/bench/analyze.go:159-212 | the segments that `Segments` returns for any run hold the bytes, starts, ends, failures and full operations of every type with `MultiOp`, and of the first operation's type without |
| `Conservation.FirstBlankIs` | pkg/bench/analyze.go:164-191 | the first window begins at the later of the active start and the requested one; with `MultiOp` it takes operations of every type, otherwise those of the first type |
| `Conservation.HostIs` | pkg/bench/analyze.go:170-173 | the endpoint is reported exactly when all operations share it |
| `Totals.TimeRange` | pkg/bench/ops.go:730-745 | first start and last end |
| `Totals.RangeIsExact` | pkg/bench/ops.go:730-745 | no operation starts before or ends after the range, and some operation does at each bound |
| `Totals.OpTypes` | pkg/bench/ops.go:429-444 | the types in order of appearance, or the same types in alphabetical order when they overlap |
| `Totals.TypesOfIsExact` | pkg/bench/ops.go:431-439 | the list holds the type of every operation, each once |
| `Totals.IsMixed` | pkg/bench/ops.go:477-500 | true exactly when the comparison holds for some ordered pair of types |
| `Totals.MixedIff` | pkg/bench/ops.go:477-500 | that is exactly when two types' ranges begin inside one another, or begin together and end apart |
| `Totals.Total` | pkg/bench/analyze.go:82-93 | the zero segment on an empty active range, otherwise the first segment of the sorted run, or a panic when there is none |
| `Totals.TotalIsOneSegment` | pkg/bench/analyze.go:87-92 | two or more active nanoseconds give exactly one segment, ending one before the active end; a single one gives none |
| `WindowCounts.TotalOfRun` | pkg/bench/analyze.go:82-93 | the total covers the active range but its last nanosecond and holds the bytes, starts, ends, failures and full operations of every type when types overlap, of the first type otherwise |
| `AutoTerm.CheckSegments` | pkg/bench/ops.go:118-149 | on segments of the same length true exactly when there are enough and each examined one differs from the last by no more than the threshold times the last, in bytes if the last moved some, otherwise in objects; panics exactly when asked for a single sample |
| `AutoTerm.CheckStable` | pkg/bench/ops.go:103-149 | one check ends the run exactly when the active range exceeds the truncated 64-bit product over the samples and its segments, for some order of equal starts, are that close; panics only for a single sample or in a segment |
| `AutoTerm.StableIff` | pkg/bench/ops.go:126-137 | comparing speeds per second is comparing the segments' bytes or objects |
| `AutoTerm.LongEnoughIff` | pkg/bench/ops.go:113-117 | the samples times the active range must exceed the duration times the number of pieces, when the product fits in 64 bits |
| `AutoTerm.OneTypeIsExamined` | pkg/bench/ops.go:118-122 | a check on all types counts operations of the first type only |
| `AutoTerm.ExaminedStretch` | pkg/bench/ops.go:84-124 | segments of at least a nanosecond are at least splitInto-1, so the slice is in bounds, and the examined stretch exceeds minDur less one nanosecond per sample, when minDur times splitInto fits in 64 bits |
| `Merge.OffsetThreads` | pkg/bench/ops.go:832-845 | in place: every id moved with 16-bit wrap-around; returns the next id, 0 for an empty list |
| `Merge.MergeDownloads` | cli/benchserver.go:179-190 | the downloaded lists in order, each offset by the result of the one before |
| `Merge.MergedIsExact` | cli/benchserver.go:179-190 | the merged list holds the operations of all downloads, each list offset by its own offset, and no other; lengths add up |
| `Merge.NextThreadIs` | pkg/bench/ops.go:836-844 | the next offset is one past the largest moved id |
| `Merge.ClientsKeptApart` | cli/benchserver.go:185-189 | clients that all have operations get disjoint thread ids when all ids fit |
| `Merge.ActiveOfDisjoint` | pkg/bench/ops.go:783-813 | runs on different threads are together active from the later start to the earlier end |
| `Merge.ActiveOfOffset` | pkg/bench/ops.go:832-845 | offsetting thread ids does not move the active range |
| `Merge.MergingIntersectsWindows` | cli/benchserver.go:185-189 | the merged run is active from the latest of the clients' starts to the earliest of their ends, if later |
| `Merge.DownloadOrderDoesNotMatter` | cli/benchserver.go:423-453 | any order of the downloads gives the same merged range |
| `Merge.EmptyClientResetsOffset` | pkg/bench/ops.go:833-835 | the client after one without operations starts at offset 0 again, wherever that happens |
| `Merge.KeptApartIff` | cli/benchserver.go:185-189 | clients numbering their workers from 0 are pairwise disjoint exactly when none without operations comes between two that have some |
| `Collector.Collector.Send` | pkg/bench/ops.go:155-157 | an operation joins the channel and its worker's sequence, or has to wait exactly when the channel is full |
| `Collector.Collector.Receive` | pkg/bench/ops.go:70-74 | the channel's head moves to the end of the list |
| `Collector.Collector.Snapshot` | pkg/bench/ops.go:104-107 | the list filtered by type, recorded with the prefix it came from |
| `Collector.Collector.Close` | pkg/bench/ops.go:159-163 | the final list interleaves exactly what the workers sent, and every inspected list filters one of its prefixes |
| `Collector.InterleavingKeepsEverything` | pkg/bench/ops.go:62-76 | an interleaving holds the operations of the workers' sequences and no other |
| `Schedule.MixedDistribution.Generate` | pkg/bench/mixed.go:60-84 | the errors in their order, or a cycle with each operation's rounded share and normalized weights |
| `Schedule.MixedDistribution.Normalize` | pkg/bench/mixed.go:94-109 | every weight divided by the sum, or an error for a negative weight or a zero sum and nothing changed |
| `Schedule.MixedDistribution.Shuffle` | pkg/bench/mixed.go:80-82 | any order of the same operations |
| `Schedule.MixedDistribution.GetOp` | pkg/bench/mixed.go:143-149 | the current operation; the position moves on cyclically |
| `Schedule.MixedDistribution.RandomObj` | pkg/bench/mixed.go:111-135 | takes one arbitrary object out of the pool; fails exactly on an empty pool |
| `Schedule.MixedDistribution.Return` | pkg/bench/mixed.go:117-121 | puts it back under its key |
| `Schedule.MixedDistribution.AddObj` | pkg/bench/mixed.go:137-141 | adds an object under its name |
| `Schedule.CountIsNearShare` | pkg/bench/mixed.go:74-74 | each count is within one half of 1000 times the weight's share |
| `Schedule.CycleLength` | pkg/bench/mixed.go:71-78 | the cycle's length is within half the number of kinds of 1000, and positive for fewer than 2000 kinds |
| `Schedule.CyclePutsCoverDeletes` | pkg/bench/mixed.go:61-63 | the initial check on weights carries over to the rounded counts |
| `Schedule.WindowIsRotation` | pkg/bench/mixed.go:143-149 | any cycle-long stretch of fetched operations holds each exactly as often as the cycle |
| `Schedule.FetchMany` | pkg/bench/mixed.go:143-149 | consecutive calls return the cyclic window, and a cycle's length of them every operation as often as the cycle, from any position |
| `Schedule.OneCycleBoundsAll` | pkg/bench/mixed.go:143-149 | deletions never lead by more in an unbounded run than within the first cycle |
| `Schedule.MaxExcessReached` | pkg/bench/mixed.go:143-149 | that bound is reached at some point of the cycle |
| `MixedPool.BalancedStep` | pkg/bench/mixed.go:251-373 | every step keeps pool, outstanding work and schedule in balance |
| `MixedPool.ObjectsAreExclusive` | pkg/bench/mixed.go:111-141 | no object is in two hands, or in one and in the pool, in any run |
| `MixedPool.FailedUploadsAreLost` | pkg/bench/mixed.go:295-327 | in every run pool, outstanding work and schedule stay in balance but for one object lost with each failed upload |
| `MixedPool.OperationsEnd` | pkg/bench/mixed.go:251-373 | every step of an operation brings its worker closer to its next one, failures included, and leaves other workers alone |
| `MixedPool.NeverStuck` | pkg/bench/mixed.go:251-373 | a worker that has not stopped always has a step, the panic only when it takes an object from an empty pool |
| `MixedPool.RunsDryIff` | pkg/bench/mixed.go:111-135 | with successful uploads under fresh names some interleaving panics exactly when at some operation that takes an object the lead of deletions plus the operations that can keep the other workers busy reaches the initial pool |
| `MixedPool.DryWithinOneCyclePerWorker` | pkg/bench/mixed.go:143-149 | if that happens anywhere it happens within one cycle per worker |
| `MixedPool.PoolNeverRunsDry` | pkg/bench/mixed.go:123-134 | no interleaving reaches the panic when the pool starts with the workers plus the lead of deletions in one cycle and uploads succeed under fresh names |
| `MixedPool.PreparationCheckIsNotEnough` | pkg/bench/mixed.go:154-156 | on a cycle generated from equal weights of deletions and uploads every pool of up to 499 objects can run out, although preparation's check passes, for any number of workers |
| `MixedPool.FetchStep` | pkg/bench/mixed.go:143-149 | the locked method is a step of the transition system |
| `MixedPool.TakeStep` | pkg/bench/mixed.go:111-135 | the same, with the object taken or the panic |
| `MixedPool.ReturnStep` | pkg/bench/mixed.go:117-121 | the same |
| `MixedPool.AddStep` | pkg/bench/mixed.go:137-141 | the same |
| `VersionedPool.VersionedDistribution.TakeRandom` | pkg/bench/versioned.go:361-401 | takes one arbitrary version of an arbitrary name; fails exactly when no name has one |
| `VersionedPool.VersionedDistribution.Put` | pkg/bench/versioned.go:421-427 | appends a version to its name |
| `VersionedPool.VersionedDistribution.NewVersion` | pkg/bench/versioned.go:404-419 | a new version takes name and prefix of a version that stays checked out |
| `VersionedPool.VersionsAreConserved` | pkg/bench/versioned.go:361-427 | pooled, held and deleted versions are as a multiset the initial and added ones, in every run |
| `VersionedPool.HeldVersionsAreOwned` | pkg/bench/versioned.go:369-381 | a held version has one holder, is not pooled and not deleted |
| `VersionedPool.OperationsEnd` | pkg/bench/versioned.go:156-275 | every step of an operation brings its worker closer to its next one, failures included, and leaves other workers alone |
| `VersionedPool.NeverStuck` | pkg/bench/versioned.go:156-275 | a worker that has not stopped always has a step, the panic only when it takes a version and no name has one |
| `VersionedPool.WrittenNameStaysAlive` | pkg/bench/versioned.go:403-419 | while a name is written an older version of it is held and alive |
| `VersionedPool.VersionsNeverRunDry` | pkg/bench/versioned.go:383-400 | two versions per worker plus the lead of deletions keep the pool from running out, for cycles that put what they delete |
| `VersionedPool.ReadStep` | pkg/bench/versioned.go:361-383 | the locked method is a step of the transition system: a version checked out for reading, or the panic |
| `VersionedPool.DeleteStep` | pkg/bench/versioned.go:386-401 | the same for deletion |
| `VersionedPool.WriteStep` | pkg/bench/versioned.go:404-419 | the same for a new version |
| `VersionedPool.StoreStep` | pkg/bench/versioned.go:421-427 | the same for storing it |
| `StageProtocol.ClientBenchmark.constructor` | cli/benchmark.go:286-298 | fresh gates for all stages, none requested |
| `StageProtocol.ClientBenchmark.HandleStart` | cli/benchclient.go:207-241 | the first request of a known stage marks it requested and schedules its gate once, leaving what has fired and finished and all other stages as they were; later ones change nothing |
| `StageProtocol.ClientBenchmark.CloseStart` | cli/benchclient.go:237-240 | closes the gate; panics exactly when it was closed before |
| `StageProtocol.ClientBenchmark.HandleStatus` | cli/benchclient.go:242-274 | an error after a failure, otherwise whether the stage has started and ended |
| `StageProtocol.ClientBenchmark.StageDone` | cli/benchmark.go:319-335 | signals the end of a stage and keeps an error; panics exactly when it was signalled before |
| `StageProtocol.InvStep` | cli/benchserver.go:281-310 | every event, lost, resent and repeated requests included, keeps the protocol's invariant |
| `StageProtocol.NoBenchmarkBeforeAllPrepared` | cli/benchserver.go:144-167 | once any client's benchmark gate has fired every client has ended its prepare stage |
| `StageProtocol.NoCleanupBeforeBenchmarkEnded` | cli/benchserver.go:167-216 | a client told to clean up has ended its benchmark, and so has every client still connected |
| `StageProtocol.GatesFireOnce` | cli/benchclient.go:223-240 | each start gate closes at most once |
| `StageRuns.StartTakesEffect` | cli/benchclient.go:207-241 | after a start request handled in any run the stage is requested and its gate has fired or is scheduled to, once |
| `StageRuns.FailureInPrepareEndsRun` | cli/benchserver.go:468-488 | a failure reported while waiting for prepare ends the server's run |
| `StageRuns.FailureLaterDropsClient` | cli/benchserver.go:468-488 | reported later it leaves that client out and changes nothing else |
| `StageRuns.FailureIsFatalIff` | cli/benchserver.go:389-488 | a failure ends the run exactly before all clients are prepared, or when a connection is lost while downloading; otherwise that client alone is left out |
| `StageRuns.RunCanComplete` | cli/benchserver.go:129-216 | from every initial state some run ends with all clients connected and each stage of each requested, started and ended exactly once |
| `CsvText.CsvEscapeString` | pkg/bench/csv.go:42-75 | the field itself, or quoted with every quote doubled |
| `CsvText.WrittenAsIsIff` | pkg/bench/csv.go:26-45 | a field is written as it is exactly when it is empty, or begins without white space, is not a backslash and a dot, and holds no tab, quote or line end |
| `CsvText.EscapedReads` | pkg/bench/csv.go:42-75 | an escaped field before any delimiter reads back, but for CR LF pairs |
| `CsvText.CrLfToLfIff` | pkg/bench/csv.go:61-70 | reading changes a field exactly when it holds a CR LF pair |
| `CsvText.DecimalIsCanonical` | pkg/bench/ops.go:1001-1002 | a number is written as the only digits without a leading zero that read as it |
| `CsvText.DigitsReadIff` | pkg/bench/ops.go:1095-1106 | unsigned text reads as a number exactly when it is not empty and all digits |
| `CsvFile.WriteCSV` | pkg/bench/ops.go:991-1018 | header, one row for each operation, comment lines |
| `CsvFile.OperationsFromCSV` | pkg/bench/ops.go:1021-1142 | the loop over records computes `Load`: offset, limit, column lookup and errors |
| `CsvFile.LoadMeans` | pkg/bench/ops.go:1064-1136 | a file loads as the operations read from the records after the header and the skipped ones, in order, up to the limit or the end of the text |
| `CsvFile.LoadErrorMeans` | pkg/bench/ops.go:1064-1136 | a file that does not load has no header, or before the limit a malformed record, one of the wrong length, or one not skipped that does not parse |
| `CsvAnalysis.LoadForAnalysis` | pkg/bench/ops.go:1035-1062 | loading for analysis only is loading with files and clients renamed in order of first appearance |
| `CsvAnalysis.NamesBegin` | pkg/bench/ops.go:1035-1062 | the first file becomes 1, the first client a |
| `CsvAnalysis.FilesStayDistinct` | pkg/bench/ops.go:1050-1062 | files have the same new name exactly when they had the same name |
| `CsvAnalysis.ClientsStayDistinctIff` | pkg/bench/ops.go:1035-1046 | the same holds for all clients exactly when there are no more than 256 |
| `CsvRoundTrip.CommentsAreSkipped` | pkg/bench/ops.go:1007-1015 | no comment text is read as a record |
| `CsvRoundTrip.RowFields` | pkg/bench/ops.go:991-1005 | a written row read back has each field under its own heading |
| `CsvRoundTrip.LoadOfWritten` | pkg/bench/ops.go:1064-1136 | for any comment, offset and limit loading returns the selected operations, CR LF pairs of two fields turned into line feeds |
| `CsvRoundTrip.RoundTripIff` | pkg/bench/ops.go:991-1142 | loading what was written returns the operations exactly when no endpoint or error holds a CR LF pair |
| `Circular.CircularBuffer.Reset` | pkg/generator/circular.go:39-46 | back to the start; a positive number replaces the number wanted |
| `Circular.CircularBuffer.Seek` | pkg/generator/circular.go:50-78 | succeeds exactly for targets from 0 to the number wanted; exactly which error is reported otherwise and what the position becomes |
| `Circular.CircularBuffer.Read` | pkg/generator/circular.go:91-121 | fills as many bytes as wanted, end of data exactly on a short count; without a Seek these continue the repetition; panics exactly when the remainder exceeds 64 bits |
| `Circular.ReadPieces` | pkg/generator/circular.go:91-121 | reads of any sizes together return the repetition of the data up to the number wanted |
| `Circular.CycleRepeats` | pkg/generator/circular.go:91-121 | the repetition begins with the data, and again after it |
| `Circular.ReadAfterSeekBeforeStart` | pkg/generator/circular.go:55-74 | after a failed Seek to k before the start a read delivers k bytes more than wanted, or panics |
| `HostSelect.Weighed.constructor` | client/s3/s3client.go:81-90 | nothing running, times in host order |
| `HostSelect.Weighed.Find` | client/s3/s3client.go:91-109 | the least loaded host, the longest idle among those, the first in a tie |
| `HostSelect.Weighed.Acquire` | client/s3/s3client.go:110-114 | counts the handle on that host; loads add up to outstanding handles |
| `HostSelect.Weighed.Done` | client/s3/s3client.go:115-124 | takes the handle back; panics exactly when the host has none out |
| `HostSelect.AcquiringKeepsBalance` | client/s3/s3client.go:91-114 | without returns least-loaded choices keep loads within one of each other |
| `HostSelect.AcquireAll` | client/s3/s3client.go:91-114 | a run of requests none of which ends: each goes to a least loaded host, and balanced loads stay balanced |
| `HostSelect.FreshRun` | client/s3/s3client.go:81-114 | from a fresh selector with a clock not behind its creation loads never differ by more than one |
| `HostSelect.FirstChoiceIsHostZero` | client/s3/s3client.go:83-90 | whatever the random offset the first choice is host 0 |
| `HostSelect.RoundRobin.Next` | client/s3/s3client.go:64-70 | the hosts in turn |
| `HostSelect.RoundRobinIsFair` | client/s3/s3client.go:64-70 | after k calls each of n hosts has been chosen k/n times, the first k mod n once more |
| `HostSelect.ChooseMany` | client/s3/s3client.go:64-70 | k calls on a new selector choose each of n hosts k/n times, the first k mod n once more |

## Left out

- `Aggregate.PanicsIff`: nothing is said for sizes of 2^52 bytes (4 PiB) or durations of 2^53 ns (104 days) and more, where factors are rounded too.
- `Aggregate.SegmentRef.Aggregate`: numbers of objects and request times are exact reals; only the share of bytes is rounded as `float64`. Durations are assumed to fit in 64 bits (about 292 years).
- `AutoTerm.CheckStable`: speeds are exact reals; the ticker, the cancellation and the printed message are left out; callers ask for 1 or more samples.
- `Merge.KeptApartIff`: for clients whose workers are numbered from 0 and whose ids together fit in 16 bits.
- `Collector.Collector.Send`: a sender that has to wait tries again, so which of several waiting senders goes first is arbitrary.
- `MixedPool.RunsDryIff`: uploads succeed; a failed one costs the pool one object for good.
- `VersionedPool.VersionsNeverRunDry`: gives a sufficient initial pool; a schedule can do with less.
- `CsvText.EscapedReads`: text is a sequence of characters; invalid UTF-8 is not modelled, and instants are written by any invertible plain encoding instead of RFC 3339 text.
- `CsvFile.OperationsFromCSV`: progress messages. Renaming for analysis is a second pass over what was loaded.
- `Circular.CircularBuffer.Read`: data is fixed; the slice of what is left is a pair of positions in it.
- `StageProtocol.InvStep`: a client handles one request at a time on one live connection, benchmark runs of a replaced benchmark are not followed, and stage names outside the three stages do not occur.
- `StageProtocol.NoBenchmarkBeforeAllPrepared`: says that prepare has ended everywhere, not that it succeeded.
- `StageProtocol.ClientBenchmark.HandleStatus`: the custom values of a stage are not carried along.
- `StageProtocol.ClientBenchmark.StageDone`: the same.
- `HostSelect.Weighed.Find`: with a clock a second or more behind a recorded finish the choice is unspecified.
- `VersionedDistribution.Generate`: like the mixed one without the check on deletions and with a shuffle by sorting.
- Storage, network, file and console calls: outcomes are arbitrary steps of the models.
- `SplitSizes` and `SingleSizeSegment`: powers of ten index a table of powers of two, and operations can be listed twice.
- The other benchmark types, `api`, `workflow` and command-line code: the same worker loop around client calls, or plumbing.
- Random data, AES stream and size distributions of the generators, time-to-first-byte statistics, standard deviations and report formatting: floating point and formatting.
