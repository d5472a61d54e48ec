# OpenGecko: verified models of its protocols and engines

OpenGecko serves a CoinGecko-compatible API from SQLite. Most of its code shapes responses; the parts
that carry real invariants are a work-lease protocol shared by several processes, a candle store that
repairs itself from an unreliable fetcher, a job scheduler with backoff, a bounded-concurrency map, a
recursive JSON comparison with a gate over its reports, an adaptive block pager with ABI decoding, an
event log kept twice, an accounting report made of independent passes, a backfill planner, chart
downsampling, content-encoding selection and a single-flight rate refresh. Each has a Dafny module here.

Conventions used throughout:

- Time is integer milliseconds and is passed in. A step that reads the clock twice takes two readings.
- A SQLite table is a map keyed by its primary key. A `BEGIN IMMEDIATE` transaction is one step that
  restores the state before it when a statement or the COMMIT fails. A statement outside a transaction
  is a step of its own: statements of other processes can come between it and the next.
- Providers, fetchers, timers and other processes are parameters: a function of the request number, or
  an arbitrary sequence of events. "Every run" means every finite sequence of events.
- Code that changes state in the source is a class or a loop here, proved against a step function on
  values; what the source promises is then proved of the step function over all runs.
- `localeCompare` is a ranking function passed in; `Array.prototype.sort` is the stable sort.

Files: `Common`, `Text` and `StableSort` hold shared values, strings and sorting; the other files are
named after the component they model. `dafny verify dfyconfig.toml` checks everything.

## What the code does where a reader might expect otherwise

- `mapWithConcurrency` with a NaN concurrency starts no lane and fulfils with an array of holes
  (`RefinesSequentialMap` gives the exact condition).
- The improvement gate compares identity strings, not tuples. Over a set of entry ids a pass is always an
  improvement (fewer findings, every entry resolved or unchanged), and "passed" is transitive, exactly
  when no id shadows another (`PassedMeansIff`, `StrictOrderIff`); ids without a colon never do.
  Findings of class `shape` do not count as actionable for the gate.
- A comparison of an order-insensitive array shows no order exactly when entries the comparator ties look
  the same to the comparison at every position they can be sorted to (`CompareBlindIff`). A comparator
  that separates the normalized entries is sufficient and, for the normalized arrays themselves, also
  necessary (`OrderBlindIff`). `localeCompare` can tie different strings: those show their order
  (`TiedTextsShowOrder`). Entries that differ only in an ignored field tie as well, and do not
  (`IgnoredFieldHidesOrder`).
- Recording a failed refresh reads the revision in one statement and writes it back in another, outside any
  transaction. A commit in between is lost from the count (`StaleFailureLosesCommit`); the revision counts
  the commits at every moment exactly when every failing call writes before the next commit
  (`RevisionCountsCommitsIff`), and is never ahead of them (`RevisionNeverAhead`).
- Rounding is a partition, not a window: equal numbers differ by at most the tolerance
  (`EqualWithinTolerance`), but numbers closer than the tolerance can round apart
  (`CloseNumbersCanRoundApart`). Two numbers round alike exactly when no rounding boundary lies between
  them (`RoundedAlikeIff`), and that is when a comparison at a toleranced path is silent
  (`SilentNumbersIff`). The partition is what makes "no differences" transitive.
- The delay after the ninth failure is not yet five minutes for the shortest intervals
  (`NinthDoesNotSaturate`). Rounding to whole milliseconds takes something off the smallest delay exactly
  when 0.8 of the nominal one has a fraction below a half, never more than half a millisecond
  (`MinBackoffKeepsIff`). Every configured interval is a whole number of seconds, and those lose nothing
  (`WholeSecondsTotal`).
- A refresh of the currency rates started before a reset never changes the snapshot, but its outcome
  still overwrites the refresh diagnostics (`OldFailureReportsAfterReset`). They are right exactly when
  the last refresh to settle since the reset also started since it, or came out as the last one that
  did (`StatusIsRightIff`). When they are right, a refresh about to settle keeps them so exactly when it
  is of the current generation or comes out as they say (`SettleKeepsStatusIff`).
- `repairOhlcvGaps` reports the number of gaps found at the start as `gapsRepaired`, even when nothing was
  written (`GapsCountedThoughNothingStored`); their slots are all stored at the end exactly when no gap is
  left (`StartGapsClosedIff`), and always when the hook permits everything and every response serves the
  slots asked for (`ServedRepairCompletes`). `candlesRepaired` counts writes: it is the number of slots filled exactly
  when no response repeats a usable timestamp among the candles written (`WrittenCountsFilledIff`).
- Retention of less than a millisecond deletes the newest candle unless that candle lies after 1970
  (`RetentionIsStable`).
- A page without blocks ends an SQD fetch early, as a success. The swaps returned are then all of the
  chain's exactly when the blocks left over hold none (`FetchIsExact`).

## Model

| member | source | states |
|---|---|---|
| WorkLeases.CoordinationStore.AcquireLease | src/db/sqlite-coordination.ts:252-344 | the tables after an acquire, including the rollback of every failing statement, and the grant or refusal returned |
| WorkLeases.CoordinationStore.ReleaseLease | src/db/sqlite-coordination.ts:346-373 | a release changes the row only for its own family, owner and token, and says whether it did |
| WorkLeases.CoordinationStore.RecordCommitted | src/db/sqlite-coordination.ts:151-203 | a commit, one step of the refresh's own transaction, takes the next revision and replaces the whole row |
| WorkLeases.CoordinationStore.ReadRevision | src/db/sqlite-coordination.ts:213-216 | the first statement of a failing call reads the family's revision, 0 without a row |
| WorkLeases.CoordinationStore.WriteFailed | src/db/sqlite-coordination.ts:218-249 | the second one writes that reading back, whatever was committed since, degrades the row and keeps start and commit time |
| WorkLeases.CoordinationStore.RecordFailed | src/db/sqlite-coordination.ts:205-250 | both statements with none of another process between them keep the revision |
| WorkLeases.AcquireDecides | src/db/sqlite-coordination.ts:252-344 | in every run, read off the events: an acquire is granted exactly when nobody has the lock or the grant that has it is past its expiry, with the lease the call asks for; it is refused with that grant's owner and expiry otherwise; it aborts exactly on a fault of a statement it reaches, and then changes nothing |
| WorkLeases.HolderIsLock | src/db/sqlite-coordination.ts:252-373 | the grant that holds the lock follows from grants, own releases and takeovers past the expiry alone, faults included |
| WorkLeases.RowRefinesHolder | src/db/sqlite-coordination.ts:265-307 | in every run the lease columns show exactly the grant that holds a reference lock; owner, token and expiry are null together |
| WorkLeases.CountersBalance | src/db/sqlite-coordination.ts:277-334 | serialized runs = successful releases + recoveries + (1 if held), and serialized + skipped = attempts, for any interleaving and any clocks |
| WorkLeases.RowTellsHistory | src/db/sqlite-coordination.ts:277-364 | every counter and time of a lease row is that of its events: recoveries count the grants that took over an expired holder, runs all grants, skips the refusals |
| WorkLeases.ActiveIffRefused | src/db/sqlite-coordination.ts:589-592 | the diagnostics call a lease active at t exactly when an acquire at t is refused |
| WorkLeases.HeldUntilTouched | src/db/sqlite-coordination.ts:291-296 | a grant keeps the lock until a release with its own owner and token or a grant at or past its expiry |
| WorkLeases.GrantsAreSeparated | src/db/sqlite-coordination.ts:252-373 | between two grants on one family the first holder gave its lease back or some later grant came at or past the first expiry |
| WorkLeases.HolderSince | src/db/sqlite-coordination.ts:277-364 | with fresh tokens a row that still shows a grant has not been granted or released since |
| WorkLeases.ReleaseSucceedsIffStillHolder | src/db/sqlite-coordination.ts:352-372 | with fresh tokens a release succeeds exactly when nothing was granted or released since the grant; a stale holder's release changes nothing |
| WorkLeases.RowShowsLastRefresh | src/db/sqlite-coordination.ts:159-249 | in every interleaving each column of the row is what the last commit or failing write recorded; the row is degraded exactly after a failure and shows the time of the last commit |
| WorkLeases.ReadingIs | src/db/sqlite-coordination.ts:213-216 | what a failing call writes back is the revision at the moment it read |
| WorkLeases.FailureKeepsCountIff | src/db/sqlite-coordination.ts:213-249 | a failing write leaves a right count right exactly when no commit on the family came since its read |
| WorkLeases.RevisionCountsCommitsIff | src/services/market-refresh.ts:1287-1333 | the revision is the number of commits at every moment of a run exactly when every failing call of the run writes before the next commit after its read |
| WorkLeases.RevisionNeverAhead | src/db/sqlite-coordination.ts:151-250 | in no interleaving is the revision, or any reading of it, ahead of the commits |
| WorkLeases.StaleFailureLosesCommit | src/db/sqlite-coordination.ts:213-249 | the sequence of read, commit and write after which one commit is not counted |
| CandleStore.AcceptedIff | src/services/candle-store.ts:121-141 | a candle is accepted exactly when its prices are finite and positive and open and close lie between low and high |
| CandleStore.UpsertShows | src/services/candle-store.ts:251-297 | what one upsert stores, column by column, and that a rejected one changes nothing |
| CandleStore.LastReplacementStays | src/services/candle-store.ts:251-297 | of several replacing candles with one timestamp the last accepted one is stored |
| CandleStore.UpsertsKeepSound | src/services/candle-store.ts:251-297 | any sequence of upserts in both modes leaves only candles that satisfy the OHLC invariants |
| CandleStore.SummaryGrows | src/services/candle-store.ts:267-274 | one more valid merge keeps a candle the summary of its batch |
| CandleStore.MergesAggregate | src/services/candle-store.ts:251-297 | merging a batch into a new key one by one gives first open, last close and volumes, highest high and lowest low of the valid inputs |
| CandleStore.OhlcvStore.Upsert | src/services/candle-store.ts:251-297 | one upsert changes one series as the step function says and no other series |
| CandleStore.OhlcvStore.DetectGaps | src/services/candle-store.ts:364-417 | the nested loops compute the gap list of the sorted timestamps |
| CandleStore.SlotsAre | src/services/candle-store.ts:395-399 | the inner loop lists exactly the grid slots strictly between two candles, ascending |
| CandleStore.DetectorCounts | src/services/candle-store.ts:405-413 | every gap is non-empty with its own bounds and count, and the counts add up to the listed slots |
| CandleStore.MissingIff | src/services/candle-store.ts:364-417 | the detector lists a slot exactly when it is missing by a definition that mentions no order of rows, and lists slots ascending |
| CandleStore.FillingLowersTotal | src/services/candle-store.ts:454-490 | filling d missing slots leaves exactly the others: missing before = missing after + d |
| CandleStore.ResponseFills | src/services/candle-store.ts:450-484 | a written response adds only asked-for missing slots, each holding open, high, low, close and volume of a valid candle of the response and no market cap, and changes nothing stored |
| CandleStore.ResponseStores | src/services/candle-store.ts:454-484 | each slot a response fills holds, column by column, the last usable candle written for it |
| CandleStore.RoundStoresLast | src/services/candle-store.ts:450-490 | the same for a round of a repair, also one cut short inside the response |
| CandleStore.RoundLowersByFilled | src/services/candle-store.ts:431-490 | a round that fills d distinct slots lowers the missing total by exactly d |
| CandleStore.RepairConserves | src/services/candle-store.ts:419-491 | over a whole repair nothing stored before changes, only slots missing at the start are filled, and missing before = missing after + filled |
| CandleStore.FetchesBounded | src/services/candle-store.ts:431-491 | a repair makes at most (missing slots at the start + 1) fetches |
| CandleStore.EveryRoundFills | src/services/candle-store.ts:447-488 | when each of the first n rounds fills a slot, n is at most the slots they filled |
| CandleStore.StartGapsClosedIff | src/services/candle-store.ts:431-491 | every slot missing at the start of a repair is stored at its end exactly when no gap is left |
| CandleStore.GapsCountedThoughNothingStored | src/services/candle-store.ts:419-507 | a series with a gap and a response that fills nothing: the gap is counted, its slot stays empty |
| CandleStore.WrittenCountsFilledIff | src/services/candle-store.ts:454-500 | the candles counted as repaired are at least the slots filled, and as many exactly when no round writes a timestamp twice |
| CandleStore.GapsAreOpeners | src/services/candle-store.ts:381-414 | the detector finds one gap for every stored candle whose next slot is missing |
| CandleStore.ServedRoundClosesGap | src/services/candle-store.ts:436-490 | a round whose response serves every slot asked for closes that gap and no other |
| CandleStore.ServedRepairCompletes | src/services/candle-store.ts:419-507 | a hook that always permits and responses that serve every slot asked for: the repair ends complete, stores every slot missing at the start, and fetches once for each gap found then |
| CandleStore.OhlcvStore.RepairPasses | src/services/candle-store.ts:419-507 | the repair loop terminates for any responses and permission answers and is a history of such rounds, its count that of the candles written; it ends with no gap left, after a refusal of the hook, or when the last response had nothing usable for the widest gap |
| CandleStore.OhlcvStore.EnforceRetention | src/services/candle-store.ts:509-543 | retention, of any real number of days, deletes exactly the candles at or before the truncated cutoff and counts them |
| CandleStore.RetentionKeeps | src/services/candle-store.ts:519-540 | a candle survives, unchanged, exactly when it is later than the reference time less so many days, truncated to a millisecond |
| CandleStore.OhlcvStore.RepairGaps | src/services/candle-store.ts:419-507 | repair followed by retention, exactly unless the repair was cut short inside a response, no retention is asked for or the hook refuses; how the repair ended, what both reported counts are, exactly when they are the gaps closed and the slots filled, and that a served repair completes |
| CandleStore.PruningOpensNoGap | src/services/candle-store.ts:534-540 | dropping everything up to a cutoff makes no slot missing that was not |
| CandleStore.RetentionIsStable | src/services/candle-store.ts:519-540 | without a clock a positive retention is idempotent and opens no gap, and keeps the newest candle exactly when that lies after 1970 or the retention is at least a millisecond |
| JobScheduler.NominalFollowsLaw | src/services/job-scheduler.ts:123-125 | the delay before jitter after n failures is the interval clamped to [1, 30] seconds times 2^(n-1), at most five minutes |
| JobScheduler.DelayFollowsLaw | src/services/job-scheduler.ts:123-128 | every delay lies between 0.8 and 1.2 times that law, rounded |
| JobScheduler.BackoffBounds | src/services/job-scheduler.ts:123-128 | every delay lies in [800, 360000] ms and is at least the smallest jitter's delay |
| JobScheduler.BackoffSaturates | src/services/job-scheduler.ts:124-125 | from the tenth failure the delay before jitter is five minutes for every interval |
| JobScheduler.NinthDoesNotSaturate | src/services/job-scheduler.ts:124-125 | the ninth failure is too early for the shortest intervals |
| JobScheduler.MinBackoffKeepsIff | src/services/job-scheduler.ts:123-128 | the smallest delay is at least 0.8 of the nominal one exactly when that has no fraction or one of at least a half, and always within half a millisecond of it |
| JobScheduler.WholeSecondsLoseNothing | src/services/job-scheduler.ts:123-128 | for whole-second intervals the smallest delay is exactly 0.8 of the nominal one |
| JobScheduler.WholeSecondsTotal | src/config/env.ts:47-62 | for the whole-second intervals the configuration admits, the smallest delays of k failures add up to the real sum of 0.8 times the nominal ones |
| JobScheduler.TotalIsClose | src/services/job-scheduler.ts:123-128 | for every interval they add up to that sum within k half milliseconds |
| JobScheduler.FractionalSecondsCanLose | src/services/job-scheduler.ts:127 | an interval for which rounding does take something off |
| JobScheduler.StepKeepsConsistent | src/services/job-scheduler.ts:314-426 | every event keeps the job invariant |
| JobScheduler.ReachableIsConsistent | src/services/job-scheduler.ts:305-480 | in every run at most one runner is outstanding, runs = successes + failures + the one in flight, requests = runs + skips, and a positive error count goes with non-null retry time, error and failure time |
| JobScheduler.JobTellsHistory | src/services/job-scheduler.ts:305-491 | in every run each column of a job is read off its events: the flight, the streak, the retry time, the counters, the times, the outcome, whether it is stopped and whether its timer is set |
| JobScheduler.AdmissionFollowsHistory | src/services/job-scheduler.ts:314-341 | a request is admitted, or skipped and for which reason, exactly as the events before it say |
| JobScheduler.StoppedBeginsNothing | src/services/job-scheduler.ts:325-328 | from a stop to the next start no run begins |
| JobScheduler.StreakAccumulates | src/services/job-scheduler.ts:337-396 | over a streak of failures on a monotone clock the retry time is past the first failure plus all the smallest delays, as rounded |
| JobScheduler.NextStartWaitsOutStreak | src/services/job-scheduler.ts:337-341 | on a monotone clock no run is admitted before the first failure plus the real sum of 0.8 times the nominal delays, for whole-second intervals; for any other at most k half milliseconds earlier |
| JobScheduler.StreakFloorIff | src/services/job-scheduler.ts:123-128 | every run waits out that real sum exactly when the rounded delays add up to at least as much |
| JobScheduler.DiagnosticsMatchAdmission | src/services/job-scheduler.ts:185-241 | next_run_at equals next_retry_at, and every status, also of a stopped job, is explained by what a request at that moment would meet were the job not stopped; a run is stale exactly one full second past its threshold |
| JobScheduler.StatusIs | src/services/job-scheduler.ts:194-241 | exactly when each status is shown: a run under way by its age and the last skip, a job that could run by the first that applies of a failure, partial failures, a skip and a late run |
| JobScheduler.LagIs | src/services/job-scheduler.ts:130-137 | the lag is the whole seconds since the next run was due, none before |
| JobScheduler.UnifiedScheduler.Register | src/services/job-scheduler.ts:429-457 | a fresh name gets a blank job, a taken one changes nothing |
| JobScheduler.UnifiedScheduler.RunJob | src/services/job-scheduler.ts:314-426 | one request moves its job as the step function says and leaves every other job alone |
| JobScheduler.UnifiedScheduler.SettleSucceeded | src/services/job-scheduler.ts:350-364 | a success clears the streak and the flight |
| JobScheduler.UnifiedScheduler.SettleFailed | src/services/job-scheduler.ts:385-421 | a failure extends the streak, sets the retry time and clears the flight |
| JobScheduler.UnifiedScheduler.StartAll | src/services/job-scheduler.ts:458-480 | start reaches every job once, running the immediate ones |
| JobScheduler.UnifiedScheduler.StopAll | src/services/job-scheduler.ts:484-491 | stop marks every job stopped and clears its timer |
| BoundedMap.StepKeepsSound | src/lib/async.ts:14-20 | every await-to-await step keeps: calls in index order, each slot filled with the worker's own value or held by its caller |
| BoundedMap.ReachableIsSound | src/lib/async.ts:1-27 | that holds in every interleaving |
| BoundedMap.EachIndexCalledOnce | src/lib/async.ts:15-18 | claimed indices are exactly [0, nextIndex), each by one call |
| BoundedMap.OutstandingBounded | src/lib/async.ts:10-24 | calls made less calls settled is the number of awaiting lanes, never more than min(max(1, floor c), n) lanes |
| BoundedMap.StepsBounded | src/lib/async.ts:14-24 | an interleaving has at most lanes + items steps, and stops exactly when every lane has finished or failed |
| BoundedMap.LaneCountIs | src/lib/async.ts:10-23 | the most lanes that exceed neither the request nor the items, at least one, and none for NaN |
| BoundedMap.RefinesSequentialMap | src/lib/async.ts:1-27 | when nothing can run any more the map fulfils exactly when no call rejects and is then the sequential map without holes, except for a NaN concurrency |
| BoundedMap.FirstRejectionStays | src/lib/async.ts:22-24 | the combined promise keeps the first rejection |
| BoundedMap.LanePool.StartLane | src/lib/async.ts:14-23 | starting a lane is a start step of the run |
| BoundedMap.LanePool.SettleLane | src/lib/async.ts:15-19 | settling an awaited call stores its value and claims the next index, or rejects |
| BoundedMap.MapWithConcurrency | src/lib/async.ts:1-27 | for any settling order the results are those of the sequential map, or the failure is the error of some rejecting call |
| DiffReport.PlainSilentIffEqual | src/coingecko/diff-report.ts:100-172 | under rules that touch nothing two trees compare silently exactly when they are equal |
| DiffReport.LeavesTrail | src/coingecko/diff-report.ts:123-191 | under such rules the leaves are exactly the places where the trees part, one each and in order: a leaf's path names its place, and following it in both trees gives its two values |
| DiffReport.ScalarsCompare | src/coingecko/diff-report.ts:114-134 | two scalars no rule touches: silent exactly when equal, else one leaf at the path with both values |
| DiffReport.NumbersAreNotOthers | src/coingecko/diff-report.ts:114-134 | a number differs from any other scalar, tolerance or not |
| DiffReport.KindsCompare | src/coingecko/diff-report.ts:131-144 | an array or an object against anything else gives one leaf at the path |
| DiffReport.IgnoredIsSilent | src/coingecko/diff-report.ts:101-103 | nothing at an ignored path adds a leaf |
| DiffReport.ObjectsCompare | src/coingecko/diff-report.ts:107-160 | under any rules two objects are compared field by field, as the fields stand, every key of either in sorted order |
| DiffReport.ArraysCompare | src/coingecko/diff-report.ts:104-172 | two arrays of one length are compared entry by entry, sorted first where their order does not count |
| DiffReport.LengthsCompare | src/coingecko/diff-report.ts:163-167 | arrays of different lengths give one leaf, at the array |
| DiffReport.ArrangedIs | src/coingecko/diff-report.ts:104-106 | the sorted entries are the same entries, normalized, by ascending rank |
| DiffReport.NormalizeNeverRaises | src/coingecko/diff-report.ts:100-125 | normalizing never makes a tree higher, so the recursion on re-normalized children terminates |
| DiffReport.NormalizeIsIdempotent | src/coingecko/diff-report.ts:100-125 | normalizing again at the same path changes nothing |
| DiffReport.RoundingIsIdempotent | src/coingecko/diff-report.ts:114-118 | rounding a rounded number changes nothing |
| DiffReport.RoundedIs | src/coingecko/diff-report.ts:114-118 | rounding gives the multiple of 10^-d within half a step, away from zero on a tie, and from 1e21 on the number itself |
| DiffReport.DigitsIs | src/coingecko/diff-report.ts:117 | the digits kept: the fewest whose step does not exceed the tolerance, at most a hundred, none for a negative one |
| DiffReport.EqualWithinTolerance | src/coingecko/diff-report.ts:114-118 | numbers that normalize alike differ by at most the tolerance |
| DiffReport.CloseNumbersCanRoundApart | src/coingecko/diff-report.ts:114-118 | two numbers closer than the tolerance that normalize apart |
| DiffReport.RoundedAlikeIff | src/coingecko/diff-report.ts:114-118 | any two numbers round alike exactly when no rounding boundary lies between them (beyond the range of toFixed: when they are equal, or one rounds to the limit and the other is it) |
| DiffReport.SilentNumbersIff | src/coingecko/diff-report.ts:123-145 | two numbers at a toleranced path compare as equal, either way round, exactly then |
| DiffReport.SilentIffSameCanon | src/coingecko/diff-report.ts:123-172 | for every ruleset the comparison reports nothing exactly when both sides have the same canonical form |
| DiffReport.SilentIsEquivalence | src/coingecko/diff-report.ts:123-172 | reporting nothing is reflexive, symmetric and transitive |
| DiffReport.LeavesSwap | src/coingecko/diff-report.ts:123-191 | comparing the other way round reports the same paths, classes and reasons in the same order, with the values exchanged |
| DiffReport.LeavesAreGenuine | src/coingecko/diff-report.ts:131-191 | every reported leaf has two different values, and its class and reason tell how: one side absent, a freshness or source path, an array, an object or two scalars |
| DiffReport.MentionsIff | src/coingecko/diff-report.ts:178-183 | a path is a freshness or source path when it contains one of the listed parts anywhere |
| DiffReport.OrderBlindIff | src/coingecko/diff-report.ts:104-106 | an order-insensitive array normalizes independently of its order exactly when the ranking separates its normalized entries |
| DiffReport.CompareBlindIff | src/coingecko/diff-report.ts:104-172 | its comparison is silent whatever the order on either side exactly when entries that tie have one canonical form at every position they can be sorted to; a separating ranking is sufficient |
| DiffReport.ArrangedKeys | src/coingecko/diff-report.ts:104-106 | any two orders of the same entries are sorted to entries that tie, position by position |
| DiffReport.ArrangedOtherwise | src/coingecko/diff-report.ts:104-106 | some order of the entries sorts any entry to the place of any other it ties with |
| DiffReport.TiedTextsShowOrder | src/coingecko/diff-report.ts:104-172 | two different texts the ranking ties are reported when their order differs |
| DiffReport.OrderCanShow | src/coingecko/diff-report.ts:104-172 | a ruleset and two orders of two texts whose comparison is not silent |
| DiffReport.IgnoredFieldHidesOrder | src/coingecko/diff-report.ts:104-158 | entries that differ only in an ignored field: the normalized array shows their order, no comparison does |
| DiffReport.DiffLog.CollectDiffLeaves | src/coingecko/diff-report.ts:123-161 | the recursive collector appends exactly the specified leaves, in order |
| DiffReport.DiffLog.CollectArrayDiffLeaves | src/coingecko/diff-report.ts:163-172 | one ranking leaf for different lengths, else the leaves of each index in order |
| DiffReport.DiffLog.CollectFieldDiffLeaves | src/coingecko/diff-report.ts:147-160 | the leaves of every key of either side in sorted order |
| DiffReport.ClassifyFinding | src/coingecko/diff-report.ts:199-227 | the classification of a finding, including differing statuses |
| DiffReport.PrimaryIsMinimal | src/coingecko/diff-report.ts:193-226 | the reported class is that of a leaf no other leaf precedes, and every leaf's path is listed once |
| DiffReport.PrimaryIsMostSevere | src/coingecko/diff-report.ts:193-226 | the reported class is the most severe any leaf has, in the order shape, missing field, ranking, freshness, source, value; the reason is that of its first path |
| DiffReport.ClassificationSwaps | src/coingecko/diff-report.ts:199-227 | exchanging the two sides changes neither class nor reason nor paths of a finding |
| ImprovementGate.FailuresMean | src/coingecko/improvement-gate.ts:147-249 | each failure reason is given exactly when it holds of the two reports as they stand: the five settings, entries replayed on one side only, changed requests, as many findings that count, an identity new to the old report, an entry whose identities changed |
| ImprovementGate.FailuresInOrder | src/coingecko/improvement-gate.ts:216-249 | reasons come once and in the gate's order |
| ImprovementGate.ActionableKeeps | src/coingecko/improvement-gate.ts:96-98 | all findings but those of shape count, each as often as it is listed |
| ImprovementGate.IdentityTells | src/coingecko/improvement-gate.ts:92-94 | given the entry, an identity tells the class and the joined paths |
| ImprovementGate.ContractsAre | src/coingecko/improvement-gate.ts:118-137 | an entry's request is that of its last row |
| ImprovementGate.CollisionShadows | src/coingecko/improvement-gate.ts:92-94 | two findings of different entries with one identity string come from shadowing entry ids |
| ImprovementGate.CollisionsExist | src/coingecko/improvement-gate.ts:92-94 | shadowing ids do have a common identity string |
| ImprovementGate.PassedMeans | src/coingecko/improvement-gate.ts:163-249 | where no entry id shadows another, a report passes exactly when the setting is the same, it has fewer actionable findings, and every entry is resolved or exactly unchanged |
| ImprovementGate.PassedMeansIff | src/coingecko/improvement-gate.ts:163-249 | such an improvement always passes; over a set of entry ids every pass is such an improvement exactly when none shadows another |
| ImprovementGate.StrictOrderIff | src/coingecko/improvement-gate.ts:163-249 | "passed" is irreflexive, and transitive over a set of entry ids exactly when none shadows another |
| ImprovementGate.ShadowBreaksTransitivity | src/coingecko/improvement-gate.ts:92-249 | from any shadowing pair, three reports that pass in turn but not from first to last |
| ImprovementGate.PlainIdsAreUnshadowed | src/coingecko/improvement-gate.ts:92-94 | ids without a colon never shadow one another |
| ImprovementGate.BreakdownConserves | src/coingecko/improvement-gate.ts:169-185 | resolved + unchanged = old identities, unchanged + introduced = new ones |
| ImprovementGate.SummarizeFindings | src/coingecko/improvement-gate.ts:100-116 | the counters are the counts per class and per entry, absent exactly at zero |
| ImprovementGate.NoFailureIffPassed | src/coingecko/improvement-gate.ts:218-249 | no failure reason is given exactly when the report passes |
| ImprovementGate.CreateGateReport | src/coingecko/improvement-gate.ts:150-294 | the reasons in order, empty exactly when passed, the resolved and introduced identities, and the conservation of identities on a pass |
| SqdPaging.SpansAre | src/providers/sqd.ts:120-128 | the first window spans the requested blocks, at least 128, never more than there are; the minimum is the configured one, at least one |
| SqdPaging.WindowIs | src/providers/sqd.ts:272-273 | a window starts at the next block and is as long as the span, or ends with the last block before that |
| SqdPaging.TurnDescends | src/providers/sqd.ts:272-406 | every turn that goes on lowers (blocks left, span) lexicographically, and never grows the span |
| SqdPaging.FetchIsSound | src/providers/sqd.ts:267-406 | in every fetch accepted windows tile, spans only shrink and shrinks are logarithmic, whatever the worker answers |
| SqdPaging.FetchBounds | src/providers/sqd.ts:255-406 | every block from fromBlock to just below nextBlock falls into exactly one accepted window and others into none; the requests are the accepted windows, the shrinks and the turn that stopped early; shrinks are logarithmic |
| SqdPaging.TilesCoverOnce | src/providers/sqd.ts:397-402 | abutting windows cover each block once |
| SqdPaging.StaysInsideWindows | src/providers/sqd.ts:273-402 | for a worker whose last block stays inside the window no accepted window claims a block beyond what was requested |
| SqdPaging.PageIsChain | src/providers/sqd.ts:341-397 | a page that leaves out only blocks without logs harvests to the chain's swaps up to the block it reached |
| SqdPaging.FetchIsExact | src/providers/sqd.ts:255-408 | against a worker that may fail or stop short but never makes blocks up or skips logs, an uncapped fetch that reaches the last block returns exactly the chain's decodable swaps of the requested blocks, in order; one that ends early returns those of the blocks it passed, all of them exactly when the rest hold none |
| SqdPaging.CappedIsExact | src/providers/sqd.ts:259-395 | against such a worker a capped fetch returns the first swaps of the chain where the uncapped one gets to the end |
| SqdPaging.CapTakesPrefix | src/providers/sqd.ts:259-395 | on the same responses a capped fetch gives the first swaps of the uncapped one, and may succeed where that fails later; a cap below one gives none |
| SqdPaging.ReachedIsLast | src/providers/sqd.ts:346-352 | the block reached is that of the last block that has a number |
| SqdPaging.ReadIs | src/providers/sqd.ts:354-382 | a log yields a swap exactly when its block has a number and a timestamp, its data decode and its hash is not empty; the swap has those four parts; it throws exactly on malformed data in such a block |
| SqdPaging.HarvestedIsCollected | src/providers/sqd.ts:346-382 | the logs of a block harvest to the swaps they yield, in order, up to the first that throws |
| SqdPaging.HarvestIsFromPage | src/providers/sqd.ts:346-382 | every swap of a page is what one of its logs decodes to, under its own block |
| SqdPaging.ReadPage | src/providers/sqd.ts:341-391 | the nested loops harvest the page's swaps up to the cap or the first log that throws |
| SqdPaging.ReadBlock | src/providers/sqd.ts:346-382 | the same for the logs of one block |
| SqdPaging.FetchPoolSwaps | src/providers/sqd.ts:255-408 | the paging loop returns what the specification of the whole fetch says |
| AbiWords.SignedRoundTrip | src/providers/sqd.ts:199-206 | encoding then decoding gives the original, for every signed value of the width |
| AbiWords.UnsignedRoundTrip | src/providers/sqd.ts:208-211 | the same for unsigned values |
| AbiWords.SignedWordRoundTrip | src/providers/sqd.ts:199-206 | every lowercase word decodes to a value in [-2^(4n-1), 2^(4n-1)) whose encoding is that word: a bijection with the above |
| AbiWords.SwapRoundTrip | src/providers/sqd.ts:213-229 | the decoder inverts the five-word encoding for all amounts, prices, liquidities and ticks, with or without prefix and trailing data |
| AbiWords.DigitIs | src/providers/sqd.ts:202-210 | the hexadecimal digits, in either case |
| AbiWords.HexValueFront | src/providers/sqd.ts:202-210 | a text of n + 1 digits is worth its first digit times 16^n plus the rest, and is no number when some character is none |
| AbiWords.DecodedIs | src/providers/sqd.ts:199-211 | on any text, prefixed or not: the signed value of its width that agrees with its digits modulo 16^n; an empty unsigned word is zero |
| AbiWords.SwapIs | src/providers/sqd.ts:213-229 | on any five words, each field is what its own word decodes to, and one that does not decode spoils the event |
| AbiWords.ShortIff | src/providers/sqd.ts:213-217 | an event is too short exactly below five words |
| ChartLog.CountersAgree | src/services/chart-response-source-diagnostics.ts:80-100 | memory counts every call; the table misses exactly the calls whose counter statement failed |
| ChartLog.CounterShowsEnds | src/services/chart-response-source-diagnostics.ts:80-100 | a counter row shows the times of the first and the last call it counts |
| ChartLog.RecordedIs | src/services/chart-response-source-diagnostics.ts:177-209 | what is recorded is one event for each call that came with an input and was answered by a provider or with nothing, under that call's time |
| ChartLog.TimeIsLeast | src/services/chart-response-source-diagnostics.ts:169-174 | the time of a call is the least that reaches its place in the run and every clock reading so far plus the calls since |
| ChartLog.TimesDescend | src/services/chart-response-source-diagnostics.ts:169-174 | recorded events carry strictly increasing times even when the clock stalls or goes back |
| ChartLog.RingIsNewest | src/services/chart-response-source-diagnostics.ts:193-209 | the ring is the fifty newest events recorded |
| ChartLog.TopIsPrefix | src/services/chart-response-source-diagnostics.ts:130-146 | ordering the table by time and id recovers the order of writing |
| ChartLog.TableKeeps | src/services/chart-response-source-diagnostics.ts:113-138 | whatever fails, the table is the newest rows written: at least fifty of them or all |
| ChartLog.ViewIsNewestWritten | src/services/chart-response-source-diagnostics.ts:141-162 | the table shows the fifty newest events that reached it, whatever was pruned or failed |
| ChartLog.MemoryAndDatabaseAgree | src/services/chart-response-source-diagnostics.ts:164-233 | from empty tables, with no statement before the pruning failing, ring and view are equal and so are the counters, after every run |
| ChartLog.RingMatchesViewIff | src/services/chart-response-source-diagnostics.ts:164-233 | ring and table view agree exactly when every event still in the ring reached the table |
| ChartLog.Diagnostics.Record | src/services/chart-response-source-diagnostics.ts:177-210 | one call with any fault is one more step of the run |
| ChartLog.Diagnostics.Persist | src/services/chart-response-source-diagnostics.ts:182-191 | the statements of one call up to the one that fails |
| ChartLog.Diagnostics.RecentEvents | src/services/chart-response-source-diagnostics.ts:222-232 | readable or not, a caller sees the fifty newest recorded events |
| ChartLog.Diagnostics.Snapshot | src/services/chart-response-source-diagnostics.ts:211-221 | readable or not, a caller sees the number of calls |
| Suggestions.TallyCounts | src/services/market-chart-diagnostics.ts:444-490 | every suggestion's total is the number of its target's eligible events and its sum by source, by route and by request kind |
| Suggestions.TallyBreaksDown | src/services/market-chart-diagnostics.ts:474-477 | each of its counters counts exactly its events of that source, request kind and route |
| Suggestions.TallyCountsRoutes | src/services/market-chart-diagnostics.ts:474-477 | column by column, its routes count its events of that route and source |
| Suggestions.TallyBreaksDownSpans | src/services/market-chart-diagnostics.ts:262-294 | its range requests and each span bucket count exactly its events of that span |
| Suggestions.TallyShowsLatest | src/services/market-chart-diagnostics.ts:478-481 | it shows the time of its latest event |
| Suggestions.StatusIs | src/services/market-chart-diagnostics.ts:380-383 | an event is stale exactly when it cannot be dated to the day seven days back or later; else it is suppressed or eligible, as its target has a source or not |
| Suggestions.KeyIs | src/services/market-chart-diagnostics.ts:372-378 | the key of an event, minute and hourly ones under one interval |
| Suggestions.KeyTellsTarget | src/services/market-chart-diagnostics.ts:38-40 | names without a colon: one key is one coin, currency and interval |
| Suggestions.SuggestionOrderIs | src/services/market-chart-diagnostics.ts:502-509 | the order: total, filled, empty and latest time descending, then names |
| Suggestions.TallyHoldsEligibleKeys | src/services/market-chart-diagnostics.ts:444-490 | one suggestion per key of an eligible event |
| Suggestions.TotalsAddUp | src/services/market-chart-diagnostics.ts:444-490 | the totals of all suggestions add up to the eligible events |
| Suggestions.ReturnedAre | src/services/market-chart-diagnostics.ts:492-510 | min(20, unique targets) suggestions come back in order, none preceded by one left out |
| Suggestions.KeyDeterminesHistory | src/services/market-chart-diagnostics.ts:38-40 | a candidate key determines its interval |
| Suggestions.PassesHoldSameTargets | src/services/market-chart-diagnostics.ts:603-618 | the overflow pass collects the targets of the suggestion pass, with the same histories |
| Suggestions.NoClampPerHistory | src/services/market-chart-diagnostics.ts:629-634 | per history, returned suggestions never exceed eligible targets |
| Suggestions.BuildSuggestions | src/services/market-chart-diagnostics.ts:420-534 | the loop, sort and slice |
| Suggestions.BuildSummary | src/services/market-chart-diagnostics.ts:724-765 | stale + suppressed + eligible = total, and the unique targets |
| Suggestions.BuildExclusions | src/services/market-chart-diagnostics.ts:690-722 | the exclusion samples are the sorted, cut lists of stale and of suppressed events |
| Suggestions.ExclusionsMatchSummary | src/services/market-chart-diagnostics.ts:713-721 | the samples are the first five of the sorted events, or as many as the summary counts, each one of those events |
| Suggestions.BuildOverflow | src/services/market-chart-diagnostics.ts:580-644 | omissions are plain differences, per history and in all, and add up |
| Suggestions.BuildReport | src/services/market-chart-diagnostics.ts:767-815 | the alert asks for action exactly when some event is eligible, is clear exactly without events, and watches otherwise |
| BackfillPlanner.ParseCoverageTargetManifest | src/services/coverage-targets.ts:74-124 | a manifest parses exactly when every row is acceptable and no two enabled rows have one key, and then gives the planner what it relies on |
| BackfillPlanner.AcceptedIff | src/services/coverage-targets.ts:81-123 | a row is acceptable exactly when a supported target shows it, column by column, and that is what it is parsed to |
| BackfillPlanner.PlanHistoryBackfillTasks | src/services/history-backfill-planner.ts:131-172 | the plan is a sorted permutation of the tasks of the enabled targets |
| BackfillPlanner.PlanCounts | src/services/history-backfill-planner.ts:131-172 | a task is planned as often as the enabled targets, each with the last row observed for it, ask for it |
| BackfillPlanner.PlanTarget | src/services/history-backfill-planner.ts:137-169 | the tasks of one target |
| BackfillPlanner.TaskOrderIsPreorder | src/services/history-backfill-planner.ts:83-125 | the comparator is a total preorder |
| BackfillPlanner.TaskFindsOwnTarget | src/services/history-backfill-planner.ts:134-171 | with a parsed manifest a task is ranked by the tier of the target it was planned for |
| BackfillPlanner.TasksAreJustified | src/services/history-backfill-planner.ts:137-169 | each task's reason holds of its target's state and its window is the one that reason asks for, never empty except for a reported gap |
| BackfillPlanner.TaskIff | src/services/history-backfill-planner.ts:137-169 | the tasks of a target are the windows it is owed, in milliseconds and for each reason, all of them and no others, under its own name and priority |
| BackfillPlanner.OrderIs | src/services/history-backfill-planner.ts:83-125 | the order of the plan: tier, reason, priority, then names |
| BackfillPlanner.RanksAre | src/services/history-backfill-planner.ts:42-55 | tiers and reasons from the most to the least urgent |
| BackfillPlanner.KeysAreSpelled | src/services/history-backfill-planner.ts:57-63 | the keys that connect observed rows with targets |
| BackfillPlanner.ObservedIs | src/services/history-backfill-planner.ts:132-138 | what is known of a key is the last row observed for it |
| BackfillPlanner.RoundsTile | src/services/history-backfill-planner.ts:159-164 | successive shallow windows are at most 180 days long and cover each missing instant exactly once |
| BackfillPlanner.RoundsAbut | src/services/history-backfill-planner.ts:159-164 | they abut, from the oldest instant held down to the one desired |
| BackfillPlanner.RoundsVanish | src/services/history-backfill-planner.ts:159-164 | they vanish after the shortfall divided by 180 days, rounded up |
| BackfillPlanner.ShallowTaskIsFirstRound | src/services/history-backfill-planner.ts:161-164 | a synced target gets a shallow task exactly when history is missing, and it is the first of these windows |
| ChartSemantics.BestIsBest | src/services/market-chart-ingestion.ts:195-214 | the row kept for a timestamp is beaten by none and ties with none before it |
| ChartSemantics.BestIsLatest | src/services/market-chart-ingestion.ts:203-208 | a live row is kept if there is one, among its like one fetched last, and the first such |
| ChartSemantics.LatestRowsByTimestamp | src/services/market-chart-ingestion.ts:195-215 | one best row per timestamp, strictly ascending |
| ChartSemantics.DownsampleTimeSeries | src/modules/chart-semantics.ts:28-52 | the loop computes the specified sample |
| ChartSemantics.DownsamplingIsIdempotent | src/modules/chart-semantics.ts:28-52 | downsampling twice is downsampling once, for every list and granularity |
| ChartSemantics.DownsampledKeepsEnds | src/modules/chart-semantics.ts:28-52 | the sample is a subsequence with the same first row, and the same last row on ascending rows |
| ChartSemantics.SampleIsSpaced | src/modules/chart-semantics.ts:29-43 | up to two rows or without a granularity the list stays as it is; else kept rows are a granularity apart but for the last two, none repeats the timestamp before it, and the last timestamp is kept |
| ChartSemantics.DroppedRowsAreClose | src/modules/chart-semantics.ts:36-43 | every row lies less than one granularity after a kept row |
| ChartSemantics.LengthBound | src/modules/chart-semantics.ts:28-52 | at most ceil(span / g) + 1 of two or more rows are left |
| ChartSemantics.GranularityIs | src/modules/chart-semantics.ts:9-26 | an hour, a day, two days or a week, for spans up to 1, 30, 90 and more days |
| ChartSemantics.ChartPointLimits | src/modules/chart-semantics.ts:9-26 | 25, 31 and 46 points for spans up to 1, 30 and 90 days |
| AcceptEncoding.SplitFront | src/http/accept-encoding.ts:37-38 | splitting takes the text up to the first separator and splits the rest |
| AcceptEncoding.ParameterIs | src/http/accept-encoding.ts:13-28 | a parameter's name is what precedes its first equals sign; its quality is the number from 0 to 1 that all the rest spells |
| AcceptEncoding.EntryIs | src/http/accept-encoding.ts:37-47 | an entry is the cleaned, non-empty text before its first semicolon, with the quality of the parameters after it |
| AcceptEncoding.QualityIs | src/http/accept-encoding.ts:9-32 | a quality comes out exactly when every q parameter is well formed; it is that of the last one, or 1 without any |
| AcceptEncoding.ParseAcceptEncoding | src/http/accept-encoding.ts:34-59 | the map holds exactly the mentioned tokens: zero if any entry is zero, else the maximum |
| AcceptEncoding.SelectAcceptedContentEncoding | src/http/accept-encoding.ts:78-96 | the choice is determined by the set of entries, maximizes quality with br winning ties, and is null exactly when neither has positive quality |
| AcceptEncoding.ChosenMeans | src/http/accept-encoding.ts:61-96 | br is chosen with a positive quality not below that of gzip, gzip with one above that of br, each by its own entries or else the wildcard's |
| AcceptEncoding.OrderAndRepetitionDoNotMatter | src/http/accept-encoding.ts:37-58 | reordering or repeating the entries of a header changes neither the entry set nor the choice |
| AcceptEncoding.ChoiceIsUnique | src/http/accept-encoding.ts:78-96 | a set of entries chooses at most one encoding |
| AcceptEncoding.ExplicitOverridesWildcard | src/http/accept-encoding.ts:61-76 | an explicit entry overrides the wildcard |
| CurrencyRates.AlwaysSingleFlight | src/services/currency-rates.ts:179-215 | in every run at most one refresh of the current generation is under way, and the snapshot is valid |
| CurrencyRates.FlightIs | src/services/currency-rates.ts:179-215 | the flight is the refresh started since the last reset that has not finished |
| CurrencyRates.PhaseIs | src/services/currency-rates.ts:179-215 | a refresh is fetching until its fetch settles and over once it has finished |
| CurrencyRates.ValidIff | src/services/currency-rates.ts:39-60 | a payload is good exactly when usdt, usd, eur, btc and eth have positive rates |
| CurrencyRates.GenerationTracksReset | src/services/currency-rates.ts:80-88 | a refresh carries the current generation exactly when it started since the last reset |
| CurrencyRates.SnapshotIsExpected | src/services/currency-rates.ts:186-192 | the snapshot is the last good payload of a refresh started since the last reset, else the bootstrap |
| CurrencyRates.OldFailureReportsAfterReset | src/services/currency-rates.ts:194-204 | the refresh diagnostics are not guarded by the generation: a failure from before a reset shows after it |
| CurrencyRates.StatusIsReported | src/services/currency-rates.ts:194-204 | in every run the diagnostics show the outcome of the last refresh to settle since the reset, ok without one |
| CurrencyRates.StatusIsRightIff | src/services/currency-rates.ts:194-204 | they show the outcome of the last settled refresh that started since the reset exactly when the last one to settle is such a refresh, came out the same, or none settled |
| CurrencyRates.SettleKeepsStatusIff | src/services/currency-rates.ts:187-204 | a settling refresh keeps right diagnostics right exactly when it is of the current generation or comes out as they say |
| CurrencyRates.Rates.RefreshOnce | src/services/currency-rates.ts:179-215 | a caller joins the refresh in flight or starts one |
| CurrencyRates.Rates.SettleRefresh | src/services/currency-rates.ts:187-204 | a settling fetch changes the snapshot only for a refresh started since the last reset, always sets the status, and leaves flight and generation alone |
| CurrencyRates.Rates.ClearFlight | src/services/currency-rates.ts:206-210 | a finished refresh clears the flight only if it is still its own |
| StableSort.SortByIs | src/services/history-backfill-planner.ts:171 | the sort gives an ordered permutation |
| StableSort.SortByIsStable | src/services/history-backfill-planner.ts:171 | entries that tie keep their order |
| StableSort.OrderedIsUnique | src/coingecko/diff-report.ts:105 | a separating comparator leaves only one ordered arrangement |

## Left out

- Fastify routes, response shaping, HTTP caching, compression, logging, metrics, startup and shutdown plumbing.
- The query shapes of Drizzle and FTS5; tables are maps.
- JobScheduler.UnifiedScheduler.RunJob: a runner is assumed neither to throw synchronously nor to request its own job before its first await; text is modelled after sanitizing.
- JobScheduler.UnifiedScheduler.StopAll: the wait for runs in flight at shutdown and its timeout are not modelled; jobs are values in a map rather than shared mutable records.
- WorkLeases: process heartbeats and the writer-contention counters of the diagnostics.
- CandleStore.OhlcvStore.RepairGaps: no other writer touches the series between the awaits of one repair.
- CandleStore: candles seeded from close series bypass the upsert path and are not modelled; prices are real numbers, so floating-point rounding of MAX and MIN does not arise.
- BoundedMap.MapWithConcurrency: returns once every lane is quiet, while the promise rejects as soon as the first call does; `FirstRejectionStays` says the outcome is the same.
- DiffReport: object keys found on the prototype chain, numbers that overflow to Infinity, a tolerance for which toFixed throws, key order of characters above U+FFFF, the files a report reads and writes, ownership hints and the divergence registry.
- DiffReport.Rounded: works on real numbers, so the rounding of the decimal result to a double is not modelled.
- ImprovementGate: the order in which findings are listed inside the report, and the split of a path into its query.
- SqdPaging.FetchPoolSwaps: URL handling, retries inside one request, sleeps and the height request are folded into the worker's answer; non-integer block numbers and null entries of a page are left out.
- AbiWords: whitespace that BigInt would trim, and rounding of ticks beyond 2^53.
- ChartLog: other processes writing the same tables, constructing the diagnostics without a database; the update time of a counter row, which is that of its last call.
- Suggestions: sample requests, dominant buckets and batch previews, which only list again what is counted here.
- BackfillPlanner: the texts of the parser's errors and conversion of targets for other services.
- AcceptEncoding: trimming, lowercasing and the reading of a number are parameters.
- CurrencyRates: the fetch itself, its timeout, and the times and sanitized texts of the diagnostics.
- Modules the modelled files refer to but that hold no state of theirs: response cache, provider breaker, OHLCV runtime and scheduling policy, market runtime state.
