# Touchgrass, verified

A Dafny model of the state machines and exactly-once pipelines of touchgrass, a small
operations dashboard that watches containers, logs, timings and security findings on one
host and keeps what it sees in SQLite.

| module | what it models |
|---|---|
| `Calendar`, `TextOrder` | dates of day numbers, and byte order of padded fields |
| `StoredTime`, `TimeTexts` | the two text formats of stored times, when text order is time order, and how they are read back |
| `Inventory`, `InventoryRows` | reconciliation of the container table with batches of observed containers; one batch, row by row |
| `Findings`, `FindingSteps` | security finding episodes: detection, recovery, operator actions, suppression; one step, column by column |
| `Scanners`, `ScannerRules` | the process and layer scanners that feed the findings, and what each rule detects |
| `LogCursor` | the Docker log cursor: the newest kept stamp and the number of lines kept there |
| `LogStreams`, `LogTail` | answers of two streams, and answers cut to the newest lines |
| `LogCollector` | the collection cycle around the cursor |
| `LogSearch` | paged level search over stored logs |
| `Histogram`, `HttpSummary` | mergeable latency histograms, percentiles, and summaries of stored buckets |
| `HttpRollups` | minute buckets deduplicated by ingest key, and hourly rollups |
| `TimingTail`, `TimingPipeline` | the nginx timing file from bytes to stored totals |
| `Guard` | the circuit breaker with permits around Docker calls |
| `Escaping` | LIKE patterns and full-text expressions built from free text |
| `LineWriter` | the line splitter of deploy output |
| `Alerts` | edge-triggered alert rules |
| `Admins` | the guard that keeps an enabled administrator |

Tables are maps or sequences of rows, a committed transaction is one step, and a failed one
is no step. Objects whose methods update fields are classes; each method is tied to a
function of the old state, and the lemmas are about those functions and their runs.
`dafny verify dfyconfig.toml` checks everything.

## What the proofs found

- Trimmed time texts misorder instants of one second, because `Z` sorts after digits and
  `.` before them. Comparisons of trimmed texts are therefore exact only to the second:
  the grace period of a missing container can end up to a second early
  (`Inventory.GraceFiresEarly`; the exact condition is in `Inventory.GraceElapsed`).
- Replaying a batch is not always a no-op: metrics of a container that is new and not
  running are stored by the insert and erased by the next upsert
  (`Inventory.ReplayIsNoOp` gives the exact condition). The inventory service itself sends
  no metrics with its batches, so this is a property of the store's interface only.
- Two containers of one batch with the same name leave only the last one present
  (`Inventory.PresentAfterComplete`).
- `TrimHTTPBefore` deletes rows at the cutoff, not only before it
  (`HttpRollups.TrimTakesTheCutoff`).
- A poll asks the daemon for the newest 1000 lines. When more have arrived since the last
  poll, the older new ones are never stored (`LogTail.OverflowLosesLines`), and the drop
  counter of the loop does not see them. `LogTail.ReachesCovers` is the exact limit and
  `LogCollector.ExactlyOnce` says what it decides over whole runs.
- With stdout and stderr sharing a stamp, a poll can store one line twice in place of
  another (`LogStreams.TwoStreamsSwapContents`; `LogStreams.KeepsNewLines` gives the exact
  condition). The counts per stamp are safe (`LogCollector.CountsExact`).
- A pause that is left over from an earlier window makes the breaker forget the failures of
  the next one (`Guard.LeftoverPauseHidesBurst`; `Guard.WindowCountsExactly` gives the exact
  condition).
- A timing read that failed half way and is retried after the file has grown counts the
  stored part twice, since the ingest key names the end offset
  (`TimingPipeline.StraysMeans`). A record with the zero time is counted twice by a retry
  exactly when it runs in another minute (`TimingPipeline.ZeroTimeStoredTwice`).
- A process list with a reused PID can lose a parent-child mismatch that a shorter list
  shows (`Scanners.ReusedPidHidesMismatch`).
- An elapsed suppression can end without an opened report (`Findings.SilentReopening`).
- The guard of the last administrator holds for sequential runs only
  (`Admins.InterleavedRemovals`).

## Model

| member | source | states |
|---|---|---|
| `Inventory.ContainerStore.constructor` | internal/store/container_inventory.go:23-33 | a new store holds no row and no inventory state |
| `Inventory.ContainerStore.Reconcile` | internal/store/container_inventory.go:36-108 | a batch commits exactly when it is valid; the committed table is `Reconciled` of the old one, the inventory state row describes the batch, soundness is kept, and a rejected batch changes nothing |
| `Inventory.ContainerStore.SightLoop` | internal/store/container_inventory.go:84-98 | the retire-then-upsert loop computes the closed form `SightAll` |
| `Inventory.ContainerStore.Validate` | internal/store/container_inventory.go:376-391 | the one-pass check with a set of seen ids accepts exactly the batches with nonblank bounded ids and names and no repeated id |
| `Inventory.SightAllShape` | internal/store/container_inventory.go:84-157 | the loop in closed form: a batch container gets its upserted row, retired again when a later container of the batch has its name; any other current row with a batch name is retired; every other row is unchanged |
| `Inventory.ReconciledSound` | internal/store/container_inventory.go:36-108 | one batch keeps: at most one current row per name, present implies current, present exactly when there is no absence time |
| `Inventory.RunSound` | internal/store/container_inventory.go:36-157 | every run of batches, approvals, ignores, samples and retention keeps those three facts |
| `Inventory.FinalPoint` | internal/store/container_inventory.go:47-108 | the final row of every id after a batch: the sighted row, or the opened and possibly retired or replaced old row; no other id appears or vanishes |
| `InventoryRows.MissedRow` | internal/store/container_inventory.go:51-104 | the exact final row of every container that a complete batch misses, in terms of that row and the batch: what is retired, promoted, marked absent, and left alone |
| `InventoryRows.MissingStaysCurrent` | internal/store/container_inventory.go:85-104 | an absent missing container whose name is not taken stays current if and only if no container that ends up present has its nonempty service id, or both its nonempty compose project and service |
| `InventoryRows.PromotedExactly` | internal/store/container_inventory.go:51-69 | a container that a complete batch misses is missing afterwards if and only if it was before, or it was managed or approved and its absence reaches back a grace period |
| `InventoryRows.SeenRow` | internal/store/container_inventory.go:84-157 | the exact final row of every container of a batch: its columns, its class, its first and last sighting, which metrics survive, and whether a later container took its name |
| `InventoryRows.SameContainers` | internal/store/container_inventory.go:36-157 | a batch adds its own containers and no other row, and deletes none |
| `InventoryRows.Reclassified` | internal/store/security.go:104-106 | an approval or an ignore reclassifies exactly one stored row |
| `InventoryRows.SampledOrDeleted` | internal/store/fleet.go:77-84 | a live sample reaches only a current running row; retention deletes only listed rows that are neither current nor present |
| `Inventory.PresentAfterComplete` | internal/store/container_inventory.go:47-101 | after a complete batch a row is present if and only if it is a batch container whose name no later container of the batch reuses; with distinct names these are exactly the batch ids |
| `Inventory.IncompleteFrame` | internal/store/container_inventory.go:51-98 | an incomplete batch changes only its own containers and the rows that held one of its names; an empty one changes no row |
| `Inventory.ReplayIsNoOp` | internal/store/container_inventory.go:36-157 | replaying a batch at its own time changes nothing if and only if it brought no metrics for an unknown container that is not running |
| `Inventory.MissingNeedsGrace` | internal/store/container_inventory.go:51-69 | over every run, a container ends as missing only if it was expected and some complete batch came a grace period after the first complete batch that missed it since its last sighting, unless the sighting itself carried that class |
| `Inventory.OverdueWitness` | internal/store/container_inventory.go:51-69 | the missing clock names two complete batches of the run, with no sighting from the first on, whose stored times pass the text comparison of the promotion |
| `Inventory.GraceElapsed` | internal/store/container_inventory.go:61-69 | the grace period has really passed if and only if the text comparison does not misorder the miss and the cutoff; it is never short by a second or more |
| `Inventory.GraceFiresEarly` | internal/store/container_inventory.go:61-69 | for every grace period: a container first missed inside the second opened by a whole-second cutoff is promoted before its grace period is over |
| `Findings.SecurityStore.constructor` | internal/store/security.go:24-26 | a new store is the empty database |
| `Findings.SecurityStore.ValidateObservation` | internal/store/security.go:802-816 | the one-pass check of the fields and of each item of evidence |
| `Findings.SecurityStore.Evaluate` | internal/store/security.go:245-339 | an observation is evaluated exactly when its fields and evidence are within their limits; the new rows and the report are those of `Evaluated`; the episode invariant is kept; a rejected one changes nothing |
| `Findings.SecurityStore.Acknowledge` | internal/store/security.go:739-778 | succeeds exactly for a named actor and an open finding, and records the actor and the time |
| `Findings.SecurityStore.Resolve` | internal/store/security.go:739-778 | succeeds exactly for a named actor and an active finding, and stamps it resolved by that actor |
| `Findings.SecurityStore.Suppress` | internal/store/security.go:700-729 | succeeds exactly for a named actor, a reason, a future or missing end and an open or acknowledged finding, and records them |
| `Findings.SecurityStore.ExpireSuppressions` | internal/store/security.go:343-385 | opens the listed rows whose suppression has run out by stored text, and reports only rows it left open |
| `Findings.SecurityStore.ExpireRows` | internal/store/security.go:353-378 | the guarded update loop computes `ExpireAll` |
| `Findings.ExpireAllMeaning` | internal/store/security.go:343-385 | expiry opens exactly the listed rows that are suppressed and due, whatever the list order, and no other |
| `Findings.EvaluatedSound` | internal/store/security.go:245-339 | one evaluation keeps: episodes of a fingerprint differ, and an active one is the newest |
| `Findings.RunSound` | internal/store/security.go:245-385 | in every run of evaluate, acknowledge, resolve, suppress, expire and retention steps, a fingerprint has at most one active finding and its episode exceeds every other stored one |
| `Findings.ResolvedForever` | internal/store/security.go:739-778 | a resolved finding never changes again in any run; it can only be deleted, and its id never returns |
| `Findings.StepOnActive` | internal/store/security.go:267-334 | one step ends an active finding exactly by a covered negative observation of its fingerprint or an operator resolve, and counts exactly the detections |
| `FindingSteps.ActiveRow` | internal/store/security.go:267-334 | which step takes an active finding to which of the four statuses, and what it does to the other columns; in every other case they stay |
| `FindingSteps.ActiveResolution` | internal/store/security.go:309-322 | only a covered recovery or an operator stamps a resolution |
| `FindingSteps.ActiveHistory` | internal/store/security.go:700-778 | only operators write the end of a suppression and who did what |
| `FindingSteps.DetectionKeepsStatus` | internal/store/security.go:284-299 | a detection keeps an acknowledged finding acknowledged and a suppressed one suppressed until its end, with the same end and history |
| `FindingSteps.NewRow` | internal/store/security.go:300-307 | a new finding is the observation as the next episode: one more than a stored one and larger than all, or the first |
| `FindingSteps.SleepLaw` | internal/store/security.go:273-322 | one step ends a suppression if and only if it is a recovery, a resolve, an evaluation at or after its end, or an expiry |
| `FindingSteps.SuppressionLasts` | internal/store/security.go:245-385 | through every run a suppression lasts, with the same end, reason and actor, exactly until such a step |
| `FindingSteps.DueMeans` | internal/store/security.go:343-385 | an expiry is due exactly when the end has come, up to the order of trimmed texts within one second |
| `Findings.NoCoverageNoRecovery` | internal/store/security.go:309-322 | an observation without coverage never resolves a finding and never reports recovery |
| `Findings.OccurrencesCountDetections` | internal/store/security.go:284-307 | in every run, a stored finding's occurrence count equals the number of detected evaluations of its fingerprint while its episode was active |
| `Findings.OpenedMeans` | internal/store/security.go:267-307 | an opened report is made if and only if a detection finds no active finding or one whose suppression has elapsed, and it leaves an open finding |
| `Findings.OpenedOnce` | internal/store/security.go:267-334 | between two opened reports of one fingerprint lies a recovery, an operator resolve, or a suppression that had run out by the second report |
| `Findings.SilentReopening` | internal/store/security.go:273-281 | an elapsed suppression seen by a negative uncovered observation becomes open without an opened report |
| `Scanners.EvaluateProcesses` | internal/service/security_process.go:222-263 | the two loops report exactly the first-match and any-match verdicts of `ProcessVerdicts` |
| `Scanners.MatchProcesses` | internal/service/security_process.go:229-243 | the first pass finds the parents map, where the last row of a PID wins, and the first matches |
| `ScannerRules.KernelRule` | internal/service/security_process.go:222-263 | the kernel-like rule fires if and only if some command stands in brackets |
| `ScannerRules.RiskRule` | internal/service/security_process.go:222-281 | the high-risk rule fires if and only if some command runs from a temporary place or a local bin directory and is not allowed; its evidence is the first one |
| `ScannerRules.MismatchRule` | internal/service/security_process.go:235-263 | the parent-child rule fires if and only if a root process has a parent row, the last one with that PID, that is not root |
| `ScannerRules.LocalRule` | internal/service/security_diff.go:204-244 | a file in a local program directory was added or modified outside the allowed paths |
| `ScannerRules.ProgramRule` | internal/service/security_diff.go:204-312 | a program was added where programs run from, outside the allowed paths; its evidence is the first one |
| `ScannerRules.SystemRule` | internal/service/security_diff.go:204-321 | a system or application file was modified or deleted outside the allowed paths |
| `ScannerRules.WithinMeans` | internal/service/security_diff.go:297-300 | a path is within a prefix if and only if it is the prefix or lies below it, whether or not the prefix ends in a slash |
| `ScannerRules.CorrelationRule` | internal/service/security_diff.go:248-276 | the correlation fires if and only if the first risky command is the first added program, and is covered only when both scans are |
| `ScannerRules.ScanRules` | internal/service/security_diff.go:157-201 | a scan that is told to back off evaluates nothing, a failed one evaluates every rule without rows and coverage |
| `ScannerRules.ObservationMeans` | internal/service/security_process.go:265-276 | each verdict is evaluated under its container, rule and baseline, with its category and severity |
| `ScannerRules.SpikeMeans` | internal/service/security_process.go:213 | a spike is at least three times the first count and at least twenty more |
| `Scanners.EvaluateLayerChanges` | internal/service/security_diff.go:204-244 | the single loop with three first-match variables reports the verdicts of `LayerVerdicts` |
| `Scanners.PartialProcessScanResolvesNothing` | internal/service/security_process.go:171-199 | a process scan that failed, was told to back off or was cut short resolves no finding |
| `Scanners.PartialLayerScanResolvesNothing` | internal/service/security_diff.go:157-201 | the same for a layer scan, correlation included |
| `Scanners.PartialProcessesKeepCorrelation` | internal/service/security_diff.go:248-264 | a complete layer scan beside a partial or failed process list never resolves a correlation finding |
| `Scanners.StaysActive` | internal/service/security_diff.go:190-201 | evaluating any list of verdicts that are detected or uncovered for a rule keeps every active finding of the rule active |
| `Scanners.TruncationKeepsProcessDetections` | internal/service/security_process.go:222-263 | every process rule but the spike that fires on a truncated list also fires on the full one when PIDs are unique |
| `Scanners.TruncationKeepsLayerDetections` | internal/service/security_diff.go:204-244 | every layer rule that fires on a truncated list also fires on the full one |
| `Scanners.TruncationKeepsCorrelation` | internal/service/security_diff.go:248-276 | a correlation found on two truncated lists is found on the full ones |
| `Scanners.MismatchStable` | internal/service/security_process.go:235-250 | the parent-child rule survives more rows as long as none of them reuses a kept PID |
| `Scanners.ReusedPidHidesMismatch` | internal/service/security_process.go:227-250 | without unique PIDs it does not: a concrete list where a cut-off row hides the mismatch |
| `Scanners.FirstStable` | internal/service/security_diff.go:210-230 | more rows never change a first match |
| `Scanners.ProcessScanner.constructor` | internal/service/security_process.go:54-72 | a new scanner remembers the empty history of every container |
| `Scanners.ProcessScanner.ObserveCount` | internal/service/security_process.go:201-219 | the maps hold the first complete count and the current streak of spikes; a spike is sustained exactly from the second complete spiking snapshot in a row on; other containers are untouched |
| `Scanners.SustainedMeansTwo` | internal/service/security_process.go:208-219 | sustained means that the last two complete snapshots both spike against the first one |
| `LogCursor.ScanKept` | internal/service/log_collector.go:543-577 | for any response order, how many lines of each stamp one poll keeps |
| `LogCursor.ScanMax` | internal/service/log_collector.go:543-589 | for any response order, the cursor after a poll is the largest stamp and the number of lines kept at it |
| `LogCursor.ClipMeans` | internal/service/ingest.go:240-257 | a message keeps at most its first 8192 characters, and nothing else of a line changes |
| `LogCursor.PollCounts` | internal/service/log_collector.go:543-577 | whatever order the answer has, a poll that covers the new lines brings the number of stored lines of each stamp up to that of the log |
| `LogCursor.PollCursor` | internal/service/log_collector.go:579-589 | after such a poll the cursor stands at the end of the log |
| `LogCursor.ScanInOrder` | internal/service/log_collector.go:543-577 | for an answer in log order that covers the new lines, a poll keeps exactly the lines after the cursor, in order, clipped |
| `LogCursor.CursorInOrder` | internal/service/log_collector.go:543-589 | when a source answers with more lines than it was asked for and the loop stops early, the cursor counts exactly the lines read, so the others stay new |
| `LogStreams.BlocksPermute` | internal/docker/logs.go:58-77 | the stdout block followed by the stderr block holds the same lines |
| `LogStreams.BlocksOrder` | internal/docker/logs.go:58-77 | all stdout lines of an answer come before all stderr lines |
| `LogStreams.OneStreamInOrder` | internal/docker/logs.go:58-77 | a single stream is answered in order |
| `LogStreams.SkippedFirst` | internal/service/log_collector.go:555-558 | what the boundary count passes over are the first lines of the answer with the cursor's stamp |
| `LogStreams.KeepsNewLines` | internal/service/log_collector.go:543-577 | for every order of an answer, a poll keeps exactly the new lines, contents included, if and only if the first lines it finds at the cursor's stamp are the ones already kept there |
| `LogStreams.OneStreamAtStamp` | internal/service/log_collector.go:543-577 | it does so whenever all lines with the cursor's stamp belong to one stream, however the other lines are mixed |
| `LogStreams.TwoStreamsSwapContents` | internal/service/log_collector.go:543-577 | otherwise it may not: a concrete pair of polls stores one line twice and the other never |
| `LogTail.ReachesCovers` | internal/service/log_collector.go:491 | the newest 1000 lines cover the new ones exactly when at most 1000 lines are new and, if the next line shares the cursor's stamp, at most 1000 are not older than it |
| `LogTail.PollAtMost` | internal/service/log_collector.go:483-577 | from any cursor that earlier losses may have left, a poll never keeps more lines than are new |
| `LogTail.PollKeepsAll` | internal/service/log_collector.go:483-577 | it keeps all of them if and only if the answer reaches back to them |
| `LogTail.PollNear` | internal/service/log_collector.go:579-589 | after every poll, lossy or not, the cursor has the last stamp, and its boundary is the number of lines there or a full answer |
| `LogTail.OverflowLosesLines` | internal/service/log_collector.go:491 | the first poll of any longer single-stream log stores its newest 1000 lines, and no later poll keeps a line older than the newest of them |
| `LogCollector.TailKeep.constructor` | internal/service/log_collector.go:534-541 | a poll starts from the loaded cursor |
| `LogCollector.TailKeep.Offer` | internal/service/log_collector.go:543-577 | one daemon line advances the state and grows the batch as `Advance` and `NewLines` say |
| `LogCollector.Collector.constructor` | internal/service/log_collector.go:90-105 | a new collector knows no cursor |
| `LogCollector.Collector.TailLines` | internal/service/log_collector.go:483-532 | the capped loop over a response computes `Scan` |
| `LogCollector.Collector.TailOne` | internal/service/log_collector.go:483-532 | the loaded cursor, a failed call and a response, each as `TailRows` and `TailCursor` say |
| `LogCollector.Collector.TailManaged` | internal/service/log_collector.go:412-470 | the batch and the pending cursors of a cycle |
| `LogCollector.Collector.Collect` | internal/service/log_collector.go:352-437 | a whole cycle: rows, memory cursors and durable cursors as `Collected` says of the stamped answers, and of the answers themselves when all lines carry stamps; a failed insert advances nothing |
| `LogCollector.Collector.CollectInRun` | internal/service/log_collector.go:352-437 | a cycle of the collector over honest answers continues any run of a container that led to its state; when it is stored, the table holds exactly the log of a single-stream container if and only if every answer reached back |
| `LogCollector.StampMeans` | internal/service/log_collector.go:544-547 | only a missing stamp becomes the time of the poll, and nothing else of a line changes |
| `LogCollector.StampedCycle` | internal/service/log_collector.go:544-547 | a cycle whose lines all carry stamps is the run's step on the same answers |
| `LogCollector.CycleInRun` | internal/service/log_collector.go:352-437 | what the runs keep holds of stamped cycles: honest answers stay honest and the run goes on |
| `LogCollector.SortKeepsLines` | internal/service/log_collector.go:386-400 | the stable sort of a batch keeps each container's lines in order when they were in order |
| `LogCollector.SortCounts` | internal/service/log_collector.go:386-400 | sorting a batch loses and repeats no line of any container or stamp |
| `LogCollector.StoreStep` | internal/service/log_collector.go:352-400 | one stored answer: how many lines it adds, and exactly when one is lost |
| `LogCollector.RunTally` | internal/service/log_collector.go:352-400 | in every run a container is in one of two cases: nothing was lost, or fewer lines are stored than its answers covered |
| `LogCollector.ExactlyOnce` | internal/service/log_collector.go:352-400 | over every run of polls, failed polls, failed inserts, vanishing containers and restarts, and whatever other containers do: the stored lines of a single-stream container are its log up to the last stored answer, each line once and in order, if and only if every stored answer reached back to the one before it |
| `LogCollector.CountsExact` | internal/service/log_collector.go:352-400 | with two streams the same condition decides whether the number of stored lines of every stamp is that of the log |
| `LogCollector.CaughtUp` | internal/service/log_collector.go:352-400 | a stored answer brings the table up to the whole log if and only if it and every one before it reached back far enough |
| `LogSearch.SearchLevels` | internal/service/log_collector.go:287-329 | the paged search returns exactly the first `limit` level matches among the newest 20,000 rows of the base filter |
| `LogSearch.MatchPage` | internal/service/log_collector.go:310-320 | the inner loop appends the matches of a page up to the limit |
| `LogSearch.FilterMembers` | internal/store/logs.go:96-133 | the base filter keeps exactly the matching rows, newest first |
| `LogSearch.PageBound` | internal/store/logs.go:96-133 | bounding the page by an id cuts the filtered rows at one place |
| `LogSearch.PageIsSlice` | internal/store/logs.go:96-155 | keyset paging: each page is the next slice of the filtered rows |
| `Histogram.HTTPHistogram.constructor` | internal/model/performance.go:7-12 | a new histogram has zero counters |
| `Histogram.HTTPHistogram.Observe` | internal/model/performance.go:15-24 | observing a duration turns the counters of any list into those of the list with the duration added |
| `Histogram.HTTPHistogram.Merge` | internal/model/performance.go:27-31 | merging adds counter by counter |
| `Histogram.PrefixCounts` | internal/model/performance.go:15-24 | the first counters count the durations up to a bound, all ten count them all |
| `Histogram.MergeIsConcat` | internal/model/performance.go:27-31 | merging the counters of two lists is observing both lists |
| `Histogram.HistogramPercentile` | internal/service/performance.go:475-493 | the two loops compute `Percentile` |
| `Histogram.PercentileAnswers` | internal/service/performance.go:475-493 | for every list and quantile, the percentile of the counters is the least bound b such that the number of durations up to b is at least q times their number, or 5000 when no bound is |
| `Histogram.TargetMeans` | internal/service/performance.go:483 | a count reaches the rounded-up target if and only if it reaches the fraction itself |
| `Histogram.PercentileMonotone` | internal/service/performance.go:475-493 | larger quantiles never report smaller latencies |
| `HttpSummary.Accumulate` | internal/service/performance.go:456-466 | however the requests were split into buckets, the loop recovers the count, the sum and the counters of the whole list |
| `HttpSummary.SummarizeHTTP` | internal/service/performance.go:456-473 | the summary states the exact count and mean and the percentiles of the whole list, with P50 <= P95 <= P99 |
| `HttpSummary.PlusFilled` | internal/store/performance.go:66-125 | adding buckets in the store keeps them filled from the requests of both |
| `HttpRollups.PerformanceStore.constructor` | internal/store/performance.go:22-24 | a new store is empty |
| `HttpRollups.PerformanceStore.UpsertHTTP` | internal/store/performance.go:38-138 | an upsert succeeds exactly when the bucket is valid and the database commits, and then adds it to its minute, its hour and the markers unless its marker is known |
| `HttpRollups.PerformanceStore.RollupHTTP` | internal/store/performance.go:190-227 | the complete hours of a range are replaced by the sums of their minutes; an empty range is refused |
| `HttpRollups.UpsertInStep` | internal/store/performance.go:38-138 | adding a bucket to its minute and to its hour keeps every hour equal to the sum of its minutes |
| `HttpRollups.RollupRepairs` | internal/store/performance.go:190-227 | after a rollup every hour of the range is the sum of its minutes, whatever was stored there, and no other hour changes |
| `HttpRollups.RollupIsNoOp` | internal/store/performance.go:190-227 | recomputing hours that are in step changes nothing |
| `HttpRollups.TrimInStep` | internal/store/performance.go:230-246 | trimming whole hours below leaves the hours above in step |
| `HttpRollups.ReplayAfterTrim` | internal/store/performance.go:230-246 | a trim forgets the markers below its cutoff and only those: a replay of a known bucket changes nothing if and only if its minute was not trimmed |
| `HttpRollups.TrimmedRow` | internal/store/performance.go:230-246 | the listed minute rows below the cutoff go, every other row stays |
| `HttpRollups.TrimTakesTheCutoff` | internal/store/performance.go:230-246 | the trim compares a nine-digit text with a trimmed one: it deletes a minute row if and only if its time is at most the cutoff, the cutoff included |
| `HttpRollups.RunInStep` | internal/store/performance.go:38-246 | through every run of upserts, replays, rollups and trims, each hour above the trimmed ones equals the sum of its minutes |
| `HttpRollups.RecomputingIsNoOp` | internal/store/performance.go:190-227 | so recomputing any range above the trimmed hours changes nothing at any moment |
| `HttpRollups.MarkersAre` | internal/store/performance.go:46-62 | the markers are exactly the (ingest key, bucket key) pairs of the valid calls |
| `HttpRollups.StoredOnce` | internal/store/performance.go:38-138 | after any calls, replays included, every minute row is the sum of the first valid call of each marker |
| `HttpRollups.ReplaysAreHarmless` | internal/store/performance.go:38-138 | replaying past calls in any order and number changes nothing |
| `HttpRollups.UpsertTotals` | internal/store/performance.go:38-138 | an upsert adds its requests once to the minutes and once to the hours, and a replay adds none |
| `TimingTail.ReadSlice` | internal/nginxlog/tailer.go:134-163 | a fragment ends at a newline, a full buffer of 65,536 bytes or the end of the file |
| `TimingTail.ReadTimingLine` | internal/nginxlog/tailer.go:134-163 | reads exactly up to the next newline; a line is oversized exactly when it is longer than the buffer, newline included; without a newline it reports the end |
| `TimingTail.ReadLines` | internal/nginxlog/tailer.go:81-121 | every line between start and end became, in order, an observation or a drop, and the end is that of at most `limit` complete lines |
| `TimingTail.ReadRecord` | internal/nginxlog/tailer.go:86-119 | one line is an observation, or a drop when it is oversized or does not parse |
| `TimingTail.ReadAtMost` | internal/nginxlog/tailer.go:81 | a read takes at most its limit of lines |
| `TimingTail.Tailer.constructor` | internal/nginxlog/tailer.go:30-35 | a tailer starts from the loaded cursor |
| `TimingTail.Tailer.Read` | internal/nginxlog/tailer.go:40-126 | a replaced or shrunken file restarts at offset 0 with one drop each; then at most 10,000 lines are consumed; the tailer itself does not move |
| `TimingTail.Tailer.Acknowledge` | internal/nginxlog/tailer.go:130-132 | the cursor moves only here |
| `TimingTail.OneLine` | internal/nginxlog/tailer.go:86-119 | one complete line adds its observation, if any, and ends on a boundary |
| `TimingTail.AppendKeeps` | internal/nginxlog/tailer.go:38-39 | appending to the file changes nothing before its old end |
| `TimingTail.ReadEndBoundary` | internal/nginxlog/tailer.go:86-121 | a read that starts on a line boundary ends on one |
| `TimingTail.ReadEndGrows` | internal/nginxlog/tailer.go:81-121 | a read of a longer file never ends earlier |
| `TimingPipeline.AggregateHTTP` | internal/service/performance_collector.go:299-330 | the loop computes `Aggregate` |
| `TimingPipeline.RowDescribes` | internal/service/performance_collector.go:299-330 | a bucket exists at a minute and its columns if and only if some observation has that method, route, upstream and status class in that minute, or has the zero time and the minute is the collector's; its count, errors, sums and histogram are those of exactly these observations |
| `TimingPipeline.RowFilled` | internal/service/performance_collector.go:299-330 | every bucket is filled from the durations of its own requests, as the summary needs it |
| `TimingPipeline.AggregateTotal` | internal/service/performance_collector.go:299-330 | aggregation neither loses nor repeats a request |
| `TimingPipeline.KeysDiffer` | internal/service/performance_collector.go:322 | ingest keys of different end offsets differ |
| `TimingPipeline.DecimalMeans` | internal/service/performance_collector.go:322 | the offset in the key is written in decimal digits without leading zeros |
| `TimingPipeline.BucketsValid` | internal/store/performance.go:593-603 | every bucket of accepted lines is valid if and only if the collector's own service, environment and key are: the store refuses no accepted line |
| `TimingPipeline.WriteMany` | internal/service/performance_collector.go:271-276 | any number of bucket writes moves requests from outstanding to stored, none twice, however many were already there |
| `TimingPipeline.AllLanded` | internal/service/performance_collector.go:271-276 | when every bucket was written, every bucket is marked, whatever the map order |
| `TimingPipeline.Attempt` | internal/service/performance_collector.go:265-288 | acknowledged plus pending requests after an attempt are those before it plus the buckets marked under its key |
| `TimingPipeline.CollectExcess` | internal/service/performance_collector.go:265-288 | an attempt shifts the excess of stored requests by what the last attempt had stored, less what this one recognises of it |
| `TimingPipeline.RunPlaced` | internal/nginxlog/tailer.go:63-126 | through every run the acknowledged offset is 0 or just after a newline, and every marker ends at or before the last read |
| `TimingPipeline.TotalsExact` | internal/service/performance_collector.go:265-330 | through every run, for every parser and however appends and the record cap split the reads, the stored total is at every moment the number of well-formed complete lines before the acknowledged offset plus the stored part of a pending read if and only if no attempt strayed from what the last one had stored |
| `TimingPipeline.StraysMeans` | internal/service/performance_collector.go:299-330 | a retry in the same minute, or of dated records, strays exactly when the file grew into its read after part of it was stored |
| `TimingPipeline.ExcessGrows` | internal/service/performance_collector.go:265-330 | while the records of the file are dated, requests are only ever stored twice, and the total is exact if and only if no partly stored read was retried at another end |
| `TimingPipeline.ExactWhenAcknowledged` | internal/service/performance_collector.go:265-288 | when a read of dated records is acknowledged, the total request count equals the number of well-formed complete lines before the offset, under exactly that condition |
| `TimingPipeline.ZeroTimeStoredTwice` | internal/service/performance_collector.go:302-305 | a record with the zero time is stored again by a retry if and only if the retry runs in another minute |
| `TimingPipeline.HTTPCollector.constructor` | internal/service/performance_collector.go:100-121 | a collector holds its configuration, source and store |
| `TimingPipeline.HTTPCollector.WriteBuckets` | internal/service/performance_collector.go:271-276 | bucket after bucket is upserted until one fails |
| `TimingPipeline.DropsNeverFall` | internal/service/performance_collector.go:290-297 | the drop count is the larger of the stored one and the new one capped at a billion |
| `TimingPipeline.HTTPCollector.CollectHTTP` | internal/service/performance_collector.go:265-297 | one collection is one step of the runs above, from the offset a replaced or shrunken file starts at; the cursor moves only after every bucket and the cursor are stored, with drops capped and never below the persisted ones |
| `Guard.RequestGuard.constructor` | internal/docker/guard.go:44-67 | nonpositive limits become 2 permits, 3 failures and one minute; the breaker starts closed |
| `Guard.RequestGuard.IsOpen` | internal/docker/guard.go:96-119 | open exactly while a pause is running; what has elapsed is cleared |
| `Guard.RequestGuard.Record` | internal/docker/guard.go:121-143 | a counted failure extends or restarts the window and sets the pause at the limit; a success or a cancelled call changes nothing |
| `Guard.RunPermits` | internal/docker/guard.go:69-94 | under every interleaving the permits held are exactly the callers between grant and release, never more than the limit |
| `Guard.ReturnNeverBlocks` | internal/docker/guard.go:82-92 | a caller that must return its permit never blocks on the channel |
| `Guard.NeverStuck` | internal/docker/guard.go:69-94 | while a call is unfinished, some caller can move on without being cancelled |
| `Guard.ReturnedOnce` | internal/docker/guard.go:87-93 | each call is granted at most one permit and returns it exactly once, however often its done callback runs |
| `Guard.RunGrounded` | internal/docker/guard.go:96-143 | in every run the failure window holds the latest counted failures, all within one cooldown of its start |
| `Guard.PauseNeedsFailures` | internal/docker/guard.go:121-143 | a pause is set or moved only by a counted failure, and only when the last `limit` counted failures lie within less than one cooldown of it |
| `Guard.WindowCountsExactly` | internal/docker/guard.go:96-143 | until one cooldown after the failure that starts a window, under every interleaving, the breaker has counted every failure if and only if no check fell at or after the end of a pause set before the window while the count was below the limit; while it counts them all it blocks from the limit on |
| `Guard.ClearedIsShort` | internal/docker/guard.go:96-143 | a window that was cleared never catches up with its failures |
| `Guard.UnpausedWindowOpensAtLimit` | internal/docker/guard.go:121-143 | a window that starts with no pause set, fresh or after an expired one, blocks exactly from the limit on |
| `Guard.LeftoverPauseHidesBurst` | internal/docker/guard.go:96-143 | a run of six calls in which three fail within four seconds and the breaker stays closed, because a check forgot the first of them with an old pause |
| `Guard.PausePersists` | internal/docker/guard.go:96-143 | a pause once set is never shortened or forgotten before it ends |
| `Guard.AdmittedAfterPauses` | internal/docker/guard.go:81-85 | no call is admitted before the end of any pause set before it |
| `Guard.RefusedAtOnce` | internal/docker/guard.go:69-72 | a call that comes during a pause is refused at once and touches nothing |
| `Calendar.DateOfInverse` | internal/store/time.go:34-45 | the civil date of a day number names that day |
| `Calendar.DayNumberMonotone` | internal/store/time.go:34-45 | later civil dates have larger day numbers |
| `Calendar.YearsClosed` | internal/store/time.go:34-45 | days are counted by the Gregorian rule: a leap day every four years, none in a century year, one in every fourth century |
| `Calendar.MonthLengths` | internal/store/time.go:34-45 | the lengths of the months |
| `StoredTime.FixedTextOrder` | internal/store/time.go:38-45 | for all instants in years 0 to 9999 the byte order of the nine-digit texts is time order (section 5.1 of RFC 3339) |
| `StoredTime.TrimmedTextOrder` | internal/store/time.go:34-36 | the trimmed texts of two instants are misordered if and only if they share a second and the digits of the earlier are a prefix of those of the later |
| `StoredTime.TextAtMostMeaning` | internal/store/time.go:34-36 | exactly what `column <= ?` on trimmed texts decides; it is exact between different seconds |
| `StoredTime.SecondsDecide` | internal/store/time.go:34-45 | between different seconds every mix of the two formats sorts like the instants |
| `StoredTime.WholeSecondSortsLast` | internal/store/time.go:34-36 | the trimmed text of a whole second sorts after every other text of that second |
| `StoredTime.FixedBeforeTrimmed` | internal/store/performance.go:230-246 | a whole-second nine-digit text sorts before a trimmed text if and only if its instant is not later |
| `StoredTime.TrimmedBeforeFixed` | internal/store/maintenance.go:353-356 | a trimmed column sorts before a nine-digit cutoff if and only if its instant is earlier and, within one second, its digits do not begin the cutoff's |
| `TimeTexts.SecondSays` | internal/store/time.go:34-45 | the text of a whole second holds year, month, day, hour, minute and second in the layout of section 5.6 of RFC 3339 |
| `TimeTexts.ReadsBack` | internal/store/time.go:9-45 | both formats are read back to the instant they were written from, for all instants in years 0 to 9999 |
| `Escaping.EscapeHead` | internal/store/sdk_logs.go:168-174 | the three chained replacements escape each metacharacter once and nothing else |
| `Escaping.LikePrefix` | internal/store/sdk_logs.go:168-174 | an escaped query followed by a percent sign matches exactly the texts that begin with it, up to ASCII case |
| `Escaping.LikeIsSubstring` | internal/store/sdk_logs.go:158-174 | for every query and message the stored predicate matches if and only if the query occurs literally in the message up to ASCII case |
| `Escaping.FoldMeans` | internal/store/sdk_logs.go:158-165 | what the comparison takes for the same character: itself, or the other case of an ASCII letter |
| `Escaping.SanitizeFTS` | internal/store/logs.go:295-308 | the loop joins the quoted fields with AND, and reports no expression exactly when there is no field |
| `Escaping.QuotedBack` | internal/store/logs.go:303-305 | a doubled and quoted field lexes back to itself and ends at its own closing quote |
| `Escaping.FieldsLex` | internal/store/logs.go:295-308 | lexing the whole expression gives back exactly the fields, quotes included |
| `Escaping.FieldsSurvive` | internal/store/logs.go:295-308 | SQLite lexes the expression back to exactly the fields, joined by AND, if and only if no field holds a NUL |
| `Escaping.FieldsAreWords` | internal/store/logs.go:296 | the fields hold no white space and together spell the query without its white space |
| `Escaping.FieldsWoven` | internal/store/logs.go:296 | the query is its fields with white space around and nonempty white space between them: they are the longest runs |
| `Escaping.NoFieldsWhenBlank` | internal/store/logs.go:297-299 | there is no field exactly for a blank query |
| `LineWriter.Writer.constructor` | internal/service/cutover.go:879-883 | a new writer has emitted nothing |
| `LineWriter.Writer.Write` | internal/service/cutover.go:886-903 | after any write the emitted lines and the buffer are those of the whole stream so far |
| `LineWriter.Writer.Flush` | internal/service/cutover.go:906-914 | a partial line is emitted as a line, and a flush of an empty buffer emits nothing |
| `LineWriter.LinesSpell` | internal/service/cutover.go:886-903 | the lines, each followed by a newline, and then the buffer concatenate to the stream |
| `LineWriter.LinesPlain` | internal/service/cutover.go:892-900 | neither the lines nor the buffer hold a newline |
| `LineWriter.LinesUnique` | internal/service/cutover.go:886-903 | no other lines and tail spell the stream |
| `LineWriter.ChunksDoNotMatter` | internal/service/cutover.go:886-903 | however a stream is cut into writes, lines and buffer depend only on the stream |
| `Alerts.Sampler.constructor` | internal/service/resources.go:92-119 | a new sampler remembers no breach |
| `Alerts.Sampler.EvaluateThreshold` | internal/service/resources.go:296-326 | one evaluation of a rule: whether it fires or fails to, the new entry, and no other rule's entry changes |
| `Alerts.FiresExactly` | internal/service/resources.go:296-326 | in every trace of any rules with positive durations, a rule fires exactly at the first storable evaluation of a maximal breaching run whose distance from the start of the run reaches the duration; failed inserts keep the start |
| `Alerts.FiresOncePerRun` | internal/service/resources.go:307-319 | between two alerts of one rule some evaluation of it did not breach |
| `Alerts.EntryRemembers` | internal/service/resources.go:296-326 | the entry of a rule always holds the start of its current breaching run and whether it has fired |
| `Admins.Users.constructor` | internal/service/users.go:46-48 | a service works on the stored accounts |
| `Admins.Users.CreateUser` | internal/service/users.go:51-80 | an account is created exactly when actor, name, uniqueness, role and password pass, in that order of errors |
| `Admins.Users.RequireAnotherAdmin` | internal/service/users.go:342-357 | refuses exactly an enabled administrator when there is at most one |
| `Admins.Users.ChangeRole` | internal/service/users.go:132-171 | the error and the new rows of a role change |
| `Admins.Users.ChangePassword` | internal/service/users.go:174-211 | the error and the new rows of a password reset |
| `Admins.Users.ChangeDisabled` | internal/service/users.go:214-259 | the error and the new rows of locking or unlocking |
| `Admins.Users.Remove` | internal/service/users.go:262-288 | the error and the new rows of a deletion |
| `Admins.Users.EnsureAdmin` | internal/service/users.go:295-338 | leaves an enabled administrator or fails only for a bad password with none; seeds exactly when there was none and touches no account but the bootstrap one |
| `Admins.GuardIsExact` | internal/service/users.go:342-357 | a change is refused by the guard if and only if it would leave no enabled administrator |
| `Admins.AcceptedMeans` | internal/service/users.go:51-288 | an accepted operation changes one account, and of it only what the operation is for; a new account is enabled and has the role asked for |
| `Admins.RunKeeps` | internal/service/users.go:51-288 | once seeded, every sequential run of create, role, password, disable, enable and delete keeps an enabled administrator and unique names |
| `Admins.InterleavedRemovals` | internal/service/users.go:262-288 | two removals whose checks both ran before either write leave no administrator: the claim is sequential only |

## Left out

- StoredTime.FixedTextOrder: years outside 0 to 9999 are not modelled, since their texts have another length.
- Inventory.GraceElapsed: times in years 0 to 9999.
- Inventory.ContainerStore.Reconcile: columns copied verbatim travel as one `details` value, sizes of texts are counted in characters, and a database error inside the transaction is not a step of its own.
- Inventory.MissingNeedsGrace: a batch that itself carries the missing class for a container is admitted as a second cause.
- Findings.SecurityStore.Evaluate: an observation without a time is stamped by its caller, the size of the encoded evidence is a parameter, and notification, transition and audit rows written beside a finding are not modelled; the fingerprint hash is the hashed tuple.
- Findings.SecurityStore.ExpireSuppressions: the list of candidate ids is any list, since it is read outside the transaction.
- Scanners.EvaluateProcesses: only the evidence that the correlation rule compares is kept in a verdict.
- Scanners.EvaluateLayerChanges: the change counts per kind, which are evidence only, are not modelled.
- Scanners.StaysActive: every verdict of a scan is taken as a valid observation.
- LogCollector.ExactlyOnce: stamps that never go back, one poll of the container a cycle, no crash between insert and cursor write, and a cursor write that succeeds; the daemon skips only lines older than the cursor before it cuts to the newest.
- LogStreams.KeepsNewLines: one poll; over runs with two streams only the counts per stamp are stated.
- LogCollector.Collector.Collect: loss counters, log volume buckets and the cap on stored rows are not modelled; messages are clipped by characters.
- LogSearch.SearchLevels: the full-text match and the level parser are any predicates on rows.
- HttpSummary.SummarizeHTTP: floating point sums and quantile products are exact reals.
- HttpRollups.PerformanceStore.UpsertHTTP: the bucket key hash is the hashed tuple, sums are exact reals, and negative counts cannot be given.
- HttpRollups.StoredOnce: upserts only, since a trim also removes the markers below its cutoff.
- HttpRollups.TrimInStep: which rows a limited trim picks is any choice.
- TimingTail.Tailer.Read: open, stat and read errors and cancellation return before the cursor moves and are not steps; time stamps and error texts of the cursor are not modelled; lengths are characters of a byte string.
- TimingPipeline.TotalsExact: one append-only file under one identity, and a cursor write that reports its outcome truthfully; a truncated or replaced file restarts the count and is only covered by `TimingTail.Tailer.Read`.
- Guard.RunPermits: each channel operation and each locked section is one step; the deadline of a call and the value it returns are not modelled.
- Guard.AdmittedAfterPauses: the clock never runs backwards.
- Escaping.LikeIsSubstring: texts with a NUL character and SQLite's limit on pattern length are not modelled.
- Escaping.FieldsLex: the lexer covers quoted strings, barewords and AND, which is all that the expression can hold.
- Alerts.FiresExactly: rule metrics are already compared with their threshold; rules are created with positive durations only.
- Admins.RunKeeps: an audit failure after the write reports an error but keeps the write, so it is the same step; password hashing is the identity.
- Request handling, sessions, server-sent events and the web interface: plumbing over the services modelled here.
- Docker, PostgreSQL, Redis, backups, deploy scripts and `/proc` readers: foreign calls whose behaviour is not visible here.
- JSON decoding, message templating by regular expressions, bcrypt and SHA-256: library behaviour, taken as given or as injective.
- The security log tailer: the same algorithm as the nginx tailer.
- Log volume buckets and native metric buckets: the same additive upsert, or plain replacement.
- Configuration parsing, onboarding suggestions and plain list and insert stores: each claim can be read off one branch.
