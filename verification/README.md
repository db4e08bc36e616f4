# Smart Energy Grid: a verified model

The Smart Energy Grid is a pipeline of TypeScript services: a meter simulator posts readings in batches, an ingestion
service deduplicates them, a stream processor aggregates them into 1-minute and 15-minute windows and flushes these to
TimescaleDB, and alert, tariff, notification and billing services work on the results. This project models the state
machines inside those services in Dafny, with Redis as maps of keys with expiry instants and database tables as maps or
sequences of rows, and proves what they keep.

| files | part of the system |
|---|---|
| `arithmetic.dfy`, `text.dfy`, `iso_time.dfy` | laws of products; numbers, padding and splitting of strings; the calendar, ISO time keys and time buckets |
| `windows.dfy`, `aggregator.dfy`, `regional.dfy` | windows as folds of readings, the aggregator service, the regional roll-up |
| `flush.dfy`, `flush_runs.dfy`, `flush_controller.dfy` | the flush protocol as a state machine, its runs, and the controller that follows it |
| `dedupe.dfy`, `sender.dfy` | ingestion deduplication, and the retrying batch sender in front of it |
| `overload_window.dfy`, `alert_markers.dfy`, `overload_check.dfy`, `meter_outages.dfy`, `alert_lifecycle.dfy` | the alert engine |
| `sql_text.dfy`, `sql_clauses.dfy`, `alert_queries.dfy`, `alert_update.dfy`, `batch_upsert.dfy` | the dynamic SQL statements, read back from their text |
| `subscriptions.dfy` | the WebSocket subscription index |
| `tariff_calculator.dfy`, `tariff_cache.dfy`, `tariff_service.dfy` | prices, and the price cache against the tariff table |
| `anomaly.dfy` | the anomaly baseline |
| `meter_assignment.dfy` | the meter allocator |
| `billing_period.dfy`, `billing.dfy`, `billing_cost.dfy`, `billing_outcomes.dfy`, `billing_ledger.dfy`, `billing_service.dfy`, `csv.dfy` | billing and its CSV export |

Services whose methods update fields are classes; each method is proved against a function of the old state, and the
lemmas are about that function. `dafny verify dfyconfig.toml` checks everything.

## Where the code keeps its promise only under a condition

Each of these is proved with the exact condition or a concrete counterexample.

- A reading for a bucket that is already over and was empty when the flush collected is lost by the clear, even if the
  clock stands still and the bucket was never persisted (`ClosedBucketReadingLoses`); `StepExact` and `RunExact` of the
  flush give the exact condition, step by step and over runs.
- An upsert that is applied but reported as failed leaves rows and windows counted twice (`SumExact`); the next flush that
  is applied sets the counts right if and only if all of them are over by the bucket it collects at (`FlushRestoresSum`).
- Deduplication accepts a key once if and only if no copy arrives a TTL or more after the first (`AcceptedOnce`). Through
  the retries of one send that is certain if and only if the span of a batch's attempts, times one more than the rounds of
  the concurrency limiter between the first and the last batch with the key, is below the TTL (`AtMostOnceExact`). The
  default settings give a span of 93 s against a TTL of 60 s (`DefaultsMissTheBound`).
- The default channels of a user whose region or meter id contains a colon are refused (`DefaultsGranted`).
- A published price of 0 is falsy: the next update starts from the base price instead (`ChainExact`, `HeldExact`).
- Ties of effective_from apart, the price cache goes wrong exactly when an insert is not newer than a latest row with another
  price, an override has more than four decimals, the last row of a region is removed while its cache entry lives, or a change of the
  price in force is not followed by a cache write because a call in between throws (`TariffCache.StepExact`).
- The status filter of the alert list means `is_resolved`, so "active" and "acknowledged" select the same rows
  (`StatusFilterExact`); setting the status "acknowledged" changes nothing (`StatusUpdateExact`).
- An alert is protected from repeating within the deduplication TTL if and only if its publish succeeds: the row is inserted
  before the publish and the marker is set after it (`AlertMarkers.StepExact`, `AlertMarkers.RunExact`).
- A raised alert is rejected as a duplicate, which stops the processing of its whole aggregate, if and only if its
  deduplication marker is live and its active marker was cleared by an acknowledgement or a resolution since that marker was
  set, for deduplication TTLs of at most 300 s (`SuppressedExact`); with longer ones it can also be rejected without
  (`LongTtlSuppresses`).
- A cancelled invoice stays cancelled through a run if and only if its owner never disputes it, and is paid in the end if
  and only if a payment follows a dispute (`CancelledFate`). Nothing in the repository cancels an invoice: such rows come
  from outside the service.
- A constant meter level is learned if and only if it lies between half and twice the baseline (for the thresholds in use);
  at any other level the baseline stays where it was for good and every reading alerts (`LevelExact`). A baseline of 0 is
  compared as 0.1 and moves if and only if the level lies between 0.05 and 0.2 (`ZeroBaselineExact`). The near-zero outage
  branch is reachable if and only if the drop threshold exceeds 0.9, so never with the 0.5 in use (`OutageReachable`).
- The total of an invoice is the sum of its base and tax columns if and only if what rounding drops from the two lies
  together in [0.5, 1.5) of a paisa, which the base cost alone decides; otherwise it is one paisa off (`ColumnsAddUp`).

Deduplication keys, by contrast, never collide: the schema admits only UTC date-times, and a key then determines meter id and
timestamp whatever characters the meter id has (`KeyInjective`). The bare key function would need meter ids of which none
continues another after a colon (`UncheckedKeys`).

The model follows the code where DATAFLOW.md says otherwise: overload means a load above 90 % counted over 5 minutes in a
list that lives 10 minutes (DATAFLOW.md lines 213-217 and 388 say 85 %, 30 minutes and 30 minutes), a price moves when it
differs by an absolute threshold of 0.01 (line 170 says 2 %), and the load bands of the price are those of the tariff
calculator.

## Model

| member | source | states |
|---|---|---|
| IsoTime.CalendarOrder | apps/stream-processor/src/utils/time.ts:2-16 | calendar fields of two instants compare as the instants do, for all instants |
| IsoTime.CivilRoundTrip | apps/stream-processor/src/utils/time.ts:2-16 | the calendar fields give the instant back |
| IsoTime.MonthDays | apps/stream-processor/src/utils/time.ts:2-16 | the length of each month |
| IsoTime.IsoOrder | apps/stream-processor/src/services/aggregator.ts:142 | for years 0000 to 9999, string order and equality of ISO keys are order and equality of instants |
| IsoTime.FiveDigitYearsSortFirst | apps/stream-processor/src/services/aggregator.ts:142 | beyond year 9999 the string order is wrong, so the range is needed |
| IsoTime.IsoReadsBack | apps/stream-processor/src/utils/time.ts:2-16 | the digits of an ISO key are the calendar fields, each in its place |
| IsoTime.ExpandedYears | apps/stream-processor/src/utils/time.ts:2-16 | years outside 0000 to 9999 print with a sign and six digits |
| IsoTime.Bucket1IsUtcMinute | apps/stream-processor/src/utils/time.ts:2-6 | the 1-minute bucket is the UTC minute containing the instant |
| IsoTime.Bucket15IsLocalQuarter | apps/stream-processor/src/utils/time.ts:9-16 | the 15-minute bucket is the local quarter hour containing the instant |
| IsoTime.AlignedOffset | apps/stream-processor/src/utils/time.ts:9-16 | the buckets are the UTC quarter hours if and only if the offset is a multiple of 15 minutes |
| IsoTime.MinuteIsOver | apps/stream-processor/src/services/aggregator.ts:135-160 | a 1-minute key is below the current key if and only if its minute is over |
| IsoTime.QuarterIsOver | apps/stream-processor/src/services/aggregator.ts:203-228 | the same for quarter hours |
| IsoTime.MinutesOfQuarter | apps/stream-processor/src/utils/time.ts:19-30 | an instant lies in a quarter hour if and only if its minute is one of the fifteen listed |
| IsoTime.MinuteBucketsInQuarter | apps/stream-processor/src/utils/time.ts:19-30 | the loop lists the fifteen minute keys from the window's start |
| Windows.FoldSums | apps/stream-processor/src/services/aggregator.ts:90-131 | sums and counts of a window are those of its readings; its current sum is the sum of the currents estimated from power and voltage, and a number if and only if no voltage given is 0 |
| Windows.FoldExtremes | apps/stream-processor/src/services/aggregator.ts:90-131 | the minimum is attained, the maximum bounds all powers and is attained or the initial 0 |
| Windows.FoldStalled | apps/stream-processor/src/services/aggregator.ts:112-123 | exactly when voltages of 0 make the current sum infinite or no number |
| Windows.UpdateHolds | apps/stream-processor/src/services/aggregator.ts:69-131 | one more reading keeps every window the fold of its meter's readings in its bucket |
| Windows.SpanSplits | apps/stream-processor/src/services/aggregator.ts:90-131 | folds of two adjacent spans merge to the fold of the whole, however readings interleave |
| Aggregator.QuarterIsMergeOfMinutes | apps/stream-processor/src/services/aggregator.ts:69-88 | each 15-minute window is the merge of its fifteen 1-minute windows, for any arrival order |
| Aggregator.QuarterAverage | apps/stream-processor/src/services/aggregator.ts:203-228 | its average is the count-weighted mean of the 1-minute averages |
| Aggregator.ClearHolds | apps/stream-processor/src/services/aggregator.ts:231-243 | clearing leaves exactly the folds of the readings of the surviving buckets |
| Aggregator.AggregatorService.ProcessReading | apps/stream-processor/src/services/aggregator.ts:69-87 | both tables after a reading; both stay folds of what was processed |
| Aggregator.AggregatorService.GetReadyAggregates1m | apps/stream-processor/src/services/aggregator.ts:135-160 | lists a row for every meter of every bucket that is over, once, and no other; each row summarizes the readings of its meter and bucket, column by column |
| Aggregator.AggregatorService.GetReadyAggregates15m | apps/stream-processor/src/services/aggregator.ts:203-228 | the same for 15-minute windows |
| Aggregator.AggregatorService.ClearFlushedWindows1m | apps/stream-processor/src/services/aggregator.ts:231-243 | drops exactly the buckets that are over and counts them |
| Aggregator.AggregatorService.ClearFlushedWindows15m | apps/stream-processor/src/services/aggregator.ts:246-258 | the same for 15-minute windows |
| Aggregator.CollectReady | apps/stream-processor/src/services/aggregator.ts:140-158 | the collecting loop, over any windows that fold readings: the rows listed and what their columns are |
| Aggregator.RowSummarizes | apps/stream-processor/src/services/aggregator.ts:145-156 | the row of a window that folds readings: energy is their sum, power, voltage and current their means (0 without voltages), minimum and maximum are attained bounds or the initial 0, count and region as read |
| Regional.NothingLost | apps/stream-processor/src/services/aggregator.ts:163-200 | over all regions, counts sum to the number of windows and consumptions to the sum of averages |
| Regional.PublishedBounds | apps/stream-processor/src/services/aggregator.ts:163-200 | minimum, average and maximum of every published roll-up are in order |
| Regional.ActiveMeters | apps/stream-processor/src/services/aggregator.ts:163-200 | as many active meters as counted windows if and only if no meter has two ready buckets, never more |
| Regional.RegionalAggregates | apps/stream-processor/src/services/aggregator.ts:163-184 | the nested loops visit every ready window once and roll it into its region |
| Regional.RegionalSummary | apps/stream-processor/src/services/aggregator.ts:163-200 | for the tables any readings leave, about the published roll-ups: one per region with a ready window; meter counts sum to the windows and total consumptions to the sum of their averages; total, average, maximum, minimum, active meters and load percentage of each are those of its windows and capacity, and each average is that of the readings |
| Regional.GetRegionalAggregates1m | apps/stream-processor/src/services/aggregator.ts:163-200 | the call itself has this answer, read from the readings |
| Flush.StepExact | apps/stream-processor/src/controllers/flushController.ts:10-51 | a step keeps every window and persisted row the fold of its readings if and only if it is safe |
| FlushRuns.RunExact | apps/stream-processor/src/controllers/flushController.ts:10-51 | over every interleaving with readings and every upsert outcome, all states are exact if and only if all steps are safe |
| FlushRuns.DisciplinedRunKeeps | apps/stream-processor/src/controllers/flushController.ts:10-51 | runs that respect the stated discipline are safe throughout |
| FlushRuns.Conservation | apps/stream-processor/src/controllers/flushController.ts:10-51 | between flushes persisted and in-memory counts add up to the readings delivered, and each row is the fold of its readings and summarizes them column by column |
| FlushRuns.SumExact | apps/stream-processor/src/db/timescale.ts:83-97 | the counts add up if and only if no window is both persisted and in memory |
| FlushRuns.ClockAdvanceLoses | apps/stream-processor/src/controllers/flushController.ts:10-51 | trace: the bucket advancing between collect and clear loses readings |
| FlushRuns.ClosedBucketReadingLoses | apps/stream-processor/src/controllers/flushController.ts:10-51 | trace: a late reading for a closed, empty bucket is lost without the clock moving |
| FlushRuns.LateReadingLoses | apps/stream-processor/src/db/timescale.ts:83-97 | trace: a reading after its bucket was persisted overwrites the row with itself alone |
| FlushControl.UninterruptedFlush | apps/stream-processor/src/controllers/flushController.ts:10-51 | a flush nothing interrupts keeps everything exact, whatever the upsert does |
| FlushControl.FlushRestoresSum | apps/stream-processor/src/controllers/flushController.ts:10-51 | after windows were counted twice, an applied flush makes the counts add up again if and only if all of them are over by its bucket |
| FlushControl.FlushController.Flush1mAggregates | apps/stream-processor/src/controllers/flushController.ts:10-51 | the controller's effect is the run collect, upsert, publish, clear of the state machine |
| FlushControl.FlushController.UpsertAggregates1m | apps/stream-processor/src/db/timescale.ts:71-106 | every row of the batch overwrites the row of its key |
| BatchUpsert.ParamsAt | apps/stream-processor/src/db/timescale.ts:79-82 | position 10 i + k of the flattened parameters is field k of aggregate i |
| BatchUpsert.UpsertMeans | apps/stream-processor/src/db/timescale.ts:75-96 | the text, read with its parameters, inserts each aggregate's ten fields and overwrites the eight non-key columns |
| BatchUpsert.ColumnsLineUp | apps/stream-processor/src/db/timescale.ts:79-84 | the k-th parameter belongs to the k-th column |
| BatchUpsert.StatementIsUpsert | apps/stream-processor/src/db/timescale.ts:75-97 | the columns, rows, keys and assignments read from the text sent, carried out on a table of rows, do exactly what the flush protocol takes an upsert to do |
| BatchUpsert.StatementOverwrites | apps/stream-processor/src/db/timescale.ts:75-97 | afterwards each aggregate's row has its ten fields, nothing of the old row remains, and other rows are as before |
| Dedupe.KeyInjective | apps/ingestion/src/services/redisDedupe.ts:55 | for timestamps the schema accepts (zodSchemas.ts:7) and all meter ids, two keys are equal if and only if meter id and timestamp are |
| Dedupe.UncheckedKeys | apps/ingestion/src/services/redisDedupe.ts:55 | for arbitrary timestamps, two meters can share a key if and only if one id continues the other after a colon |
| Dedupe.FormsAccepted | apps/ingestion/src/schemas/zodSchemas.ts:7 | texts to the minute, to the second and with a fraction are accepted |
| Dedupe.AcceptedOnce | apps/ingestion/src/services/redisDedupe.ts:57-62 | a key is accepted once if and only if no SET for it comes a TTL or more after the first |
| Dedupe.WithinTtl | apps/ingestion/src/services/redisDedupe.ts:57-62 | SETs within less than one TTL accept a key exactly once |
| Dedupe.DeduplicationService.CheckAndMark | apps/ingestion/src/services/redisDedupe.ts:57-62 | new if and only if no live marker, and a live marker is left alone |
| Dedupe.DeduplicationService.FilterDuplicates | apps/ingestion/src/services/redisDedupe.ts:64-75 | for any order of the SETs a batch splits without loss, each key counted as often as accepted |
| Sender.ChunkArray | apps/simulator/src/generator.ts:97-103 | chunks concatenate to the array, all full but the last |
| Sender.AttemptWithin | apps/simulator/src/sender.ts:45-73 | attempt i lies within n 30000 + d (2^(n-1) - 1) ms of the start |
| Sender.SendBatch | apps/simulator/src/sender.ts:45-73 | the retry loop's attempts, its stop at the first accepted one, how long the batch takes, and the bound |
| Sender.StartsWithin | apps/simulator/src/sender.ts:26-42 | under the concurrency limit starts are in order, and apart by at most a span for each round of the limiter; the first batches up to the limit start together |
| Sender.StartsApart | apps/simulator/src/sender.ts:26-42 | and for every two batches and every limit there are durations with which they are that far apart |
| Sender.AtMostOnce | apps/simulator/src/sender.ts:26-73 | chunks posted by the retry loop under the limiter, whatever replies they meet: whatever SETs their attempts cause, in any order, a key is accepted at most once when the rounds between its chunks and one span fit in the TTL |
| Sender.AtMostOnceExact | apps/simulator/src/sender.ts:26-73 | a key is accepted at most once in every run if and only if those spans fit in the TTL, or there is but one SET of it |
| Sender.DefaultsMissTheBound | apps/simulator/src/sender.ts:45-73 | the shipped retry settings exceed the shipped TTL for every limit and any chunks |
| OverloadWindow.CountExact | apps/alert/src/services/redisCacheService.ts:182-214 | the count equals that over the whole history, although the list expires, when event times are less than 300 s ahead |
| OverloadWindow.SkewBoundIsTight | apps/alert/src/services/redisCacheService.ts:182-214 | at 300 s ahead an aggregate can be forgotten |
| OverloadWindow.OverloadStore.AddOverloadWindow | apps/alert/src/services/redisCacheService.ts:182-197 | the stored lists are those of the history, with the list expiring 600 s later |
| OverloadWindow.OverloadStore.RecordLoad | apps/alert/src/helpers/aggregateHelper.ts:44-64 | only loads above 90 % are recorded, and the count then is the number of the region's records stamped within the last 300 s of the whole history |
| OverloadCheck.CheckRegionalOverload | apps/alert/src/helpers/aggregateHelper.ts:44-94 | an alert is inserted if and only if the load is above the threshold for at least the second time in 300 s of the whole history and neither marker is live; markers, alerts and failure afterwards |
| AlertMarkers.DedupKeyInjective | apps/alert/src/services/redisCacheService.ts:258-293 | deduplication keys of colon-free parts coincide only for the same kind, region or global, and meter |
| AlertMarkers.KeyTexts | apps/alert/src/services/redisCacheService.ts:216-293 | the text of both keys, with and without region and meter |
| AlertMarkers.StepExact | apps/alert/src/services/alertManagerService.ts:80-102 | a step keeps every alert guarded by its marker for a full TTL if and only if it does not insert an alert whose publish fails |
| AlertMarkers.RunExact | apps/alert/src/services/alertManagerService.ts:80-102 | all states of a run are guarded if and only if every alert inserted is published, and then alerts are spaced |
| AlertMarkers.AlertSpacing | apps/alert/src/services/alertManagerService.ts:80-102 | in every run whose inserted alerts are published, two alerts about one subject are at least the TTL apart |
| AlertMarkers.FailedPublishRepeats | apps/alert/src/services/alertManagerService.ts:88-91 | wherever the guard is lost, the next creation inserts the alert again within the TTL |
| AlertMarkers.SuppressedExact | apps/alert/src/helpers/aggregateHelper.ts:64-88 | over runs with acknowledgements and a TTL of at most 300 s, a raise is rejected as a duplicate if and only if its deduplication marker is live and its active marker was cleared since that was set |
| AlertMarkers.NeverSuppressed | apps/alert/src/helpers/aggregateHelper.ts:64-88 | so without acknowledgements never |
| AlertMarkers.LongTtlSuppresses | apps/alert/src/services/redisCacheService.ts:230-242 | with any longer TTL a raise can be rejected without an acknowledgement |
| AlertMarkers.AcknowledgementSuppresses | apps/alert/src/services/alertManagerService.ts:124-158 | trace of a rejection after an acknowledgement, for any TTL |
| AlertMarkers.AlertManager.CreateAlert | apps/alert/src/services/alertManagerService.ts:80-102 | check, insert, publish, mark as one step of the state machine, and what it leaves in each map |
| AlertMarkers.AlertManager.RaiseUnlessActive | apps/alert/src/helpers/aggregateHelper.ts:64-88 | the active marker around it, set for 300 s only by a successful creation, and exactly when raising fails |
| MeterOutages.OutageKeys | apps/alert/src/services/redisCacheService.ts:216-293 | outage markers of one region are told apart by the meter, whatever its characters |
| MeterOutages.MeterStore.GetInactiveMeters | apps/alert/src/services/redisCacheService.ts:119-146 | each meter with a live key older than the cutoff, once |
| MeterOutages.CheckMeterOutages | apps/alert/src/helpers/aggregateHelper.ts:96-136 | which meters are outaged; fails exactly when raising fails for one of them; else each has an active marker, and a new alert if and only if it had none; nobody else is alerted |
| AlertLifecycle.RunOnward | apps/alert/src/services/postgresService.ts:393-411 | over every run the derived status never goes back and stamps never change once set |
| AlertLifecycle.NextMeans | apps/alert/src/services/alertManagerService.ts:124-245 | what each operation makes of each row: which rows it takes, the stamps it sets, the metadata it merges, and that it leaves the rest |
| AlertLifecycle.BulkExact | apps/alert/src/services/postgresService.ts:264-299 | bulk resolve returns the distinct open ids in first-occurrence order and resolves just those rows |
| AlertLifecycle.BulkTwice | apps/alert/src/services/postgresService.ts:264-299 | a second call returns none and changes nothing |
| AlertLifecycle.AlertTable.AcknowledgeAlert | apps/alert/src/services/alertManagerService.ts:124-158 | the table and the reported status after an acknowledgement |
| AlertLifecycle.AlertTable.ResolveAlert | apps/alert/src/services/alertManagerService.ts:160-194 | the table and the reported status after a resolution |
| AlertLifecycle.AlertTable.BulkResolveAlerts | apps/alert/src/services/postgresService.ts:264-299 | the loop returns the first open occurrences |
| AlertLifecycle.AlertTable.AutoResolveOldAlerts | apps/alert/src/services/postgresService.ts:361-381 | resolves the open rows older than the given hours and returns how many rows it resolved |
| SqlClauses.ParseOfList | apps/alert/src/services/postgresService.ts:137-171 | any list of conditions or assignments, printed with running placeholder numbers, reads back as itself |
| AlertQueries.GetAlertsMeansFilter | apps/alert/src/services/postgresService.ts:183-232 | for every filter, count and page query read back from their text select exactly the matching rows, with the limit asked for (50 for none or 0) and the offset (0 for none) |
| AlertQueries.DataQueryMeans | apps/alert/src/services/postgresService.ts:216-231 | any list of conditions survives printing, numbering and reading |
| AlertQueries.CondsMeanFilter | apps/alert/src/services/postgresService.ts:183-214 | the pushed conditions hold of a row if and only if it matches the filter |
| AlertQueries.StatusFilterExact | apps/alert/src/services/postgresService.ts:189-192 | on which rows, by their two flags, the status filter agrees with the derived status |
| AlertQueries.BuildGetAlerts | apps/alert/src/services/postgresService.ts:183-231 | the building steps produce those texts and parameters |
| AlertUpdate.UpdateAlertMeans | apps/alert/src/services/postgresService.ts:130-176 | for every subset of fields, the UPDATE read back targets the alert and leaves the record update asked for |
| AlertUpdate.UpdateQueryMeans | apps/alert/src/services/postgresService.ts:164-171 | any assignment list survives printing, numbering and reading, and the key index is right |
| AlertUpdate.StatusUpdateExact | apps/alert/src/services/postgresService.ts:137-147 | exactly when setting a status gives a row of that status |
| AlertUpdate.AcknowledgeSends | apps/alert/src/services/alertManagerService.ts:124-158 | the UPDATE text an acknowledgement sends, read back and carried out, leaves the row of the acknowledged alert |
| AlertUpdate.ResolveSends | apps/alert/src/services/alertManagerService.ts:160-194 | the same for a resolution |
| AlertUpdate.BuildUpdateAlert | apps/alert/src/services/postgresService.ts:130-171 | the building steps produce that text and its parameters, or none |
| Subscriptions.AccessMeaning | apps/notification/src/services/webSocketService.ts:252-270 | who may read which channel |
| Subscriptions.DefaultsGranted | apps/notification/src/services/webSocketService.ts:272-285 | exactly when every default channel is granted |
| Subscriptions.InitialChannels | apps/notification/src/services/webSocketService.ts:252-285 | the default channels that are granted, by role, region and meter |
| Subscriptions.WebSocketService.HandleConnection | apps/notification/src/services/webSocketService.ts:67-106 | refusal or registration; afterwards the socket is in a channel if and only if that is "tariffs", or an alert channel and the role operator or admin, or its own region or meter under the colon condition; nobody else moves and the two indexes stay consistent |
| Subscriptions.WebSocketService.HandleDisconnection | apps/notification/src/services/webSocketService.ts:132-143 | afterwards no channel has the socket and all else is as before |
| Subscriptions.WebSocketService.SubscribeToChannels | apps/notification/src/services/webSocketService.ts:145-160 | the socket joins exactly the granted channels |
| Subscriptions.WebSocketService.UnsubscribeFromChannels | apps/notification/src/services/webSocketService.ts:162-175 | it leaves exactly the named channels, and no channel stays empty |
| Subscriptions.WebSocketService.Broadcast | apps/notification/src/services/webSocketService.ts:177-194 | one message to each open subscriber of the channel, none to anyone else, and their number |
| TariffCalculator.PriceIsNearest | apps/tariff/src/services/tariffCalculatorService.ts:100 | the dictated price has two decimals and is the nearest such |
| TariffCalculator.PriceOfBand | apps/tariff/src/services/tariffCalculatorService.ts:67-100 | the price of each of the five load bands against the base price alone: 125, 110, 100, 90 or 80 % of it, rounded half up to two decimals |
| TariffCalculator.CalculateMeans | apps/tariff/src/services/tariffCalculatorService.ts:95-130 | an aggregate whose price is less than the threshold from the one held changes nothing; any other is published and held, in terms of bands and stored prices |
| TariffCalculator.FirstLoad | apps/tariff/src/services/tariffCalculatorService.ts:95-130 | the update for the first load of a region, in each band, with the default configuration |
| TariffCalculator.PriceMonotone | apps/tariff/src/services/tariffCalculatorService.ts:67-93 | a higher load never dictates a lower price |
| TariffCalculator.HeldExact | apps/tariff/src/services/tariffCalculatorService.ts:95-130 | the held price follows the dictated one except exactly when a zero price is hidden |
| TariffCalculator.HeldOverRuns | apps/tariff/src/services/tariffCalculatorService.ts:95-130 | the same for the last load of each region at the end of every run |
| TariffCalculator.EveryUpdateLinked | apps/tariff/src/services/tariffCalculatorService.ts:95-130 | every update starts from the price before it and moves by the threshold or more |
| TariffCalculator.ChainExact | apps/tariff/src/services/tariffCalculatorService.ts:95-130 | consecutive updates of a region chain if and only if the earlier price is not 0 or the base is 0 |
| TariffCalculator.PricesArePositive | apps/tariff/src/services/tariffCalculatorService.ts:100 | no load dictates 0 if and only if the base price is at least 0.00625 |
| TariffCalculator.Settled | apps/tariff/src/services/tariffCalculatorService.ts:104-107 | a repeated load publishes nothing, except exactly when a zero was hidden |
| TariffCalculator.ZeroBreaksTheChain | apps/tariff/src/services/tariffCalculatorService.ts:101 | trace of a broken chain |
| TariffCalculator.TariffCalculatorService.CalculateTariff | apps/tariff/src/services/tariffCalculatorService.ts:95-130 | the update returned and the prices stored, also against base price, load band and price held alone |
| TariffCalculator.TariffCalculatorService.GetCurrentPrice | apps/tariff/src/services/tariffCalculatorService.ts:136-138 | the price held, the base price for none or 0 |
| TariffCache.StepExact | apps/tariff/src/services/overrideHandlerService.ts:51-154 | each insert and removal, with or without its cache write, each read and passage of time keeps the cache coherent if and only if it is good |
| TariffCache.RunExact | apps/tariff/src/services/overrideHandlerService.ts:51-154 | a run is coherent throughout if and only if all its steps are good |
| TariffCache.DisciplinedRunAnswers | apps/tariff/src/services/overrideHandlerService.ts:96-111 | with growing effective_from, four decimals and a row left at removals, the answer is the last inserted remaining row |
| TariffCache.AnswerIsInForce | apps/tariff/src/services/overrideHandlerService.ts:96-111 | over a coherent cache the answer is the price of a latest row, none only without rows |
| TariffCache.ColumnIsNearest | apps/tariff/src/services/overrideHandlerService.ts:57-66 | the price column keeps the nearest price of four decimals |
| TariffCache.PreloadExact | apps/tariff/src/services/redisCacheService.ts:79-92 | exactly when preloading makes any cache coherent |
| TariffCache.LastRemovalLeavesPrice | apps/tariff/src/services/overrideHandlerService.ts:122-154 | trace: removing the only row leaves its price cached |
| TariffCache.OlderUpdateOverwrites | apps/tariff/src/helpers/aggregateHelper.ts:30-39 | trace: an older automatic update overwrites the cache only |
| TariffService.ValidateRequest | apps/tariff/src/services/overrideHandlerService.ts:44-49 | which requests are refused and why |
| TariffService.SpaceCodes | apps/tariff/src/services/overrideHandlerService.ts:45 | the code points a region name may not consist of |
| TariffService.AutomaticPricesFit | apps/tariff/src/helpers/aggregateHelper.ts:30-39 | the price column keeps automatic prices as they are |
| TariffService.SteadyLoad | apps/tariff/src/services/tariffCalculatorService.ts:95-130 | after an automatic price, aggregates in the same load band publish nothing |
| TariffService.SteadyLoadLeavesOverride | apps/tariff/src/helpers/aggregateHelper.ts:12-49 | an override made after an automatic price is what getCurrentTariff answers through any run of aggregates whose loads for the region stay in that band, until the cache entry expires |
| TariffService.OverrideHandlerService.HandleOverride | apps/tariff/src/services/overrideHandlerService.ts:51-94 | a valid request is an insert step with the old cached price reported, an invalid one changes nothing; row, column rounding, cache entry and expiry; what a failing insert, cache write or publish leaves and answers |
| TariffService.OverrideHandlerService.GetCurrentTariff | apps/tariff/src/services/overrideHandlerService.ts:96-111 | cache, else a latest row, which is then cached |
| TariffService.OverrideHandlerService.RemoveOverride | apps/tariff/src/services/overrideHandlerService.ts:122-170 | a removal step; not found if and only if no row has the id; what a failure at each point leaves and answers |
| TariffService.OverrideHandlerService.StartUp | apps/tariff/src/lifecycle/processLifecycle.ts:32-53 | one latest row per region is cached and set in the calculator, so both hold the same price for every region with rows; the rest stays |
| TariffService.OverrideHandlerService.HandleAggregate | apps/tariff/src/helpers/aggregateHelper.ts:12-49 | calculator, table and cache after an aggregate; a failed insert moves the calculator alone, a failed cache write calculator and table |
| Anomaly.Thresholds | apps/stream-processor/src/services/anomalyDetector.ts:75-97 | the alert thresholds as multiples of the baseline |
| Anomaly.Verdicts | apps/stream-processor/src/services/anomalyDetector.ts:75-107 | each verdict and severity, exactly, in multiples of the baseline |
| Anomaly.OutageReachable | apps/stream-processor/src/services/anomalyDetector.ts:89-107 | the near-zero branch is reachable if and only if the drop threshold exceeds 0.9 |
| Anomaly.Envelope | apps/stream-processor/src/services/anomalyDetector.ts:48-110 | n readings keep the baseline between 0.9^n and 1.2^n of its start, for the thresholds in use |
| Anomaly.Hull | apps/stream-processor/src/services/anomalyDetector.ts:48-110 | it stays within the hull of the start and the accepted readings |
| Anomaly.LevelExact | apps/stream-processor/src/services/anomalyDetector.ts:48-110 | the gap to a constant level shrinks by exactly 0.8 each time if and only if the level is in the band of the baseline; otherwise the baseline is frozen and every reading alerts |
| Anomaly.ZeroBaselineExact | apps/stream-processor/src/services/anomalyDetector.ts:48-110 | a zero baseline moves, as one of 0.1 would, if and only if the level is in the band around 0.1; otherwise it stays and every reading alerts |
| Anomaly.AnomalyDetectorService.CheckReading | apps/stream-processor/src/services/anomalyDetector.ts:48-115 | sample gate, stored or first baseline, verdict and new baseline |
| MeterAssignment.NamesDiffer | apps/api-gateway/src/services/database/meter-assignment.service.ts:26-27 | padded meter names are distinct for distinct ids |
| MeterAssignment.NameReadsBack | apps/api-gateway/src/services/database/meter-assignment.service.ts:26-27 | a name is the prefix and eight digits that read as the id |
| MeterAssignment.FreeMeaning | apps/api-gateway/src/services/database/meter-assignment.service.ts:26-32 | an id is in the free list if and only if it is in range and not assigned |
| MeterAssignment.Pigeonhole | apps/api-gateway/src/services/database/meter-assignment.service.ts:12-39 | with fewer than 10000 meters assigned a free one exists |
| MeterAssignment.BulkPairs | apps/api-gateway/src/services/database/meter-assignment.service.ts:106-159 | the free list holds exactly the free ids in ascending order, the k-th waiting user gets its k-th id and no other row changes |
| MeterAssignment.MeterAssignmentService.GetNextAvailableMeter | apps/api-gateway/src/services/database/meter-assignment.service.ts:12-39 | the name of the least id from 1 to 10000 not in use, none if and only if all are |
| MeterAssignment.MeterAssignmentService.AssignMeterToUser | apps/api-gateway/src/services/database/meter-assignment.service.ts:42-103 | each outcome with its exact condition; the user gets the meter, keeps the region unless one is given, and no other row changes; no two users share a meter; a failure changes nothing |
| MeterAssignment.MeterAssignmentService.BulkAssignMeters | apps/api-gateway/src/services/database/meter-assignment.service.ts:106-159 | users and free ids paired off in order, success is the smaller number |
| MeterAssignment.MeterAssignmentService.UnassignMeterFromUser | apps/api-gateway/src/services/database/meter-assignment.service.ts:162-180 | clears exactly that user's meter |
| BillingPeriod.SamePeriodExact | apps/api-gateway/src/services/database/billing.service.ts:335-336 | two requests have the same period if and only if they mean the same month |
| BillingPeriod.PeriodOnCalendar | apps/api-gateway/src/services/database/billing.service.ts:335-336 | the period of a year and month starts at local midnight on the first and ends a second before the first of the next month |
| BillingPeriod.ShortYears | apps/api-gateway/src/services/database/billing.service.ts:335-336 | years 0 to 99 are read as 1900 to 1999 |
| BillingPeriod.PeriodsAbut | apps/api-gateway/src/services/database/billing.service.ts:335-336 | a period ends one second before the next starts, 28 days or more after its own start |
| BillingPeriod.BilledOnce | apps/api-gateway/src/services/database/billing.service.ts:345-352 | an instant on a whole second lies in exactly one period, that of its local month |
| BillingPeriod.EnergyBilledOnce | apps/api-gateway/src/services/database/billing.service.ts:345-352 | over any run of months the billed consumption is the energy of those months |
| Billing.ColumnsAddUp | apps/api-gateway/src/services/database/billing.service.ts:367-369 | exactly when the total column is the sum of the base and tax columns, one paisa below it or one above |
| Billing.ColumnsMiss | apps/api-gateway/src/services/database/billing.service.ts:367-369 | a base cost for either miss |
| BillingCost.NewInvoiceCharges | apps/api-gateway/src/services/database/billing.service.ts:344-390 | a new invoice charges its meter's consumption of the month at the mean price of the region's active tariffs starting in it, 6.5 without one, with 18 % tax, each column rounded by itself; it is pending and neither paid nor disputed |
| BillingCost.ChargeIsOfTheTariffs | apps/api-gateway/src/services/database/billing.service.ts:353-369 | every column lies between the charges at the least and the greatest such price, and is exact when they agree; tariffs of other regions, inactive ones and those outside the period do not matter |
| BillingOutcomes.GenerateMeans | apps/api-gateway/src/services/database/billing.service.ts:325-390 | each outcome of a generation with its exact condition, and what it leaves |
| BillingOutcomes.PayMeans | apps/api-gateway/src/services/database/billing.service.ts:106-141 | each outcome of a payment with its exact condition, and the row and transaction it leaves, column by column |
| BillingOutcomes.DisputeMeans | apps/api-gateway/src/services/database/billing.service.ts:172-192 | the same for a dispute |
| Billing.GenerateKeepsLedger | apps/api-gateway/src/services/database/billing.service.ts:325-427 | generating keeps one invoice per user, meter and period |
| Billing.PayKeepsLedger | apps/api-gateway/src/services/database/billing.service.ts:106-141 | paying keeps paid equivalent to exactly one transaction of the full amount |
| Billing.DisputeKeepsLedger | apps/api-gateway/src/services/database/billing.service.ts:172-192 | so does disputing |
| Billing.RunKeepsLedger | apps/api-gateway/src/services/database/billing.service.ts:106-427 | the ledger holds over every serial run |
| Billing.PaidIsAbsorbing | apps/api-gateway/src/services/database/billing.service.ts:106-192 | over every run a paid invoice never changes, and no charge ever does |
| Billing.CancelledFate | apps/api-gateway/src/services/database/billing.service.ts:106-192 | over every run a cancelled invoice is untouched if and only if its owner never disputes it, and paid if and only if a payment follows a dispute |
| BillingLedger.PaymentsAreRevenue | apps/api-gateway/src/services/database/billing.service.ts:300-318 | for every ledger and filter the completed payments equal the collected revenue |
| BillingLedger.RevenueGap | apps/api-gateway/src/services/database/billing.service.ts:300-318 | what total revenue has beyond collected and outstanding is the disputed and cancelled invoices |
| BillingLedger.MonthsMatch | apps/api-gateway/src/services/database/billing.service.ts:283-298 | an invoice counts in the analytics from one month to another if and only if its month is one of these and its region the one asked for, if any |
| BillingLedger.BillAllCovers | apps/api-gateway/src/services/database/billing.service.ts:430-449 | after a region's generation all its users are covered, the table only grew by the invoices created |
| BillingLedger.BilleesMeaning | apps/api-gateway/src/services/database/billing.service.ts:430-436 | exactly the users of the region with a meter are billed |
| BillingLedger.RerunCreatesNothing | apps/api-gateway/src/services/database/billing.service.ts:430-449 | running it again after any payments, disputes and generations creates nothing |
| BillingLedger.InvoicesCarryTheEnergy | apps/api-gateway/src/services/database/billing.service.ts:335-390 | billing a user for a run of unbilled months adds one invoice a month, and their consumption columns sum to the energy metered in those months, to within 0.005 kWh each |
| BillingService.BillingService.MarkInvoiceAsPaid | apps/api-gateway/src/services/database/billing.service.ts:106-141 | outcome and tables, the ledger kept |
| BillingService.BillingService.DisputeInvoice | apps/api-gateway/src/services/database/billing.service.ts:172-192 | outcome and tables, the ledger kept |
| BillingService.BillingService.GenerateMonthlyInvoice | apps/api-gateway/src/services/database/billing.service.ts:325-393 | outcome and tables from the month's aggregates and tariffs, the new row's owner, period, status and charge, the ledger kept |
| BillingService.BillingService.GenerateMonthlyInvoicesForRegion | apps/api-gateway/src/services/database/billing.service.ts:430-449 | the loop bills the region's users in order, counts successes and failures, and every row it adds is charged by its own consumption and the region's tariffs |
| BillingService.BillingService.GetInvoiceAnalytics | apps/api-gateway/src/services/database/billing.service.ts:277-323 | the reported collected revenue is the payments received, and all counts and sums add up |
| Csv.ExportBack | apps/api-gateway/src/services/database/billing.service.ts:491-497 | a reader recovers header and rows from the text, null and empty string apart, for all cell contents |
| Csv.ExportInjective | apps/api-gateway/src/services/database/billing.service.ts:468-497 | equal texts come from equal tables, the table without rows included |

## Left out

- Kafka, Redis, Postgres, axios and WebSocket transports: only their effect on maps, tables and logs is modelled; a message that cannot be published counts only where the code reacts to it.
- Calls that overlap: two flushes in flight, concurrent payments, concurrent meter assignments; every call is serial except readings during a flush and the parallel SETs of a batch.
- Windows, rows and cache entries are values inside maps, so aliasing between them is not captured, nor the iteration order of JavaScript maps, which decides only the order of rows in a batch.
- Floating point: power, voltage and load are real numbers (with infinities and NaN in the published averages), prices integers of 0.000001 rupees, invoice amounts integers of one paisa; `toFixed` rounding of binary fractions is not modelled.
- Overflow of DECIMAL(10, 2) columns, UUID collisions and the transaction rollbacks of the database drivers.
- Sender.AtMostOnceExact: assumes that an aborted attempt's SETs reach the store before its timeout ends, because a request still running after the client gave up has no bound in the code.
- BatchUpsert.UpsertMeans: batches of more than 6553 rows exceed Postgres's parameter limit and count as a failing upsert.
- AlertQueries.DataQueryMeans: line breaks and indentation of the templates are written as single blanks, and the sorting of the page by creation time is not evaluated.
- IsoTime.QuarterIsOver: time zones with daylight saving or with offsets that are not multiples of 15 minutes, because the bucket functions use local-time setters.
- AlertUpdate.AcknowledgeSends: the JSON text of the metadata is any function of the metadata; JSON.stringify is not part of this model.
- MeterOutages.CheckMeterOutages: all markers of one check are set at one instant.
- FlushControl.FlushController.Flush1mAggregates: one call without readings between its awaits; readings in between are steps of the state machine of Flush.StepExact and FlushRuns.RunExact.
- Dedupe.KeyInjective: the accepted format leaves out the calendar ranges of month, day, hour and minute, so it covers more timestamps than the schema accepts.
- The 15-minute flush: the same protocol with another bucket function; the flush state machine and its run theorems are stated for any bucket function.
- `getStats` and the oldest-bucket tracking of the aggregator, alert statistics, invoice line items, payment history and tariff history: easy members or plain queries.
- Authentication, JSON message handling, heartbeat and shutdown of the WebSocket server, express routers, schemas, metrics, logging, and the simulator's random powers.
