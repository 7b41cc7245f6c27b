# Verified model of the metrics agent and server

This project models the parts of the metrics system whose behaviour is hard to see from
reading one function, and proves what they promise. `dafny verify dfyconfig.toml` checks it.

All parts share one abstract state, `State(gauges, counters)`: gauges are last-write-wins
`float64` values, counters are `int64` sums that wrap modulo 2^64.

| file | what it models |
|---|---|
| `Model.dfy` | the metric record, `int64` wrap-around, `float64` with its non-finite values |
| `Storage.dfy` | `MemStorage`, what a batch means, batch order, concurrent clients |
| `Service.dfy` | the validating service loop and the values it hands back |
| `FileStorage.dfy`, `FileService.dfy` | the write-temp-then-rename protocol among updates, crashes and restarts, the storage object around it, and the service over it |
| `PgStorage.dfy`, `PgService.dfy` | the table, upserts, transactions under retry, the refinement of `MemStorage`, and the service over it |
| `Retry.dfy` | the three retry loops and the one rule they follow |
| `Delivery.dfy`, `PgDelivery.dfy` | how often a batch is applied when sender and server may disagree about it, for each of the storages |
| `Restarts.dfy` | what a server's counters are worth when it stops and starts again |
| `Agent.dfy`, `AgentRuns.dfy`, `AgentShutdown.dfy` | the agent's goroutines as a labelled transition system, what its runs do, and how it stops |
| `Collector.dfy` | the collectors that fill the agent's table |
| `Grpc.dfy` | encoding, decoding and applying over gRPC |
| `GoMemory.dfy`, `ResetGen.dfy`, `ResetLaws.dfy`, `ResetEffect.dfy`, `ResetTypes.dfy` | the `Reset` generator as a compiler: emitted statements, their execution over Go variables, and the laws of running them |
| `Envelope.dfy` | the encrypted envelope, byte by byte |
| `Pipeline.dfy` | a batch from the agent's `SendBatch` through the server's middleware |
| `Response.dfy` | the buffering, compressing and signing response writers |
| `Laws.dfy` | a set of functions that obeys all that is assumed of the libraries |

JSON, gzip (RFC 1952), HMAC (section 2 of RFC 2104), RSAES-OAEP (section 7.1 of RFC 8017)
and AES-GCM appear as function-valued parameters with the laws `Lawful`, `Good` and `Inverse`;
`Laws.LawfulCodecExists`, `Laws.GoodLibsExist` and `Laws.InverseCiphersExist` show that these
laws can be met.
What the disk, the network, the database and the scheduler do is a parameter or a free choice
of the next step.

Some expectations hold only under a condition. For these the condition is proved to be exact:

* Permuting a batch never matters exactly when no two items set one gauge to two values.
* A completed save makes the state durable exactly when every gauge to be written is finite:
  JSON refuses NaN and the infinities, so one such gauge keeps the file as it was.
* A saved and reloaded storage is the same exactly when no id is both gauge and counter.
* The database listing equals the in-memory one, whatever the row order, exactly when no id is
  both gauge and counter; a batch is refused exactly when a `bigint` sum on the way overflows.
* `Shutdown` is sure to leave no worker running exactly when all workers had been started when
  it looked at the channel. `Run` and `Shutdown` are on different goroutines, so a stop during
  start-up can return before the workers begin.
* After `close(a.jobs)` the agent can panic exactly when the dispatcher's loop has not returned.
* Over the in-memory and the file storage every item of a batch is applied at most limit + 1
  times by one `SendBatch`, and at least once if it returns nil. Over the database, which a server
  uses whenever it is given one (internal/repository/factory.go:11-24), neither holds as it
  stands: each upsert is retried on its own and its error dropped
  (internal/repository/pgstorage.go:88-112). There the bound is 4 * (limit + 1), and it is met. It
  is limit + 1 exactly when the database cannot land a commit and report an error that is
  retried. Nil means that every item was stored, overflow apart, exactly when no trouble can keep
  an upsert from taking effect; with the database down nothing is stored and the agent is told 200.
* An acknowledged delta is kept across restarts exactly by a storage that loads its file at the
  start and, if the process can crash, saves after every update (and then as long as each restart
  finds finite gauges); the in-memory storage, a file saved by a ticker and a file not loaded lose
  it. That a counter grows by at most limit + 1 times what was attempted needs no such condition.
* A batch survives the gRPC road unchanged exactly when each item has just the field its type
  needs and no hash; items the service would refuse for a missing field arrive there as zero.
* An envelope frame comes back exactly when the wrapped key is shorter than 65536 bytes.
* All attempts of the HTTP loop send the same bytes without `GetBody` exactly when none but the
  last reads any of them.
* A wrapped handler's client gets the status of the unwrapped one exactly when the handler sets
  none but 200, or writes before it sets one and is compressed, or sets it first and is not
  compressed. It gets the whole body exactly when there is none or the status goes with one.
* A generated `Reset` that does not overwrite what steers it ends exactly when chains of nested
  `Reset` calls are bounded. Idempotence needs no such condition: it holds for every aliasing.

Where comments and code differ, the model follows the code:

* `VerifyHash` is documented for POST requests to `/update` and `/updates`; it checks only paths
  that start with `/updates` (internal/middleware/hash.go:20-38).
* A generated `Reset` is documented to set all fields to their zero values; slices keep their
  backing array and capacity, maps and pointers their identity, and channels and unknown kinds
  are left alone (cmd/reset/main.go:329, 364-389).
* A batch update is documented as one atomic operation (internal/repository/storage.go:114). The
  service does not call it: it applies items one by one and stops at the first invalid one
  (internal/service/metrics_service.go:76-97).

## Model

| member | source | states |
|---|---|---|
| Model.WrapIsTheCongruentInt64 | internal/repository/storage.go:63 | `int64` addition stores the one value congruent to the exact sum modulo 2^64 |
| Model.WrapAbsorbs | internal/repository/storage.go:59-64 | wrapping after every addition is wrapping once at the end |
| Storage.MemStorage.UpdateGauge | internal/repository/storage.go:53-57 | the new state is the old one with this gauge set and nothing else changed |
| Storage.MemStorage.UpdateCounter | internal/repository/storage.go:60-64 | adds with wrap-around; a missing counter starts at 0 |
| Storage.MemStorage.GetGauge | internal/repository/storage.go:68-76 | the stored value, or not found |
| Storage.MemStorage.GetCounter | internal/repository/storage.go:80-88 | the stored value, or not found |
| Storage.MemStorage.GetAllMetrics | internal/repository/storage.go:91-112 | one entry an id, in any iteration order; a counter hides a gauge of its id |
| Storage.MemStorage.UpdateBatch | internal/repository/storage.go:115-135 | the in-place loop is the fold of the items; unknown types and missing fields are skipped |
| Storage.FoldCounter | internal/repository/storage.go:115-135 | a counter ends congruent to its old value plus the exact sum of its deltas, and exists exactly if it did or was added to |
| Storage.FoldGauge | internal/repository/storage.go:115-135 | a gauge ends as the last value the batch gives it, or as it was |
| Storage.BatchOrderIsIrrelevant | internal/repository/storage.go:115-135 | permuting a batch never changes the result, if and only if no two items set one gauge to two values |
| Storage.ClientsAddUp | internal/repository/storage.go:38-64 | an interleaved log carries exactly the sum of what its clients carry |
| Storage.InterleavingOutcome | internal/repository/storage.go:38-64 | after any interleaving of any number of clients each counter is the int64 congruent to the exact sum of all deltas, and each written gauge holds some client's last write |
| Service.MetricsService.UpdateGauge | internal/service/metrics_service.go:24-30 | over the in-memory storage: an empty id is refused and changes nothing |
| Service.MetricsService.UpdateCounter | internal/service/metrics_service.go:32-42 | over the in-memory storage: update then read hands back the accumulated value |
| Service.MetricsService.GetGauge | internal/service/metrics_service.go:44-56 | over the in-memory storage: value, invalid id, or not found |
| Service.MetricsService.GetCounter | internal/service/metrics_service.go:58-70 | over the in-memory storage: value, invalid id, or not found |
| Service.MetricsService.UpdateBatch | internal/service/metrics_service.go:76-97 | over the in-memory storage: applies exactly the longest valid prefix, returns the complaint about the item that ended it, and on an all-valid batch does what `MemStorage.UpdateBatch` does |
| Service.UpdateBatchJSON | internal/handler/handler.go:351-383 | over the in-memory storage: 200 for exactly the batches that were applied in full; 400 for any other, and for a body that is not JSON, which changes nothing |
| Service.PrefixIsUnique | internal/service/metrics_service.go:76-97 | the longest valid prefix is determined by the batch |
| Service.ComplaintMeans | internal/service/metrics_service.go:76-97 | which error stands for what: an empty id, another type, a gauge without value, a counter without delta |
| Service.ReturnedValuesNeverDecrease | internal/service/metrics_service.go:32-42 | with non-negative deltas and no overflow, later reads of a counter are never smaller and include all the reader's own deltas |
| FileStorage.SaveLoadRoundTrip | internal/repository/filestorage.go:114-123 | for every order of the list, loading gives the counters and the gauges whose id is no counter; identity if and only if the id sets are disjoint |
| FileStorage.OnlyThreeValuesBlock | internal/repository/filestorage.go:132-138 | just NaN and the infinities, and only where no counter hides them, keep a state from being saved |
| FileStorage.StepKeepsInv | internal/repository/filestorage.go:114-143 | every step of saver, updates, crash and restart keeps the protocol invariant |
| FileStorage.RecoveryIsHistoric | internal/repository/filestorage.go:114-170 | at every moment of every run the file is the one found at start or decodes to a state the storage really held |
| FileStorage.RecoveryMovesForward | internal/repository/filestorage.go:114-143 | along a run the recoverable state only moves forward in history |
| FileStorage.HistoryWasHeld | internal/repository/filestorage.go:114-143 | the history holds no state but those the storage has held at some moment of the run |
| FileStorage.MemoryFollowsUpdates | internal/repository/filestorage.go:96-112 | until a restart the storage holds what the updates make of it, whatever a saver does |
| FileStorage.RestartRecovers | internal/repository/filestorage.go:43-49 | a restart that loads the file finds what is visible of the state saved last, and any other starts empty; the file, the temporary file and the history before it stay, and a save that was under way is given up |
| FileStorage.UnfinishedSaveKeepsTarget | internal/repository/filestorage.go:128-142 | along any run the target is as it was unless a step renames a complete temporary file over it; a save that fails anywhere, at the rename too, or is cut short between close and rename, leaves it alone |
| FileStorage.RenamePutsWholeState | internal/repository/filestorage.go:114-143 | what a rename puts in place is the complete encoding of a listing of a state really held |
| FileStorage.FileBackedStorage.SaveToFile | internal/repository/filestorage.go:114-143 | succeeds exactly when the disk does and every listed gauge is finite; the target is then a complete listing, otherwise unchanged; the whole call is a path of the protocol |
| FileStorage.FileBackedStorage.Save | internal/repository/filestorage.go:114-143 | without I/O failure the state becomes durable exactly when JSON can hold it |
| FileStorage.FileBackedStorage.UpdateGauge | internal/repository/filestorage.go:96-103 | in synchronous mode the file restores to the new state after the call, exactly when it can be saved |
| FileStorage.FileBackedStorage.UpdateCounter | internal/repository/filestorage.go:105-112 | the same for counters |
| FileStorage.FileBackedStorage.UpdateBatch | internal/repository/filestorage.go:172-186 | the same for batches; an empty batch saves nothing and a failed save is the only error |
| FileStorage.FileBackedStorage.OnStop | internal/repository/filestorage.go:71-91 | after the last save the file restores to the final state in every mode |
| FileStorage.FileBackedStorage.LoadFromFile | internal/repository/filestorage.go:145-170 | replays the decoded list; an absent or unreadable file changes nothing |
| FileStorage.FileBackedStorage.ListAll | internal/repository/filestorage.go:115-122 | the list holds each entry of the map once |
| FileStorage.NewFileStorage | internal/repository/filestorage.go:30-49 | a new process starts empty or with what the file shows, and refuses an unreadable file it should load |
| FileService.FileBackedService.UpdateGauge | internal/service/metrics_service.go:24-30 | over the file storage: in synchronous mode the file shows the new state exactly when JSON can hold it |
| FileService.FileBackedService.UpdateCounter | internal/service/metrics_service.go:32-42 | the same, and the accumulated value is handed back |
| FileService.FileBackedService.UpdateBatch | internal/service/metrics_service.go:76-97 | applies the longest valid prefix with one save an item; the file ends in step with the state |
| FileService.FileBackedService.Serve | internal/repository/filestorage.go:96-112 | after any sequence of service calls in synchronous mode the file shows the current state exactly when JSON can hold it |
| FileService.FileBackedService.ServeThenStop | internal/repository/filestorage.go:71-91 | after the stop hook it shows the final state in either mode |
| PgStorage.BatchSimulates | internal/repository/pgstorage.go:214-270 | running a batch on the rows of a state gives the rows of the in-memory result, exactly when no sum overflows; otherwise the batch is refused with the overflow error |
| PgStorage.CommitsSimulate | internal/repository/pgstorage.go:214-270 | the same for a batch committed any number of times |
| PgStorage.RowsDetermine | migrations/000001_init.up.sql:7 | no two states have the same rows |
| PgStorage.RowLookup | internal/repository/pgstorage.go:88-146 | gauge rows have a value and no delta, counter rows a delta and no value, one row a key |
| PgStorage.ListingAgreement | internal/repository/pgstorage.go:183-212 | for every row order the listing equals the in-memory one, if and only if no id is both kinds |
| PgStorage.RetriedIsCommitted | internal/repository/pgstorage.go:68-86 | however the attempts go, the outcome is the batch committed some number of times |
| PgStorage.RetriedTimes | internal/repository/pgstorage.go:68-86 | at most once an attempt, at least once on success, and exactly once or not at all when no failed commit lands |
| PgStorage.BatchLandsExactlyWhenThrough | internal/repository/pgstorage.go:214-270 | a batch takes effect at all, if and only if no sum overflows and some attempt is reached, all before it having failed retryably, that nothing strikes |
| PgStorage.UpsertedIsRetried | internal/repository/pgstorage.go:88-112 | a lone upsert under retry ends as a transaction of one statement would |
| PgStorage.LandsExactlyWhenThrough | internal/repository/pgstorage.go:88-112 | an upsert is executed at all, if and only if it does not overflow and some attempt gets through |
| PgStorage.UpsertedSimulates | internal/repository/pgstorage.go:88-112 | upserts leave the rows of what the in-memory storage holds after as many updates |
| PgStorage.NeverTwiceExactly | internal/repository/pgstorage.go:88-112 | no upsert is executed twice, if and only if the database cannot land a commit and report an error that is retried |
| PgStorage.NeverLostExactly | internal/repository/pgstorage.go:88-112 | no upsert is lost but for overflow, if and only if no trouble can strike it |
| PgStorage.SequenceSimulates | internal/repository/pgstorage.go:88-270 | after any sequence of updates and batches, in whatever trouble, the table is the rows of the in-memory state that what was executed leads to |
| PgStorage.CalmSequenceSimulates | internal/repository/pgstorage.go:88-270 | without trouble and overflow that is all that was asked |
| PgStorage.ReadsAfterAnyRun | internal/repository/pgstorage.go:114-212 | after any such sequence reads and listing answer as the in-memory storage would |
| PgStorage.PostgresStorage.Transaction | internal/repository/pgstorage.go:219-269 | one attempt takes effect as a whole or, unless its failed commit landed, not at all |
| PgStorage.PostgresStorage.UpdateBatch | internal/repository/pgstorage.go:214-270 | ends as the retried transactions do: the batch takes effect at most four times, at least once on success, and exactly once on success or not at all on failure when no failed commit lands |
| PgStorage.PostgresStorage.UpdateGauge | internal/repository/pgstorage.go:88-99 | retried upserts of one gauge are one upsert, if and only if some attempt gets through, or none; no error comes back |
| PgStorage.PostgresStorage.UpdateCounter | internal/repository/pgstorage.go:101-112 | the delta is added at most four times, at most once when no failed commit lands, and at least once if and only if it does not overflow and some attempt gets through; no error comes back |
| PgStorage.AnswersSimulate | internal/repository/pgstorage.go:114-146 | reads of the rows of a state answer as the in-memory storage does |
| PgStorage.PostgresStorage.GetGauge | internal/repository/pgstorage.go:114-129 | for every run of errors: the row's answer if the attempt the retry rule ends with succeeds, and that attempt's error if not |
| PgStorage.PostgresStorage.GetCounter | internal/repository/pgstorage.go:131-146 | the same for counters |
| PgStorage.PostgresStorage.GetAllMetrics | internal/repository/pgstorage.go:148-212 | the same for the listing: the map filled from the rows in the order they come, or the error of a row that cannot be read or of an iteration that ends in one |
| PgService.HandledFollows | internal/service/metrics_service.go:76-97 | over the database: the table after a batch is the rows of the state that what was executed of it leads to |
| PgService.ItemIsExecuted | internal/service/metrics_service.go:76-97 | an item is executed, if and only if it does not overflow the counter it then meets and some attempt gets through; how it ended is never looked at |
| PgService.DatabaseService.UpdateGauge | internal/service/metrics_service.go:24-30 | over the database: no error, whether the gauge was set or not |
| PgService.DatabaseService.UpdateCounter | internal/service/metrics_service.go:32-42 | over the database: the value handed back is the counter as it is, whether or not this call added to it; errors of the read are passed on |
| PgService.DatabaseService.GetGauge | internal/service/metrics_service.go:44-56 | invalid id, or for every run of errors the value, not found, or the error of the attempt the retry rule ends with |
| PgService.DatabaseService.GetCounter | internal/service/metrics_service.go:58-70 | the same for counters |
| PgService.DatabaseService.UpdateBatch | internal/service/metrics_service.go:76-97 | over the database: goes through the longest valid prefix and complains about its end only, whatever becomes of the upserts |
| Retry.RetryableErrors | internal/repository/pgstorage.go:28-66 | retryable are bad connections, classes 08 and 40, and 57P03; the two longer lists of codes add nothing |
| Retry.Returned | internal/agent/client.go:65-90 | the returned attempt is the first that should not be retried, or the last the schedule allows |
| Retry.RetryPG | internal/repository/pgstorage.go:68-86 | at most four calls, result by that rule, waits a prefix of 1, 3, 5 |
| Retry.RetryQuery | internal/repository/pgstorage.go:148-164 | the loop that breaks instead of returning follows the same rule |
| Retry.DoWithRetries | internal/agent/client.go:46-91 | until cancelled: every attempt before the last failed or was answered 500 and up, one handed back early neither; waits are a prefix of the schedule, the tracked body bytes are sent, and every response but the one handed back is closed |
| Retry.SameBodyEachTime | internal/agent/client.go:50-63 | with `GetBody` all attempts send the same bytes; without it, if and only if no attempt but the last reads any |
| Delivery.DuplicationBound | internal/agent/client.go:46-91 | if an attempt executes an item at most `most` times, a `SendBatch` does so at most (limit + 1) * most times, and at least as often as its last attempt |
| Delivery.SendBatch | internal/agent/client.go:215-277 | nil comes of an empty batch or of a last exchange that is a 200, and of nothing else |
| Delivery.AcknowledgedIsReached | internal/handler/handler.go:367-381 | the server says 200 only after it went through the whole batch |
| Delivery.MemoryDelivery | internal/agent/client.go:215-277 | over the in-memory and the file storage each item is executed at most limit + 1 times, and at least once when `SendBatch` returns nil |
| Delivery.MemoryExecutesPrefix | internal/service/metrics_service.go:76-97 | an attempt executes nothing if it never arrives, what was got through if it dies, and the longest valid prefix otherwise |
| Delivery.BoundIsTight | internal/agent/client.go:46-91 | a server that applies everything behind a proxy that answers 503 reaches the upper bound while the sender reports failure |
| Delivery.ExecutedRange | internal/agent/client.go:215-277 | over any run and any order of arrival the executed deltas add up to at least those of the items the acknowledged attempts executed, and to at most (limit + 1) * most times those attempted |
| Restarts.RunServer | internal/repository/filestorage.go:30-112 | the file storage, run object by object through updates, ticks and restarts, is the modelled server |
| Restarts.RestartsAreInvisible | internal/repository/filestorage.go:43-49 | a server that loads its file, restarted carefully any number of times, holds what it would hold had it never stopped, but for gauges hidden by a counter |
| Restarts.CrashGoesBackToTick | internal/repository/filestorage.go:43-66 | a crash of a server that a ticker saves takes it back to exactly what was visible at the last tick that could be saved: the updates since are gone, those before are kept |
| Restarts.NeverGains | internal/repository/factory.go:17-23 | in every mode and however it is stopped, a counter is at most its start plus all that was executed |
| Restarts.CounterBounds | internal/agent/client.go:215-277 | over the in-memory and the file storage a counter grows by at most limit + 1 times the attempted sum, whatever the restarts; and by at least the acknowledged sum if there are none, or the file is loaded and each finds the state on disk |
| Restarts.RestartLoses | internal/repository/factory.go:17-23 | the run that loses: acknowledged, restarted, gone |
| Restarts.KeepsAcknowledgedExactly | internal/repository/factory.go:17-23 | across restarts acknowledged deltas are kept, if and only if the file is loaded at the start and, where the process can crash, saved after every update |
| PgDelivery.ServiceIsSuchAnAttempt | internal/service/metrics_service.go:76-97 | what the service over the database executes for one request is what such an attempt is said to |
| PgDelivery.DatabaseDelivery | internal/repository/pgstorage.go:88-112 | over the database each item is executed at most (limit + 1) * 4 times; the acknowledged attempt executed it, if and only if it did not overflow and some database attempt got through |
| PgDelivery.DatabaseBoundIsTight | internal/repository/pgstorage.go:68-112 | with every commit landing, the connection then failing and every answer lost, the bound is met |
| PgDelivery.NothingStoredWhenDown | internal/repository/pgstorage.go:88-112 | with the database down nothing is stored, and `SendBatch` returns nil |
| PgDelivery.OverflowIsDropped | internal/repository/pgstorage.go:101-112 | a counter at its limit loses the delta, and `SendBatch` returns nil |
| PgDelivery.OnceAnAttemptExactly | internal/repository/pgstorage.go:68-112 | no item is ever executed more than limit + 1 times, if and only if the database cannot land a commit and report an error that is retried |
| PgDelivery.NilMeansStoredExactly | internal/repository/pgstorage.go:88-112 | but for overflow nil means that every item was stored, if and only if no trouble can keep an upsert from taking effect |
| PgDelivery.DatabaseCounterBounds | internal/repository/pgstorage.go:101-112 | over the database a counter grows by at least what the acknowledged attempts executed and at most 4 * (limit + 1) times what was attempted, with no range assumed |
| Agent.StepKeepsInv | internal/agent/agent.go:59-234 | every step of every goroutine keeps the invariant of the transition system |
| Agent.QueueConservation | internal/agent/agent.go:59-100 | in every reachable state, for every limit and interleaving, what was put into the channel is what was taken followed by what is queued; each taken batch goes to one `SendBatch` of its taker; the channel never holds more than the limit |
| Agent.ConcurrencyIsBounded | internal/agent/agent.go:68-99 | the wait group counts the live workers, and at most max(limit, 1) + 1 `SendBatch` calls run at once |
| Agent.BatchesAreGood | internal/agent/agent.go:207-227 | every batch handed to a sender is non-empty, well formed and has distinct ids |
| AgentRuns.TableIsLastReports | internal/agent/agent.go:179-191 | over any run the table holds exactly the ids ever reported, each with what the last poll that reported it said |
| AgentRuns.BatchIsLastReports | internal/agent/agent.go:207-222 | every batch handed to a sender lists exactly those, each once |
| AgentRuns.ChannelGetsTicks | internal/agent/agent.go:193-234 | what went into the channel is, in order and each once, the batches of the ticks whose offer got through; an offer given up leaves nothing behind |
| AgentRuns.NothingStopsBeforeCancel | internal/agent/agent.go:74-130 | no goroutine returns, no offer is given up and nothing is closed before the context is cancelled |
| AgentRuns.EverybodyWorksBeforeCancel | internal/agent/agent.go:59-130 | until the cancel the collector and the dispatcher are at work from the launch on, the ticker from the first poll on, and each spawned worker; nobody is shutting down |
| AgentRuns.StepsAreTakenOnce | internal/agent/agent.go:105-161 | starting, launching, first poll, returning, final send, close and join happen at most once each |
| AgentRuns.NothingAfterReturn | internal/agent/agent.go:122-129 | goroutines that have returned do nothing more |
| AgentRuns.PollsFollowFirst | internal/agent/agent.go:120-129 | the ticker's polls come after the first one, and so does the runner's return |
| AgentRuns.WorkersComeFirst | internal/agent/agent.go:115-120 | polling and dispatching start only after all workers have been started |
| AgentRuns.BoundsAreReached | internal/agent/agent.go:66-98 | for every limit the channel can be full, and all workers and the final send can be under way at once |
| AgentShutdown.PoolRunsDry | internal/agent/agent.go:71-98 | after close no run contains more pool steps than the measure of work that was left |
| AgentShutdown.WaitNeverDeadlocks | internal/agent/agent.go:151-154 | while Shutdown waits, it can return or a worker can step |
| AgentShutdown.Drain | internal/agent/agent.go:71-98 | if every `SendBatch` returns, the workers alone can reach a state with none of them left |
| AgentShutdown.WaitCanEnd | internal/agent/agent.go:133-161 | from every reachable state in which Shutdown waits it can return, with nobody left running |
| AgentShutdown.WaitEnds | internal/agent/agent.go:151-154 | however the steps are scheduled: once more of them were taken, by workers or by Wait returning, than the pool had left to do, Wait has returned |
| AgentShutdown.ShutdownReturns | internal/agent/agent.go:133-161 | so on every run that goes on long enough Shutdown returns, with no worker running if all had been started |
| AgentShutdown.ClosedAfterFinalSend | internal/agent/agent.go:133-152 | before the channel is closed Shutdown has sent all that was collected and that send has returned, unless nothing had ever been reported |
| AgentShutdown.NothingLostWithoutCancel | internal/agent/agent.go:74-98 | in a run in which no worker leaves by the cancelled context, all that was put into the channel has been taken once a worker has left |
| AgentShutdown.EverybodyCanLeave | internal/agent/agent.go:122-129 | once cancelled, runner, collector and dispatcher can all return from whatever they are doing |
| AgentShutdown.LateWorker | internal/agent/agent.go:105-118 | with a worker still to be started, Shutdown can return and the worker run afterwards |
| AgentShutdown.StopDuringStart | internal/agent/agent.go:105-118 | such a state is reachable |
| AgentShutdown.ShutdownJoinsExactlyWhenStarted | internal/agent/agent.go:133-161 | Shutdown is sure to leave no worker behind, if and only if all had been started when it looked at the channel |
| AgentShutdown.PanicsExactlyWhenDispatcherLives | internal/agent/agent.go:229-233 | once the channel is closed a panic is reachable, if and only if the dispatcher's loop has not returned |
| AgentShutdown.CloseUnderDispatcher | internal/agent/agent.go:150-154 | a closed channel under a living dispatcher is reachable |
| AgentShutdown.NoPanicWhenPatient | internal/agent/agent.go:150-154 | whole runs that close the channel only after the dispatcher has returned never panic |
| Collector.MetricsCollector.CollectMetrics | internal/agent/collector.go:18-112 | counts the poll and builds one well-formed entry for every gauge name and for PollCount |
| Collector.CollectSystemMetrics | internal/agent/agent.go:250-290 | builds one well-formed entry with the reported value for what each probe reports, and no other |
| Collector.FirstCores | internal/agent/agent.go:280-282 | cores count from 1 in the ids |
| Grpc.EncodeBatch | internal/agent/grpc_client.go:34-51 | the loop is the item-wise encoding |
| Grpc.GrpcRoundTrip | internal/grpcserver/server.go:24-43 | a batch survives encode and decode, if and only if each item has just its type's field and no hash |
| Grpc.GrpcAcceptance | internal/grpcserver/server.go:24-48 | over gRPC a batch is accepted in full, if and only if no id is empty |
| Grpc.MetricsServer.DecodeBatch | internal/grpcserver/server.go:25-43 | the loop is the item-wise decoding; one unrecognized type refuses all |
| Grpc.MetricsServer.UpdateMetrics | internal/grpcserver/server.go:24-51 | refused requests change nothing; otherwise the longest valid prefix is applied and OK means all of it |
| Grpc.AgentBatchesAreAccepted | internal/agent/agent.go:179-222 | every batch of a reachable agent state is accepted in full, directly and over gRPC, and arrives unchanged |
| ResetGen.GenerateResetCode | cmd/reset/main.go:326-344 | the loop appends the statements of each field in order |
| ResetGen.LocalCode | cmd/reset/main.go:347-438 | the emitted statement of a field without nested Reset has the field's intended effect |
| ResetGen.NestedCode | cmd/reset/main.go:373-424 | for a field with a Reset of its own the emitted statement calls it, on the field or on what it points to |
| ResetGen.GeneratedResetIsCorrect | cmd/reset/main.go:326-438 | for every list of fields the emitted body does what Reset is meant to do; on a nil receiver it does nothing |
| ResetLaws.ResetIsIdempotent | cmd/reset/main.go:326-438 | running a Reset again changes nothing, for every aliasing of pointers |
| ResetLaws.FieldsAreReset | cmd/reset/main.go:347-438 | afterwards every field is in its reset state, nested ones to any depth, for every aliasing of pointers |
| ResetLaws.ResetTerminates | cmd/reset/main.go:373-424 | on graphs without cycles of nested calls the calls end, within the depth of the graph |
| ResetLaws.ResetRuns | cmd/reset/main.go:326-438 | on well-typed memory without such cycles the emitted code runs to its end |
| ResetEffect.ResetFrame | cmd/reset/main.go:326-438 | nothing outside the leaves and maps reached from the receiver changes |
| ResetEffect.ResetEffectIsExact | cmd/reset/main.go:326-438 | unless it overwrites what steers it, a Reset zeroes, cuts and clears exactly what its plan names |
| ResetEffect.ReferencesKeepTheirIdentity | cmd/reset/main.go:364-391 | slices keep backing and capacity, maps and pointers their identity, channels and unknown kinds everything |
| ResetEffect.ResetEndsExactlyWhenAcyclic | cmd/reset/main.go:373-424 | a steady Reset on well-typed memory ends, if and only if chains of nested calls are bounded |
| ResetTypes.AnalyzedFieldFits | cmd/reset/main.go:242-309 | the description made from a field's type fits every variable of that type |
| ResetTypes.StatementResetsByType | cmd/reset/main.go:242-438 | from a field's Go type to what its emitted statement does when run: it resets that variable, or what a pointer written as such leads to, as the type says and touches nothing else, or calls the Reset the type has |
| ResetTypes.ResetByType | cmd/reset/main.go:242-438 | after a whole emitted Reset every field is as its Go type says: numbers 0, bools false, strings empty, slices of length 0, maps empty, arrays and plain structs zero, interfaces and funcs nil, structs with a Reset likewise to any depth |
| ResetTypes.NamedPointersAreNotFollowed | cmd/reset/main.go:249-259 | the emitted statement of a non-nil pointer field, when run, calls the element's Reset or resets what the pointer leads to by its kind, if the field's type is written as a pointer, and does nothing if a name hides the pointer |
| Envelope.Copy | internal/crypto/crypto.go:104-106 | copying into the buffer replaces exactly that stretch |
| Envelope.Assemble | internal/crypto/crypto.go:102-108 | the buffer filled in place is the frame |
| Envelope.FrameRoundTrip | internal/crypto/crypto.go:116-127 | parsing gives the frame back, if and only if the wrapped key is shorter than 65536 bytes |
| Envelope.FrameLayout | internal/crypto/crypto.go:102-108 | the layout byte by byte, the length high byte first |
| Envelope.ParseRefusesExactly | internal/crypto/crypto.go:116-127 | input is refused exactly if it is too short for a length, or for what the length announces |
| Envelope.DecryptsExactlyWhen | internal/crypto/crypto.go:112-150 | input decrypts, if and only if it is a frame, its key unwraps to 16, 24 or 32 bytes, and the ciphertext opens |
| Envelope.ReframeRoundTrip | internal/crypto/crypto.go:116-127 | re-framing any accepted input gives that input back |
| Envelope.DecryptUndoesEncrypt | internal/crypto/crypto.go:70-150 | with matching keys, or none on either side, decryption undoes encryption |
| Pipeline.Request.DecryptBody | internal/middleware/decrypt.go:17-40 | a body that does not decrypt is handed on as it came |
| Pipeline.Request.DecompressBody | internal/middleware/gzip.go:113-129 | only gzip bodies of compressible types are unpacked, and bad ones refused |
| Pipeline.Request.VerifyHash | internal/middleware/hash.go:23-64 | the body is read and put back; requests whose cleaned path is not checked pass, checked ones need the right hash |
| Pipeline.Request.Serve | internal/server/server.go:36 | the three in their order |
| Pipeline.DecryptsExactly | internal/middleware/decrypt.go:17-40 | only POST bodies are decrypted, and those only if they decrypt |
| Pipeline.UnpacksExactly | internal/middleware/gzip.go:113-129 | a body is unpacked exactly if declared as gzip, in whatever case, and as JSON or HTML; any other is handed on as it came |
| Pipeline.UnsignedPassesExactly | internal/middleware/hash.go:23-48 | an unsigned request passes exactly if there is no key, or it is not a POST of JSON to a path that, cleaned, starts with /updates |
| Pipeline.PlainRequestArrives | internal/server/server.go:36 | so a request with none of the headers arrives as it was sent, unless it has to be signed |
| Pipeline.BatchArrives | internal/agent/client.go:215-277 | with matching keys every batch put on the wire reaches the handler as the JSON that was encoded |
| Pipeline.PlainBatchFallsThrough | internal/middleware/decrypt.go:30-35 | a server with a private key still serves unencrypted batches whose compressed body is under 8089 bytes |
| Pipeline.KeysMustAgree | internal/middleware/hash.go:44-61 | a signed batch is accepted, if and only if both keys give its JSON the same HMAC |
| Pipeline.OnlySignedBodiesArrive | internal/middleware/hash.go:44-61 | whatever bytes replace the body of a signed batch, the handler can get to see exactly the bodies with the same HMAC |
| Response.ContentWriter.WriteHeader | internal/middleware/gzip.go:57-63 | the first status is kept |
| Response.ContentWriter.Run | internal/middleware/gzip.go:42-63 | the buffer is the concatenation of all writes and the status the first one set |
| Response.GzipResponseWriter.WriteHeader | internal/middleware/gzip.go:20-29 | the compression headers are set once, with the first status |
| Response.GzipResponseWriter.Write | internal/middleware/gzip.go:31-36 | a write before any status means 200 |
| Response.SendBuffered | internal/middleware/gzip.go:88-103 | the second half of both wrappers: plain with the handler's status, or compressed with 200 |
| Response.CompressAccepted | internal/middleware/gzip.go:75-105 | the reply: buffered for a client that accepts gzip, passed through otherwise |
| Response.CompressAndSign | internal/middleware/gzip.go:144-176 | the reply of the wrapper with a key; without one it is `CompressAccepted` |
| Response.CompressedExactly | internal/middleware/gzip.go:88-103 | the reply is compressed, and then 200, exactly if the client accepts gzip, the status set is below 300 and the content type is JSON or HTML; if not, the writes go out as they are under that status |
| Response.SignedReply | internal/middleware/gzip.go:144-176 | so it is with a key, and the HMAC of the writes is the only header added |
| Response.FirstCodeIsSet | internal/middleware/gzip.go:57-70 | the status is the first one set, 200 if none |
| Response.LastHeaderIsSet | internal/middleware/gzip.go:49-51 | a header holds what was set last |
| Response.WritesConcatenate | internal/middleware/gzip.go:53-55 | the body is the writes one after the other |
| Response.BufferingKeepsTheBody | internal/middleware/gzip.go:144-176 | for every trace of handler calls the hash is the HMAC of the concatenated writes; the decoded body is these, if and only if there are none or the status goes with a body |
| Response.KeyedAndUnkeyedAgree | internal/middleware/gzip.go:75-176 | for clients that accept gzip both wrappers agree on status, encoding and body |
| Response.StatusSurvives | internal/middleware/gzip.go:161-173 | exactly when a wrapped handler's client gets the status of the unwrapped one |
| Response.PassThrough | internal/middleware/gzip.go:77-80 | without buffering the first WriteHeader or Write fixes the status; 204 and 304 go without a body |
| Response.BufferedStatusIsDirect | internal/middleware/gzip.go:42-70 | buffering keeps the unbuffered status, if and only if the handler does not write before setting one other than 200 |

## Left out

- FileStorage.RecoveryIsHistoric: one saver at a time, because concurrent calls of `saveToFile` share one temporary name and take no lock; the timeout path of the stop hook, which can start such a second saver, is excluded with it. Rename is atomic and carries the temporary file's data; nothing is claimed about fsync.
- FileStorage.SaveLoadRoundTrip: ids are Unicode strings; JSON's replacement of invalid UTF-8 in ids is not modelled.
- PgDelivery.DatabaseDelivery: other clients may change the table between any two upserts, but between the retries of one upsert its row changes only by that upsert.
- Restarts.CounterBounds: no I/O failure, and one update with its save at a time; a restart in between drops that update, which then counts as not executed.
- FileService.FileBackedService.Serve: no I/O failure during the sequence; what a failed save leaves is said call by call in `FileStorage`.
- PgStorage.PostgresStorage.UpdateBatch: errors of a transaction are chosen by the script, so the texts that wrap them are not modelled; `updated_at` is left out.
- Pipeline.Request.DecompressBody: corrupt gzip data is refused here, where the code may notice it only when a later reader gets to it; read errors of the connection are left out.
- ResetGen.GeneratedResetIsCorrect: nested Reset methods are generated ones; hand-written Reset methods, the text of the generated file, imports it would need and blank fields (for which the text does not compile) are left out.
- Response.PassThrough: informational 1xx statuses and status codes net/http rejects are not treated specially; neither are HEAD requests.
- Delivery.MemoryDelivery: a batch JSON cannot encode is not sent at all and needs no bound.
- `Float64` does not tell -0 from 0.
- Timers and tickers: only the order of steps and the sequence of scheduled waits.
- The five-second limits on shutdown: `Shutdown` runs on after them.
- `internal/pool`: pooled buffers and compressors are treated as fresh ones.
- `SendMetric` and the single-metric handlers, which follow the same road as batches without the hash check.
- Start-up wiring, logging, routing, configuration, audit, trusted subnets, health checks, HTML listing, the linter: no state worth a proof.
- Go package loading and comment detection in `cmd/reset`: the model starts from the type of a field.
