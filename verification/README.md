# Verified models of the device-management service

This project models, in Dafny, the parts of the service that keep state across requests, processes and failures, and
proves what they keep along every run. Each core is modelled in two layers. The first takes the form of the code: classes
whose fields are the tables, dictionaries and files that the code updates, with methods whose contracts tie the new state
to a function of the old one. The second is a transition system built from the same functions, in which every database
statement, crash and failure is a step of its own; the theorems there quantify over all runs.

- `Queue`, `WorkerLoop`, `QueueProtocol`, `QueueRuns`: the Postgres job queue under any number of workers.
- `RuntimeConfig`, `ConfigSync`: configuration overrides and their propagation to a pod.
- `Traffic`, `TrafficRuns`: the in-memory traffic counters of N replicas and their shared table.
- `Quota`, `QuotaRuns`: fixed-window quotas, in Postgres and in memory. `SlidingLog`: the sliding-window limiter.
- `Rollout`: progressive rollout and update directives. `Flags`, `Catalog`: feature flags and their catalogue.
- `Base64`, `Tokens`: base64url without padding and the signed token. `Upload`: chunked uploads.
- `Common`, `Ordering`, `Numerals`, `PlainText`: sums over finite sets; lexicographic order and sorting; decimal numerals;
  one concrete choice of the text conversions.

SQL statements are atomic functions of tables held as maps. Times and clocks are parameters: whole microseconds where
Postgres computes them (the resolution of its timestamps), reals elsewhere. Random jitter, generated ids, and Python's or a
library's text conversions (`int()`, JSON, HMAC, encryption) are parameters too; where a round trip of a library is needed
it is an explicit hypothesis (`RoundTrips`, `Faithful`); `PlainText` gives functions that meet both.

## What the models show about the code

- `db/schema.sql:85-95` declares no unique constraint on `queue_job_dead_letters.job_id`, while `move_to_dead_letter` says
  `ON CONFLICT (job_id)` (`app/postgres_queue.py:241-250`). Postgres refuses such a statement. The model takes the
  constraint as a parameter. A job can become dead if and only if the constraint is there; without it a failed last
  attempt always ends its worker and leaves the job locked for good (`DeadIsReachableIffConstrained`,
  `FailedLastAttemptOrphansIffUnconstrained`, `OrphanIsReachable`).
- A dead letter can exist for a job that is done: an acknowledgement that raises after its commit on a last attempt is
  followed by a dead-letter transaction. `StrayLetterIsReachable` gives the run; `DeadLettersMatchDeadJobs` says it is the
  only way.
- The purge of quota counters is invisible exactly for windows of at most an hour. The registry enforces that bound on
  edits (`app/runtime_config.py:110-112`), but a value set in the deployment environment is not range-checked. For every
  longer window there is a trace on which the table admits more than its limit in one window.
- A null sent for a key is accepted unless the key is a list, and no pod reads it back as null: a secret becomes the text
  `None` (`SetThenDecode`, `NullSecretReads`).
- A secret with a NUL in it is accepted and committed, and `os.environ` then refuses it in every reload: until that key is
  reset or overwritten no pod records a later generation (`PoisonBlocksPropagation`).
- The sliding-window limiter keeps its limit exactly when calls reach it in clock order or the limit is one; otherwise the
  smallest step back of the clock can admit one call too many (`LimitIsKeptIffInOrder`).
- A flush that fails after some upserts merges their counters back, so requests can be counted twice
  (`CountedTwiceIsReachable`); a committed cell that finds no room in memory is neither lost nor repeated.
- A campaign whose rollback version is not older than its artifact, and differs from it, sends some clients the same
  rollback for ever.
- Forced flag values depend on the order of the rows returned exactly when one name is forced both ways, globally and for
  the plugin, which the unique index on slug and name allows.
- Chunk names sort as their indices up to a million chunks and not beyond.

## Model

| member | source | states |
|---|---|---|
| `Queue.RetryDelay` | app/postgres_queue.py:189-194 | a retry waits the backoff of its own attempt and the jitter drawn, cut to whole seconds, so at least a second and at most the cap plus the jitter |
| `Queue.DelayBelowCap` | app/postgres_queue.py:189-194 | below the cap the n-th retry waits at least base * 2^(n - 1) seconds and at most that plus its jitter |
| `Queue.BackoffMonotone` | app/postgres_queue.py:189-191 | the jitter-free backoff grows with the attempts and never passes the cap |
| `Queue.BackoffSumBelowCap` | app/postgres_queue.py:189-191 | below the cap the waits of k attempts add up to base * (2^k - 1) |
| `Queue.PostgresQueue.constructor` | app/postgres_queue.py:31-48 | each argument is used as given where it is admissible and replaced by the least admissible value where it is not, the cap being at least the base |
| `Queue.PostgresQueue.Enqueue` | app/postgres_queue.py:65-103 | a request without topic is refused; a row of the same topic and non-null key is returned with only updated_at changed; otherwise a new row holds the request, pending, unattempted, with the attempts asked for or the default, due after its delay; no other row changes |
| `Queue.PostgresQueue.First` | app/postgres_queue.py:129 | the row found has the least next_attempt_at and, among those, the least created_at |
| `Queue.PostgresQueue.Select` | app/postgres_queue.py:119-132 | the rows selected are a prefix, in that order and of the requested length, of the eligible rows not skipped as locked |
| `Queue.PostgresQueue.Fetch` | app/postgres_queue.py:150-166 | the list returned holds each updated row once, as the update left it, an empty dedupe key read as none |
| `Queue.PostgresQueue.ClaimJobs` | app/postgres_queue.py:105-166 | the rows taken were pending, due, not locked and not skipped; each is locked by the worker with one more attempt and handed over as a copy; a claimable row is left out only when the batch is full, of rows due earlier or created no later; nothing else changes |
| `Queue.PostgresQueue.Ack` | app/postgres_queue.py:168-187 | true exactly when the row is being processed by this worker; the row is then done, unlocked and completed now, its request, attempts and error as before, and no other row or letter changes |
| `Queue.PostgresQueue.Retry` | app/postgres_queue.py:196-229 | true exactly when the row is being processed by this worker; the row is then pending and unlocked, due after the backoff of this attempt and the jitter, cut to whole seconds, with the error or its first 2000 characters, and nothing else changes |
| `Queue.PostgresQueue.MoveToDeadLetter` | app/postgres_queue.py:231-285 | row and letter change together, or the statement is refused and neither does; a letter already there keeps its topic, payload and key; other rows and letters are untouched |
| `WorkerLoop.HandleBatch` | app/main.py:2212-2237 | each job is acknowledged, dead-lettered or retried by its outcome and attempts, also when the acknowledgement raises, committed or not; stop ends the batch early, and so does a retry or dead-letter call that raises, before or after its commit |
| `WorkerLoop.HandledJobsAreReleased` | app/main.py:2212-2228 | after n jobs of a batch each of them is unlocked, and done, dead with a letter, or pending no earlier than its backoff exactly as its outcome says; the rest is still held |
| `QueueProtocol.StepKeepsInv` | app/main.py:2203-2238 | every step of every worker, with calls that return, raise before or raise after their commit, keeps the invariant |
| `QueueProtocol.RunKeepsInv` | app/main.py:2203-2238 | the invariant holds in every state of every run |
| `QueueRuns.RunKeepsDisjoint` | app/postgres_queue.py:122-131 | no job is ever in two workers' batches |
| `QueueRuns.ReachableStatesAreSafe` | app/postgres_queue.py:111-187 | in every reachable state an unfinished job is pending exactly when its lock columns are NULL, attempts stay within their bounds by status, batches are disjoint, and a call on the head job finds its row exactly when no earlier call for that claim was committed |
| `QueueRuns.OnlyTheOwnerMoves` | app/postgres_queue.py:180-182 | a locked row changes only by a step of the worker that locked it |
| `QueueRuns.RunConserves` | app/postgres_queue.py:172-184 | along a run no row disappears, its request never changes, attempts never fall, and a done or dead row keeps its outcome |
| `QueueRuns.RepeatedEnqueue` | app/postgres_queue.py:88-103 | a repeated enqueue returns the existing id and touches only updated_at |
| `QueueRuns.EnqueuesOfAKeyAgree` | app/postgres_queue.py:81-103 | all enqueues of one topic and key in a run return one id |
| `QueueRuns.StraysComeFromBurials` | app/main.py:2215-2221 | stray letters exist exactly when a dead-letter transaction followed a committed acknowledgement |
| `QueueRuns.DeadLettersMatchDeadJobs` | app/postgres_queue.py:241-283 | every dead job has one letter carrying its topic, payload, attempts and error; there are no other letters exactly when no dead-letter transaction was committed for a job whose acknowledgement had raised after its own commit; without a unique constraint there are neither dead jobs nor letters |
| `QueueRuns.StrayLetterIsReachable` | app/main.py:2215-2221 | a run that ends with a dead letter for a job that is done |
| `QueueRuns.OrphansAreNeverReclaimed` | app/postgres_queue.py:119-128 | a job whose worker left in mid-batch stays locked for ever |
| `QueueRuns.FailedLastAttemptOrphansIffUnconstrained` | app/postgres_queue.py:241-250 | after a failed last attempt every step its worker can take orphans the job if and only if no unique constraint covers the letters' job_id |
| `QueueRuns.BuriedOrOrphaned` | app/postgres_queue.py:241-283 | a dead-letter transaction for a failed last attempt leaves the job dead with its letter for good if it was committed, and otherwise locked for ever |
| `QueueRuns.DeadIsReachableIffConstrained` | db/schema.sql:85-95 | some run makes a job dead if and only if a unique constraint covers the letters' job_id |
| `QueueRuns.OrphanIsReachable` | app/main.py:2219-2221 | a run in which a failed last attempt leaves its job locked and in no live worker's batch |
| `QueueRuns.StepUsesWork` | app/main.py:2203-2228 | every claimed row and every outcome lowers the sum of 2 * (max_attempts - attempts), plus 1 if processing, over unfinished rows |
| `QueueRuns.WorkIsBounded` | app/main.py:2203-2228 | over a whole run the rows claimed plus the outcomes recorded never exceed twice the attempts that the enqueued jobs allow |
| `QueueRuns.DueTimeIsFixed` | app/postgres_queue.py:77-98 | the first due time of a job is its enqueue time plus its initial delay, for good |
| `QueueRuns.RetriedIsDue` | app/postgres_queue.py:189-215 | in the protocol too a retry leaves its job pending and due after the backoff of its own attempt and the jitter |
| `QueueRuns.ClaimsRespectBackoff` | app/postgres_queue.py:189-215 | the k-th claim comes no earlier than enqueue, plus initial delay, plus the backoff of the k - 1 attempts before: base * (2^(k-1) - 1) seconds below the cap |
| `QueueRuns.ClaimedNoEarlier` | app/postgres_queue.py:124-215 | the step that claims a job for the k-th time is made no earlier than that |
| `RuntimeConfig.Clean` | app/runtime_config.py:212-219 | the loop computes the cleaned list |
| `RuntimeConfig.CleanedIsClean` | app/runtime_config.py:212-219 | a list that is set keeps exactly its non-blank items, stripped, each once |
| `RuntimeConfig.CleanStays` | app/runtime_config.py:212-219 | a cleaned list submitted again is stored unchanged |
| `RuntimeConfig.StripTrims` | app/runtime_config.py:164-184 | blanks are cut off at both ends, all of them and nothing else |
| `RuntimeConfig.ListFromText` | app/runtime_config.py:164-175 | text that is no JSON array is read as the items between its commas |
| `RuntimeConfig.InputIsKept` | app/runtime_config.py:204-220 | an input of the key's own type is accepted unchanged, a number exactly when it is within its bounds |
| `RuntimeConfig.TextInput` | app/runtime_config.py:178-211 | text is read by the key's type: four words mean true, a number must parse and be within its bounds |
| `RuntimeConfig.MixedInput` | app/runtime_config.py:164-190 | booleans given for a number, integers for a float, false values for a list, lists for a number |
| `RuntimeConfig.FloatForInteger` | app/runtime_config.py:185-186 | a float given for an integer is cut off towards zero |
| `RuntimeConfig.InputHasType` | app/runtime_config.py:204-220 | an accepted input becomes a value of the key's type, within its bounds and, for a list, cleaned; only null stays null |
| `RuntimeConfig.SetThenDecode` | app/runtime_config.py:178-220 | for every value type, encrypted or not, every pod decodes exactly the value an administrator set if and only if the value sent was not null |
| `RuntimeConfig.NullSecretReads` | app/admin/router.py:3864-3875 | a null accepted for a secret is read back by every pod as the text None |
| `RuntimeConfig.NulSecretIsAccepted` | app/admin/router.py:3864-3875 | a secret that holds a NUL is accepted and reads back as it was set |
| `RuntimeConfig.PlainSecretReads` | app/services/crypto.py:199-203 | a secret stored without the prefix of ciphertexts is read as it stands |
| `RuntimeConfig.BaselineIsDeployed` | app/runtime_config.py:224-238 | the baseline of a key is its settings attribute, else its environment text read by type, else what renders as empty |
| `RuntimeConfig.ConfigPod.SnapshotBaseline` | app/runtime_config.py:224-238 | the baseline is captured once; when a value cannot be coerced it holds what was captured before that key over what it held, and is not marked as captured |
| `RuntimeConfig.ConfigPod.ApplyState` | app/runtime_config.py:242-277 | it succeeds exactly when no effective value holds a NUL; then environment and settings show the overrides over the baseline; in any case each key shows them or is as it was, and nothing outside the registry has changed |
| `RuntimeConfig.ConfigPod.Decode` | app/runtime_config.py:426-439 | exactly the editable keys whose row decodes are kept |
| `RuntimeConfig.ConfigPod.ReloadOverrides` | app/runtime_config.py:416-445 | it succeeds exactly when the overrides read can be applied; then they are in effect and the generation read first is recorded; otherwise no generation is recorded |
| `RuntimeConfig.ConfigPod.SyncOnce` | app/runtime_config.py:679-681 | a pass reloads exactly when the generation differs from the recorded one, and otherwise changes nothing; a reload that raises records nothing |
| `ConfigSync.StepKeepsInv` | app/runtime_config.py:416-445 | every edit, read, key applied, record and failure keeps the protocol invariant |
| `ConfigSync.RecordedMeansCurrent` | app/runtime_config.py:416-445 | in every interleaving, a pod whose recorded generation equals the database's shows exactly the current overrides over its baseline, none of which holds a NUL |
| `ConfigSync.RowsComeFromOneMoment` | app/runtime_config.py:421-425 | the rows being applied are the whole table of one earlier moment |
| `ConfigSync.RecordedIsNeverNewer` | app/runtime_config.py:420-443 | the generation recorded is never newer than the table that was applied, and that table is entirely in effect |
| `ConfigSync.BaselineIsNeverContaminated` | app/runtime_config.py:224-238 | after any history the baseline is that of the starting environment, and nothing outside the registry has changed |
| `ConfigSync.OneReloadSettles` | app/runtime_config.py:664-691 | once edits stop, one reload that completes puts the final table in effect and settles the pod |
| `ConfigSync.SettledStays` | app/runtime_config.py:679-681 | a settled pod does not change until the next edit |
| `ConfigSync.PollNoticesEdits` | app/runtime_config.py:679-681 | a poll starts a reload exactly when the pod is not settled, so always when it shows stale values |
| `ConfigSync.EditsUnsettle` | app/admin/router.py:3878-3895 | every edit leaves the generation in the database newer than any a pod has recorded, and changes no row but its own |
| `ConfigSync.SetValueIsServed` | app/admin/router.py:3864-3895 | the value an administrator set, if nobody edited the key since, is in the environment and settings of every pod that has recorded the current generation |
| `ConfigSync.DeployedValueIsServed` | app/runtime_config.py:264-277 | a key without an override that decodes is back at the value of the starting environment and settings in every pod that has recorded the current generation, whatever was set before |
| `ConfigSync.ResetRestores` | app/admin/router.py:3911-3935 | after a reset the deployed text of a key is in the environment again |
| `ConfigSync.ReloadCompletesIffApplicable` | app/runtime_config.py:242-277 | a reload that has read its rows can complete if and only if no value it has to put in the environment holds a NUL |
| `ConfigSync.PoisonBlocksPropagation` | app/runtime_config.py:426-445 | while a row stands whose value holds a NUL, no pod records its generation or any later one, so none settles, whatever else is edited |
| `Traffic.KeyOf` | app/llm/traffic.py:52-61 | a request is counted in the five-minute bucket of its second, under its status class, its route with one alias resolved, and the first 200 characters of its model |
| `Traffic.StatusClassesAreHundreds` | app/llm/traffic.py:41-45 | statuses share a class exactly when they share their hundreds, and what is not an integer counts as below 100 |
| `Traffic.Accumulator.Oldest` | app/llm/traffic.py:68 | the key given up is the least of all in Python's tuple order, so of the oldest bucket |
| `Traffic.Accumulator.Record` | app/llm/traffic.py:62-75 | its key counts one request more, its duration added and compared with the largest, its tokens added; the oldest key makes room when the memory is full, and the bound is kept |
| `Traffic.TrafficTable.Upsert` | app/llm/traffic.py:102-117 | afterwards every row has the cell of its key added to it, and every other cell a row of its own |
| `Traffic.UpsertsAdd` | app/llm/traffic.py:102-117 | upserts of distinct keys add their cells, whatever the order |
| `Traffic.Accumulator.MergeBack` | app/llm/traffic.py:122-132 | cells of a failed flush are merged back, and dropped only when the memory is full |
| `Traffic.Accumulator.FlushNow` | app/llm/traffic.py:81-133 | a flush adds every cell in memory to the table and empties the memory, or after a failure has added exactly the cells whose upserts were committed and merges everything back |
| `TrafficRuns.FlushIsARun` | app/llm/traffic.py:81-133 | such a flush is a run of the separate steps: swap, upserts, completion or failure |
| `TrafficRuns.TrafficIsConserved` | app/llm/traffic.py:60-133 | per key and quantity, over all replicas and interleavings: the number, durations and tokens of the requests made, plus what is repeated, equal table plus memory plus in flight plus lost, a cell being lost only if it was given up before its upsert or purged, and repeated only if it was merged back after it |
| `TrafficRuns.MemoryIsBounded` | app/llm/traffic.py:65-69 | no replica ever holds more than the maximum number of keys |
| `TrafficRuns.NothingIsUndercounted` | app/llm/traffic.py:119-132 | requests and durations stored, held or lost never fall below those of the requests made, whatever flushes fail midway |
| `TrafficRuns.CountIsExactUnlessRepeated` | app/llm/traffic.py:102-132 | the request count of a key is exact if and only if no failed flush merged back a cell of it that was already upserted |
| `TrafficRuns.CountedTwiceIsReachable` | app/llm/traffic.py:119-132 | a run in which one request is counted twice in the table |
| `TrafficRuns.RunKeepsMax` | app/llm/traffic.py:73-74 | unless a cell of the key was evicted, dropped before its upsert, purged, or gone with its process, its largest duration is stored somewhere |
| `TrafficRuns.MaximumIsExact` | app/llm/traffic.py:112 | a flushed key that no step lost has a row exactly if it was requested, with the largest duration of its requests, even after flushes that failed midway |
| `TrafficRuns.FlushedEqualsOneByOne` | app/llm/traffic.py:81-133 | a flushed key that no step lost and no failed flush repeated reads as if every request had been upserted by itself |
| `TrafficRuns.FlushedCountsRequests` | app/llm/traffic.py:60-133 | the row of such a key has the number of its requests, the sum of their durations, the largest of them and the sum of their tokens |
| `TrafficRuns.RequestOrderIsIrrelevant` | app/llm/traffic.py:109-113 | upserting the same requests in any order gives the same table |
| `TrafficRuns.TableAgreesWithRequests` | app/llm/traffic.py:1-17 | with everything flushed and no step that lost or repeated a cell the table is that of one upsert per request, in any order |
| `Quota.RetryAfterIsLeast` | app/llm/throttle.py:69-71 | retry_after lies in 1..window and is the least whole number of seconds that reaches the next window |
| `Quota.MemoryQuotaStore.Incr` | app/llm/throttle.py:116-127 | the verdict is on the subject's count in the current window, and only past windows of that subject are forgotten |
| `Quota.PostgresQuotaStore.Incr` | app/llm/throttle.py:77-106 | the verdict is on the shared row's count; a purge follows when the last one is old enough |
| `QuotaRuns.MemoryCountsOpenWindows` | app/llm/throttle.py:119-125 | in memory, counters of windows that are not over are exact |
| `QuotaRuns.MemoryPurgeIsInvisible` | app/llm/throttle.py:116-127 | for calls in clock order the in-memory store answers like a counter that is never purged |
| `QuotaRuns.TableCountsOpenWindows` | app/llm/throttle.py:59-68 | in the table, counters of windows that are not over are exact, for windows of at most an hour |
| `QuotaRuns.LongWindowIsForgotten` | app/llm/throttle.py:35 | for a longer window, a trace, its purge made by another subject's call, on which the table gives another verdict than a counter never purged |
| `QuotaRuns.PurgeIsInvisibleIffWithinTheHour` | app/llm/throttle.py:35-106 | on every trace in which each purge follows a request, as in the code, the purge is invisible if and only if the window is at most an hour |
| `QuotaRuns.StoresAdmitAlike` | app/llm/throttle.py:77-127 | for calls in clock order both stores admit exactly the requests that a counter never purged would admit, the table for windows of at most an hour |
| `QuotaRuns.WindowAdmitsItsLimit` | app/llm/throttle.py:88-92 | of n requests of a subject in one window, over all replicas and in clock order, either store admits exactly min(n, limit), the table for windows of at most an hour |
| `QuotaRuns.IntervalIsBounded` | app/llm/throttle.py:3-6 | under the same conditions either store admits, in any interval of time, at most (ceil(length / window) + 1) * limit requests of one subject |
| `QuotaRuns.TableIsExactIffWithinTheHour` | app/llm/throttle.py:35-106 | on every such trace the table admits exactly min(n, limit) in every window if and only if the window is at most an hour |
| `QuotaRuns.IntervalsAreBoundedIffWithinTheHour` | app/llm/throttle.py:35-106 | on every such trace the bound on intervals holds for the table if and only if the window is at most an hour |
| `SlidingLog.RateLimiter.RateLimitOk` | app/admin/suggest_utils.py:228-241 | a limit of zero or less admits; otherwise the call is admitted exactly when fewer than limit hits are in the window, and only its own key changes |
| `SlidingLog.AfterKeepsTheRecent` | app/admin/suggest_utils.py:236 | pruning keeps exactly the hits after the cutoff, each as often as it occurs |
| `SlidingLog.StoredIsTheRecentHistory` | app/admin/suggest_utils.py:236-240 | for calls in clock order the stored list is the part of the full history still in the window |
| `SlidingLog.PruningIsInvisible` | app/admin/suggest_utils.py:236-237 | the pruned list decides every call as the full history would |
| `SlidingLog.StoredIsBounded` | app/admin/suggest_utils.py:237-240 | the stored list never exceeds the limit |
| `SlidingLog.AdmitsLikeTheHistory` | app/admin/suggest_utils.py:228-241 | for calls in clock order the limiter admits exactly the calls that the full history of accepted hits would admit |
| `SlidingLog.NoWindowExceedsTheLimit` | app/admin/suggest_utils.py:228-241 | for calls in clock order every half-open interval of one window's length holds at most limit of the calls the limiter admitted |
| `SlidingLog.GoingBackOverruns` | app/admin/suggest_utils.py:236-240 | for every limit above one and however small a step back of the clock, calls of which limit + 1 are admitted in one window |
| `SlidingLog.LimitIsKeptIffInOrder` | app/admin/suggest_utils.py:228-241 | calls that go back in time by at most some skew keep the limit in every window if and only if the limit is one or the skew is zero |
| `Rollout.CurrentPercent` | app/main.py:1352-1358 | the loop returns the percent of the first stage that is not over at that age or is for everybody, and 100 when there is none |
| `Rollout.PercentIsOfTheRunningStage` | app/main.py:1352-1358 | the percent in force is that of the running stage, found from the sums of the hours |
| `Rollout.PercentIsMonotone` | app/main.py:1339-1358 | the percent in force never shrinks as time passes, if durations are not negative and percents do not fall |
| `Rollout.EndsAtHundred` | app/main.py:1353-1358 | once all stages are over everybody is in |
| `Rollout.EligibleIff` | app/main.py:1382-1391 | a device is let in exactly when it has no id, or there are no stages or no start, or no stage is running any more, or its percentile is below the percent of the one that is |
| `Rollout.VersionIsItsNumbers` | app/main.py:1016-1024 | a dotted version is the tuple of its numbers |
| `Rollout.UnreadableVersionIsZero` | app/main.py:1016-1024 | a version with a segment that is not a number counts as a single zero |
| `Rollout.DirectiveIffDue` | app/main.py:1369-1427 | a client gets a directive if and only if it has a version, is eligible, does not have the artifact, and is behind it or there is a rollback; version, checksum and location in it are those of the one artifact it is sent to |
| `Rollout.DirectivesPersist` | app/main.py:1382-1391 | eligible devices stay eligible, and a directive once given is given again, unchanged, at every later time |
| `Rollout.EverybodyEventually` | app/main.py:1387-1391 | every device is eligible once the stages are over |
| `Rollout.InstallsAreFew` | app/main.py:1369-1427 | whenever it polls, a client installs at most twice in all, once without rollback, if the rollback is absent, is the artifact, carries no version, or is strictly older |
| `Rollout.TwoPollsSuffice` | app/main.py:1369-1427 | from any version string, two polls (one without rollback) after the device became eligible in a widening campaign reach a version that brings no directive at any time |
| `Rollout.RollbackLoops` | app/main.py:1413-1417 | otherwise a client at the rollback version is told to roll back to it at every poll once it is eligible |
| `Rollout.SettlesIffTerminating` | app/main.py:1369-1427 | polling at nondecreasing times a widening campaign in which it becomes eligible, a client stops getting directives from every starting version if and only if that condition on the rollback holds |
| `Flags.GatesOpenWithVersions` | app/main.py:1196-1202 | a later version passes every gate an earlier one passed |
| `Flags.CountsIff` | app/main.py:1158-1214 | a cohort row counts exactly for clients of its cohort and plugin, its flag not deprecated, whose version is known and does not come before either minimum |
| `Flags.ForcesIff` | app/main.py:1233-1256 | a flag forces exactly when it has a value, is not deprecated, is of the client's plugin or global, and the client's version does not come before its minimum |
| `Flags.OlderDoesNotReach` | app/main.py:1196-1202 | a dotted version that is smaller at the first difference does not reach a minimum |
| `Flags.FirstMajorGetsNothingOfTheSecond` | app/main.py:1196-1202 | a client of version 1.0.0 gets no row and no flag that asks for 2.0.0 |
| `Flags.Cohort` | app/main.py:1204-1214 | a flag is overridden exactly when some ungated row names it, to the conjunction of those rows |
| `Flags.ResolveFeatureFlags` | app/main.py:1158-1214 | the loop computes those overrides |
| `Flags.CohortIgnoresOrder` | app/main.py:1211-1212 | the overrides do not depend on the order or repetition of rows |
| `Flags.RaisingTheVersion` | app/main.py:1196-1212 | raising a known plugin version only adds overridden names and only lowers overridden values |
| `Flags.ResolveForcedFlags` | app/main.py:1217-1257 | the loop computes the forced values, a later row replacing an earlier one |
| `Flags.ForcedComesFromARow` | app/main.py:1246-1256 | a name is forced exactly when some ungated row forces it, to a value some such row gives |
| `Flags.ConflictDependsOnOrder` | app/main.py:1256 | two rows that force one name both ways give different results in different orders |
| `Flags.OrderMattersIffInconsistent` | app/main.py:1233-1256 | forced values are independent of the row order if and only if no name is forced both ways |
| `Flags.ConsistentIffNoClash` | app/main.py:1233-1256 | under the unique index on slug and name that is the case exactly when no global row and row of the client's slug force one name both ways |
| `Flags.IndexAllowsAClash` | db/schema.sql:337-337 | the index allows such a pair for every client with a slug, and its order decides the value |
| `Flags.FeaturesArePointwise` | app/main.py:2876-2889 | name by name: the cohorts' conjunction, else the forced value, else the profile's toggle, else the default's |
| `Catalog.FlagCatalog.CollectNames` | app/admin/services/flags.py:142-151 | the names are the union of the toggles over all sections |
| `Catalog.FlagCatalog.Upsert` | app/admin/services/flags.py:156-172 | names are classified by what the table held, in sorted lists, and upserted |
| `Catalog.FlagCatalog.Reconcile` | app/admin/services/flags.py:127-183 | an import yields the reconciled table and the five sorted lists |
| `Catalog.ImportActivatesTheTemplate` | app/admin/services/flags.py:127-140 | afterwards the active flags of the slug are exactly the template's, new ones transparent; forced states are kept and other slugs untouched |
| `Catalog.ReportPartitions` | app/admin/services/flags.py:156-183 | the five lists are disjoint, together name the template's flags and the slug's rows, and each holds exactly the names its title says |
| `Catalog.ReimportChangesNothing` | app/admin/services/flags.py:127-183 | importing again changes nothing and adds, reactivates and orphans nothing |
| `Catalog.OnlyEditsChangeForcedState` | app/admin/services/flags.py:89-96 | over any sequence of imports and edits a flag's forced state is what its last edit left |
| `Catalog.EditsDoWhatTheySay` | app/admin/services/flags.py:76-124 | a default set, a flag created or deleted changes its own row as asked and no other |
| `Catalog.ForcedStateStays` | app/admin/services/flags.py:89-96 | a forced value stays through any imports and other edits until the next edit of that flag |
| `Catalog.ActiveFlagsAreTheLastImport` | app/admin/services/flags.py:127-183 | the active flags of a slug stay those of its last import until a row is created or deleted |
| `Base64.EncodeShape` | app/services/crypto.py:26-28 | the encoding has no dot and no padding, its length is never 1 modulo 4, and the decoder restores exactly the padding cut off |
| `Base64.AlphabetOrder` | app/services/crypto.py:26-28 | the alphabet is that of table 2 of RFC 4648 |
| `Base64.EncodeIsUrlSafe` | app/services/crypto.py:26-28 | every character of an encoding is a letter, a digit, '-' or '_' |
| `Base64.GroupEncodes` | app/services/crypto.py:26-28 | three bytes give four characters that hold their 24 bits in order, and the rest follows |
| `Base64.LastGroupEncodes` | app/services/crypto.py:26-28 | one or two last bytes give two or three characters that hold their bits |
| `Base64.ForeignIsSkipped` | app/services/crypto.py:31-34 | the decoder skips characters that are neither in an alphabet nor padding |
| `Base64.RoundTrip` | app/services/crypto.py:26-34 | every byte sequence is read back exactly |
| `Tokens.AcceptedIffSigned` | app/llm/tokens.py:62-92 | a token is accepted with given fields if and only if a key is configured, its part after the first dot is the HMAC of the part before it, and that part carries these fields, with the scope and an expiry still to come |
| `Tokens.ForgedIsRefused` | app/llm/tokens.py:75-82 | a token whose signature is not the HMAC of its payload is refused, as such when the signature can be decoded |
| `Tokens.MintedTokensVerify` | app/llm/tokens.py:41-92 | under its key a minted token is accepted with exactly the id, times, client, email and scope it was minted with before its expiry, mint time plus max(60, ttl), and refused as expired from then on |
| `Upload.UploadDirectory.SaveChunk` | app/admin/router.py:1652-1677 | an oversized chunk is refused and changes nothing; otherwise its file holds it, the other files are untouched, and the count reported grows exactly when no chunk of that index was there |
| `Upload.UploadDirectory.Reassemble` | app/admin/router.py:1680-1704 | nothing is returned while chunks are missing; otherwise the files in the order of their names, and the directory is emptied |
| `Upload.DigitsOrder` | app/admin/router.py:1657 | among numerals of one width lexicographic order is numeric order |
| `Upload.NamesDiffer` | app/admin/router.py:1657 | different chunks have different names |
| `Upload.CountTellsCompleteness` | app/admin/router.py:1668-1669 | there are as many files as chunks exactly when every chunk has arrived |
| `Upload.ReassemblyIsExact` | app/admin/router.py:1691-1699 | chunks sent in any order, with repetitions, give nothing until all have arrived and then exactly the original |
| `Upload.MillionthIsMisplaced` | app/admin/router.py:1657 | the millionth name sorts before the one it should follow |
| `Upload.ExactIffAtMostAMillion` | app/admin/router.py:1691-1699 | whatever their contents, n chunks are reassembled to the original if and only if they are at most a million |

## Left out

- Pods with two reloaders: admin pods also reload from request handlers, and reloads are not serialised as a whole.
- LISTEN/NOTIFY, pod enrolment, heartbeats and reaping: accelerators and bookkeeping beside the propagation protocol.
- The kill switch, CSRF and audit rows of the configuration handlers.
- Inputs of the configuration handlers that are JSON objects or lists of anything but strings, infinities and not-a-number.
- The default that stands in for a stored `max_attempts` of zero when a job is fetched: stored values are at least one.
- Statistics of the queue, the worker's heartbeat file and the decoding of stored payloads.
- Statement-level concurrency inside Postgres: each statement is atomic, and a claim may skip any set of rows.
- Integer widths of database columns: attempts, counters and generations are unbounded.
- FlushNow: describes a flush that nothing interleaves with; the interleavings are the steps of `TrafficRuns`.
- HandleBatch: describes a batch that nothing interleaves with; the interleavings are the steps of `QueueProtocol`.
- Two flushes at once on one replica: the code starts a single flushing thread.
- The throttle interceptor, which admits when the store fails, and limits or windows that change between requests.
- Quota calls that reach the store out of clock order.
- Serial ids of flags: a row is identified by its slug and name; the indicative booleans collected at import are never used.
- Selection of the active campaign, host-version filters and the hash that gives a device its percentile (any number here).
- Identification and ownership of uploads: directory names, path checks, and two uploads sharing a directory.
- HTTP routes, templates, object storage, identity providers, and the mid-stream proxying of model traffic.
