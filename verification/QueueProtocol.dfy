/** Any number of workers running the worker loop against the queue tables.

    A world is the tables, the clock, and each live worker's unfinished batch. Every database call is one
    atomic step; a call can also raise, before or after its commit, and a worker can leave at any point
    (stop, crash, or an exception that escapes the loop). */
module QueueProtocol {
  import opened Common
  import opened Queue

  /** Running: the head job is being processed. Failed: the loop is in its except branch for the head job;
      acked says whether the acknowledgement that raised had in fact been committed. */
  datatype Phase = Running | Failed(acked: bool)

  datatype Worker = Worker(batch: seq<QueueJob>, phase: Phase)

  /** Auxiliary record of a job: the time its first attempt was due, and the times it was claimed. */
  datatype History = History(due: int, claims: seq<int>)

  /** strays: jobs dead-lettered by a worker whose committed acknowledgement had raised. */
  datatype World = World(now: int, tables: Tables, workers: map<WorkerId, Worker>,
                         history: map<JobId, History>, strays: set<JobId>)

  datatype Call = Returned | RaisedBeforeCommit | RaisedAfterCommit

  datatype Event =
    | Tick(ticks: nat)
    | Enqueued(request: Request, id: JobId)
    | Started(w: WorkerId)
    | Left(w: WorkerId)
    | Claimed(w: WorkerId, limit: int, skipped: set<JobId>, batch: seq<QueueJob>)
    | Acked(w: WorkerId)
    | JobFailed(w: WorkerId)
    | AckRaised(w: WorkerId, committed: bool)
    | Retried(w: WorkerId, jitter: real, error: string, call: Call)
    | Buried(w: WorkerId, error: string, call: Call)

  predicate Busy(s: World, w: WorkerId) {
    w in s.workers && s.workers[w].batch != []
  }

  ghost predicate Enabled(c: Config, s: World, e: Event) {
    match e
    case Tick(_) => true
    case Enqueued(r, id) => r.topic != "" && EnqueueReturns(s.tables, r, id)
    case Started(w) => w !in s.workers
    case Left(w) => w in s.workers
    case Claimed(w, limit, skipped, batch) =>
      && w in s.workers && s.workers[w] == Worker([], Running)
      && IsClaim(s.tables, c, s.now, limit, skipped, IdsOf(batch))
      && IsBatch(ClaimIn(s.tables, w, s.now, IdsOf(batch)), IdsOf(batch), batch)
    case Acked(w) => Busy(s, w) && s.workers[w].phase.Running?
    case JobFailed(w) => Busy(s, w) && s.workers[w].phase.Running?
    case AckRaised(w, _) => Busy(s, w) && s.workers[w].phase.Running?
    case Retried(w, jitter, _, _) =>
      && Busy(s, w) && s.workers[w].phase.Failed?
      && s.workers[w].batch[0].attempts < s.workers[w].batch[0].maxAttempts
      && 0.0 <= jitter <= c.retryJitter
    case Buried(w, _, call) =>
      && Busy(s, w) && s.workers[w].phase.Failed?
      && s.workers[w].batch[0].attempts >= s.workers[w].batch[0].maxAttempts
      && (c.lettersUnique || call.RaisedBeforeCommit?)
  }

  /** After the last call for the head job: go on to the next one, or let the exception end the loop. */
  function AfterCall(s: World, w: WorkerId, call: Call): map<WorkerId, Worker>
    requires Busy(s, w)
  {
    if call.Returned? then s.workers[w := Worker(s.workers[w].batch[1..], Running)] else s.workers - {w}
  }

  function WithPhase(s: World, w: WorkerId, phase: Phase): map<WorkerId, Worker>
    requires Busy(s, w)
  {
    s.workers[w := s.workers[w].(phase := phase)]
  }

  function EnqueueTo(c: Config, s: World, r: Request, id: JobId): World {
    var t := EnqueueIn(s.tables, c, r, id, s.now);
    s.(tables := t,
       history := if id in s.tables.jobs then s.history else s.history[id := History(t.jobs[id].nextAttemptAt, [])])
  }

  function ClaimTo(s: World, w: WorkerId, batch: seq<QueueJob>): World {
    s.(tables := ClaimIn(s.tables, w, s.now, IdsOf(batch)),
       workers := s.workers[w := Worker(batch, Running)],
       history := map id | id in s.history ::
         if id in IdsOf(batch) then s.history[id].(claims := s.history[id].claims + [s.now]) else s.history[id])
  }

  function AckTo(s: World, w: WorkerId): World
    requires Busy(s, w)
  {
    s.(tables := AckIn(s.tables, s.workers[w].batch[0].id, w, s.now), workers := AfterCall(s, w, Returned))
  }

  function AckRaiseTo(s: World, w: WorkerId, committed: bool): World
    requires Busy(s, w)
  {
    s.(tables := if committed then AckIn(s.tables, s.workers[w].batch[0].id, w, s.now) else s.tables,
       workers := WithPhase(s, w, Failed(committed)))
  }

  function RetryTo(s: World, w: WorkerId, delay: int, error: string, call: Call): World
    requires Busy(s, w)
  {
    s.(tables := if call.RaisedBeforeCommit? then s.tables
                 else RetryIn(s.tables, s.workers[w].batch[0].id, w, delay, error, s.now),
       workers := AfterCall(s, w, call))
  }

  function BuryTo(s: World, w: WorkerId, error: string, call: Call): World
    requires Busy(s, w) && s.workers[w].phase.Failed?
  {
    var q := s.workers[w].batch[0];
    s.(tables := if call.RaisedBeforeCommit? then s.tables else BuryIn(s.tables, q, w, error, s.now),
       workers := AfterCall(s, w, call),
       strays := if !call.RaisedBeforeCommit? && s.workers[w].phase.acked then s.strays + {q.id} else s.strays)
  }

  ghost function Step(c: Config, s: World, e: Event): World
    requires ValidConfig(c) && Enabled(c, s, e)
  {
    match e
    case Tick(d) => s.(now := s.now + d)
    case Enqueued(r, id) => EnqueueTo(c, s, r, id)
    case Started(w) => s.(workers := s.workers[w := Worker([], Running)])
    case Left(w) => s.(workers := s.workers - {w})
    case Claimed(w, _, _, batch) => ClaimTo(s, w, batch)
    case Acked(w) => AckTo(s, w)
    case JobFailed(w) => s.(workers := WithPhase(s, w, Failed(false)))
    case AckRaised(w, committed) => AckRaiseTo(s, w, committed)
    case Retried(w, jitter, error, call) =>
      RetryTo(s, w, RetryDelay(c, s.workers[w].batch[0].attempts, jitter), error, call)
    case Buried(w, error, call) => BuryTo(s, w, error, call)
  }

  ghost predicate Initial(s: World) {
    s.tables == Tables(map[], map[]) && s.workers == map[] && s.history == map[] && s.strays == {}
  }

  ghost predicate IsRun(c: Config, worlds: seq<World>, events: seq<Event>) {
    && ValidConfig(c)
    && |worlds| == |events| + 1
    && Initial(worlds[0])
    && forall i :: 0 <= i < |events| ==>
         Enabled(c, worlds[i], events[i]) && worlds[i + 1] == Step(c, worlds[i], events[i])
  }

  // ---- The invariant ----

  /** Attempts are bounded and the lock columns are set exactly while the row is being processed. */
  predicate RowOk(j: Job) {
    && 0 <= j.attempts <= j.maxAttempts && 1 <= j.maxAttempts
    && j.lockOwner.Some? == j.lockedAt.Some? == j.status.Processing?
    && (j.status.Pending? ==> j.attempts < j.maxAttempts)
    && (j.status.Processing? || j.status.Done? ==> 1 <= j.attempts)
    && (j.status.Dead? ==> j.attempts == j.maxAttempts)
    && j.completedAt.Some? == (j.status.Done? || j.status.Dead?)
  }

  ghost predicate RowsOk(t: Tables) {
    forall id :: id in t.jobs ==> RowOk(t.jobs[id])
  }

  /** At most one row per (topic, non-null dedupe key). */
  ghost predicate KeysUnique(t: Tables) {
    forall a, b :: a in t.jobs && b in t.jobs && a != b ==> !SameKey(t.jobs[a], t.jobs[b].topic, t.jobs[b].dedupe)
  }

  predicate Holds(t: Tables, w: WorkerId, q: QueueJob) {
    Finds(t, q.id, w) && q == Snapshot(q.id, t.jobs[q.id])
  }

  predicate AlreadyDone(t: Tables, q: QueueJob) {
    q.id in t.jobs && t.jobs[q.id].status.Done? && q == Snapshot(q.id, t.jobs[q.id])
  }

  /** Every job left in a batch is still that worker's, except a head whose acknowledgement was committed. */
  ghost predicate BatchOk(t: Tables, w: WorkerId, k: Worker) {
    && (k.phase.Failed? ==> k.batch != [])
    && (forall i, j :: 0 <= i < j < |k.batch| ==> k.batch[i].id != k.batch[j].id)
    && (forall i :: 1 <= i < |k.batch| ==> Holds(t, w, k.batch[i]))
    && (k.batch != [] ==>
          if k.phase == Failed(true) then AlreadyDone(t, k.batch[0]) else Holds(t, w, k.batch[0]))
  }

  ghost predicate BatchesOk(s: World) {
    forall w :: w in s.workers ==> BatchOk(s.tables, w, s.workers[w])
  }

  function WithStatus(t: Tables, status: Status): set<JobId> {
    set id | id in t.jobs && t.jobs[id].status == status
  }

  /** The letter carries the job as its last attempt left it. */
  predicate LetterOk(j: Job, l: DeadLetter) {
    && l.topic == j.topic && l.payload == j.payload && l.dedupe == Snapshot(0, j).dedupe
    && l.attempts == j.attempts && l.maxAttempts == j.maxAttempts
    && (j.status.Dead? ==> j.lastError == Some(l.lastError) && j.completedAt == Some(l.createdAt))
  }

  ghost predicate LettersOk(c: Config, s: World) {
    && s.tables.letters.Keys == WithStatus(s.tables, Dead) + s.strays
    && s.strays <= WithStatus(s.tables, Done)
    && (forall id :: id in s.tables.letters && id in s.tables.jobs ==>
          LetterOk(s.tables.jobs[id], s.tables.letters[id]))
    && (!c.lettersUnique ==> s.tables.letters == map[])
  }

  /** Each claim respects the backoff of the attempts before it, and the lock dates from the last claim. */
  ghost predicate HistoryOk(c: Config, now: int, j: Job, h: History) {
    && |h.claims| == j.attempts
    && j.createdAt <= h.due && j.createdAt <= j.updatedAt <= now
    && (j.lockedAt.Some? ==> h.claims != [] && j.lockedAt.value == h.claims[|h.claims| - 1])
    && (forall k :: 0 <= k < |h.claims| ==>
          h.due + TICKS_PER_SECOND * BackoffSum(c, k) <= h.claims[k] <= now)
    && (j.status.Pending? ==> h.due + TICKS_PER_SECOND * BackoffSum(c, j.attempts) <= j.nextAttemptAt)
  }

  ghost predicate HistoriesOk(c: Config, s: World) {
    && s.history.Keys == s.tables.jobs.Keys
    && forall id :: id in s.tables.jobs ==>
         0 <= s.tables.jobs[id].attempts && HistoryOk(c, s.now, s.tables.jobs[id], s.history[id])
  }

  ghost predicate Inv(c: Config, s: World) {
    && RowsOk(s.tables)
    && KeysUnique(s.tables)
    && BatchesOk(s)
    && LettersOk(c, s)
    && HistoriesOk(c, s)
  }

  // ---- Every step keeps it: first the tables alone ----

  /** t' is t with at most row id replaced, by a row of the same topic and dedupe key. */
  ghost predicate Replaces(t: Tables, t': Tables, id: JobId) {
    && id in t.jobs && id in t'.jobs
    && t'.jobs == t.jobs[id := t'.jobs[id]]
    && t'.jobs[id].topic == t.jobs[id].topic && t'.jobs[id].dedupe == t.jobs[id].dedupe
  }

  lemma ReplacesKeepsRows(t: Tables, t': Tables, id: JobId)
    requires RowsOk(t) && KeysUnique(t) && Replaces(t, t', id) && RowOk(t'.jobs[id])
    ensures RowsOk(t') && KeysUnique(t')
  {
  }

  lemma EnqueueKeepsRows(t: Tables, c: Config, r: Request, id: JobId, now: int)
    requires ValidConfig(c) && RowsOk(t) && KeysUnique(t) && EnqueueReturns(t, r, id)
    ensures RowsOk(EnqueueIn(t, c, r, id, now)) && KeysUnique(EnqueueIn(t, c, r, id, now))
  {
    var t' := EnqueueIn(t, c, r, id, now);
    if id in t.jobs {
      ReplacesKeepsRows(t, t', id);
    } else {
      forall k | k in t.jobs ensures !SameKey(t.jobs[k], r.topic, r.dedupe) {}
      forall a, b | a in t'.jobs && b in t'.jobs && a != b
        ensures !SameKey(t'.jobs[a], t'.jobs[b].topic, t'.jobs[b].dedupe)
      {
        if a == id {
          assert !SameKey(t.jobs[b], r.topic, r.dedupe);
        }
      }
    }
  }

  lemma ClaimKeepsRows(t: Tables, c: Config, w: WorkerId, now: int, picked: set<JobId>)
    requires RowsOk(t) && KeysUnique(t) && picked <= EligibleIds(t, c, now)
    ensures RowsOk(ClaimIn(t, w, now, picked)) && KeysUnique(ClaimIn(t, w, now, picked))
  {
    var t' := ClaimIn(t, w, now, picked);
    forall id | id in t'.jobs ensures RowOk(t'.jobs[id]) {
      assert RowOk(t.jobs[id]);
    }
    forall a, b | a in t'.jobs && b in t'.jobs && a != b
      ensures !SameKey(t'.jobs[a], t'.jobs[b].topic, t'.jobs[b].dedupe)
    {
      assert !SameKey(t.jobs[a], t.jobs[b].topic, t.jobs[b].dedupe);
    }
  }

  lemma EnqueueKeepsStatuses(t: Tables, c: Config, r: Request, id: JobId, now: int)
    ensures WithStatus(EnqueueIn(t, c, r, id, now), Dead) == WithStatus(t, Dead)
    ensures WithStatus(EnqueueIn(t, c, r, id, now), Done) == WithStatus(t, Done)
  {
    var t' := EnqueueIn(t, c, r, id, now);
    forall k ensures k in WithStatus(t', Dead) <==> k in WithStatus(t, Dead)
             ensures k in WithStatus(t', Done) <==> k in WithStatus(t, Done) {}
  }

  lemma ClaimKeepsStatuses(t: Tables, c: Config, w: WorkerId, now: int, picked: set<JobId>)
    requires picked <= EligibleIds(t, c, now)
    ensures WithStatus(ClaimIn(t, w, now, picked), Dead) == WithStatus(t, Dead)
    ensures WithStatus(ClaimIn(t, w, now, picked), Done) == WithStatus(t, Done)
  {
    var t' := ClaimIn(t, w, now, picked);
    forall k ensures k in WithStatus(t', Dead) <==> k in WithStatus(t, Dead)
             ensures k in WithStatus(t', Done) <==> k in WithStatus(t, Done) {}
  }

  // ---- The batches ----

  /** Rows keep what a batch relies on. */
  predicate Alike(a: Job, b: Job) {
    && a.status == b.status && a.lockOwner == b.lockOwner
    && Snapshot(0, a) == Snapshot(0, b)
  }

  lemma BatchFrame(t: Tables, t': Tables, w: WorkerId, k: Worker)
    requires BatchOk(t, w, k)
    requires forall q :: q in k.batch ==> q.id in t.jobs && q.id in t'.jobs && Alike(t.jobs[q.id], t'.jobs[q.id])
    ensures BatchOk(t', w, k)
  {
    forall i | 0 <= i < |k.batch|
      ensures Holds(t, w, k.batch[i]) == Holds(t', w, k.batch[i])
      ensures AlreadyDone(t, k.batch[i]) == AlreadyDone(t', k.batch[i])
    {
      assert k.batch[i] in k.batch;
    }
  }

  lemma BatchRows(t: Tables, w: WorkerId, k: Worker, q: QueueJob)
    requires BatchOk(t, w, k) && q in k.batch
    ensures q.id in t.jobs && (Holds(t, w, q) || AlreadyDone(t, q))
  {
    var i :| 0 <= i < |k.batch| && k.batch[i] == q;
    assert i >= 1 ==> Holds(t, w, k.batch[i]);
  }

  lemma EnqueueKeepsBatch(t: Tables, c: Config, r: Request, id: JobId, now: int, w: WorkerId, k: Worker)
    requires BatchOk(t, w, k)
    ensures BatchOk(EnqueueIn(t, c, r, id, now), w, k)
  {
    forall q | q in k.batch ensures q.id in t.jobs {
      BatchRows(t, w, k, q);
    }
    BatchFrame(t, EnqueueIn(t, c, r, id, now), w, k);
  }

  lemma ClaimKeepsBatch(t: Tables, c: Config, now: int, v: WorkerId, picked: set<JobId>, w: WorkerId, k: Worker)
    requires BatchOk(t, w, k) && picked <= EligibleIds(t, c, now)
    ensures BatchOk(ClaimIn(t, v, now, picked), w, k)
  {
    forall q | q in k.batch ensures q.id in t.jobs && q.id !in picked {
      BatchRows(t, w, k, q);
    }
    BatchFrame(t, ClaimIn(t, v, now, picked), w, k);
  }

  lemma ClaimMakesBatch(t: Tables, c: Config, now: int, w: WorkerId, batch: seq<QueueJob>)
    requires IdsOf(batch) <= EligibleIds(t, c, now)
    requires IsBatch(ClaimIn(t, w, now, IdsOf(batch)), IdsOf(batch), batch)
    ensures BatchOk(ClaimIn(t, w, now, IdsOf(batch)), w, Worker(batch, Running))
  {
    forall i | 0 <= i < |batch| ensures Holds(ClaimIn(t, w, now, IdsOf(batch)), w, batch[i]) {
      assert batch[i] in batch && batch[i].id in IdsOf(batch);
    }
  }

  /** Replacing a row that worker v holds disturbs nobody else's batch. */
  lemma ReplacesKeepsBatch(t: Tables, t': Tables, q: QueueJob, v: WorkerId, w: WorkerId, k: Worker)
    requires BatchOk(t, w, k) && Holds(t, v, q) && Replaces(t, t', q.id) && v != w
    ensures BatchOk(t', w, k)
  {
    forall p | p in k.batch ensures p.id in t.jobs && p.id != q.id {
      BatchRows(t, w, k, p);
    }
    BatchFrame(t, t', w, k);
  }

  lemma ReplacesKeepsTail(t: Tables, t': Tables, w: WorkerId, k: Worker)
    requires BatchOk(t, w, k) && k.batch != [] && Replaces(t, t', k.batch[0].id)
    ensures BatchOk(t', w, Worker(k.batch[1..], Running))
  {
    var tail := Worker(k.batch[1..], Running);
    assert BatchOk(t, w, tail);
    forall q | q in tail.batch ensures q.id in t.jobs && q.id != k.batch[0].id {
      BatchRows(t, w, tail, q);
    }
    BatchFrame(t, t', w, tail);
  }

  // ---- The histories ----

  lemma NewHistory(c: Config, now: int, r: Request)
    requires ValidConfig(c)
    ensures HistoryOk(c, now, NewRow(c, r, now), History(NewRow(c, r, now).nextAttemptAt, []))
  {
    assert BackoffSum(c, 0) == 0;
  }

  lemma TouchKeepsHistory(c: Config, now: int, j: Job, h: History)
    requires HistoryOk(c, now, j, h) && 0 <= j.attempts
    ensures HistoryOk(c, now, j.(updatedAt := now), h)
  {
  }

  lemma EnqueueKeepsHistories(c: Config, s: World, r: Request, id: JobId)
    requires ValidConfig(c) && HistoriesOk(c, s)
    ensures HistoriesOk(c, EnqueueTo(c, s, r, id))
  {
    var s' := EnqueueTo(c, s, r, id);
    if id in s.tables.jobs {
      TouchKeepsHistory(c, s.now, s.tables.jobs[id], s.history[id]);
    } else {
      NewHistory(c, s.now, r);
    }
    forall k | k in s'.tables.jobs
      ensures 0 <= s'.tables.jobs[k].attempts && HistoryOk(c, s'.now, s'.tables.jobs[k], s'.history[k])
    {
      assert k != id ==> s'.tables.jobs[k] == s.tables.jobs[k] && s'.history[k] == s.history[k];
    }
  }

  lemma ClaimKeepsHistory(c: Config, now: int, j: Job, h: History, w: WorkerId)
    requires j.attempts >= 0 && HistoryOk(c, now, j, h) && Eligible(c, j, now)
    ensures HistoryOk(c, now, ClaimRow(j, w, now), h.(claims := h.claims + [now]))
  {
  }

  lemma ClaimKeepsHistories(c: Config, s: World, w: WorkerId, batch: seq<QueueJob>)
    requires HistoriesOk(c, s) && IdsOf(batch) <= EligibleIds(s.tables, c, s.now)
    ensures HistoriesOk(c, ClaimTo(s, w, batch))
  {
    var s' := ClaimTo(s, w, batch);
    forall k | k in s'.tables.jobs
      ensures 0 <= s'.tables.jobs[k].attempts && HistoryOk(c, s'.now, s'.tables.jobs[k], s'.history[k])
    {
      if k in IdsOf(batch) {
        ClaimKeepsHistory(c, s.now, s.tables.jobs[k], s.history[k], w);
      }
    }
  }

  /** A retry is scheduled no earlier than the last claim plus the backoff of that attempt. */
  lemma RetryKeepsHistory(c: Config, now: int, j: Job, h: History, delay: int, error: Option<string>)
    requires HistoryOk(c, now, j, h) && 1 <= j.attempts && delay >= Backoff(c, j.attempts)
    ensures HistoryOk(c, now, Release(j, Pending, now).(
                        nextAttemptAt := now + TICKS_PER_SECOND * delay, lastError := error), h)
  {
    assert BackoffSum(c, j.attempts) == BackoffSum(c, j.attempts - 1) + Backoff(c, j.attempts);
    assert h.claims[j.attempts - 1] <= now;
  }

  // ---- Whole steps ----

  lemma EnqueueKeepsLetters(c: Config, s: World, r: Request, id: JobId)
    requires LettersOk(c, s)
    ensures LettersOk(c, EnqueueTo(c, s, r, id))
  {
    EnqueueKeepsStatuses(s.tables, c, r, id, s.now);
    var t' := EnqueueTo(c, s, r, id).tables;
    forall k | k in t'.letters && k in t'.jobs ensures LetterOk(t'.jobs[k], t'.letters[k]) {
      assert k in WithStatus(s.tables, Dead) || k in WithStatus(s.tables, Done);
    }
  }

  lemma EnqueuedKeeps(c: Config, s: World, r: Request, id: JobId)
    requires ValidConfig(c) && Inv(c, s) && EnqueueReturns(s.tables, r, id)
    ensures Inv(c, EnqueueTo(c, s, r, id))
  {
    var s' := EnqueueTo(c, s, r, id);
    EnqueueKeepsRows(s.tables, c, r, id, s.now);
    EnqueueKeepsHistories(c, s, r, id);
    EnqueueKeepsLetters(c, s, r, id);
    forall w | w in s'.workers ensures BatchOk(s'.tables, w, s'.workers[w]) {
      EnqueueKeepsBatch(s.tables, c, r, id, s.now, w, s.workers[w]);
    }
  }

  lemma ClaimKeepsBatches(c: Config, s: World, w: WorkerId, batch: seq<QueueJob>)
    requires BatchesOk(s) && IdsOf(batch) <= EligibleIds(s.tables, c, s.now)
    requires IsBatch(ClaimIn(s.tables, w, s.now, IdsOf(batch)), IdsOf(batch), batch)
    ensures BatchesOk(ClaimTo(s, w, batch))
  {
    var s' := ClaimTo(s, w, batch);
    forall v | v in s'.workers ensures BatchOk(s'.tables, v, s'.workers[v]) {
      if v == w {
        ClaimMakesBatch(s.tables, c, s.now, w, batch);
      } else {
        ClaimKeepsBatch(s.tables, c, s.now, w, IdsOf(batch), v, s.workers[v]);
      }
    }
  }

  lemma ClaimKeepsLetters(c: Config, s: World, w: WorkerId, batch: seq<QueueJob>)
    requires LettersOk(c, s) && IdsOf(batch) <= EligibleIds(s.tables, c, s.now)
    ensures LettersOk(c, ClaimTo(s, w, batch))
  {
    ClaimKeepsStatuses(s.tables, c, w, s.now, IdsOf(batch));
    var t' := ClaimTo(s, w, batch).tables;
    forall id | id in t'.letters && id in t'.jobs ensures LetterOk(t'.jobs[id], t'.letters[id]) {
      assert id in WithStatus(s.tables, Dead) || id in WithStatus(s.tables, Done);
      assert id !in IdsOf(batch);
    }
  }

  lemma ClaimedKeeps(c: Config, s: World, w: WorkerId, batch: seq<QueueJob>)
    requires Inv(c, s) && IdsOf(batch) <= EligibleIds(s.tables, c, s.now)
    requires IsBatch(ClaimIn(s.tables, w, s.now, IdsOf(batch)), IdsOf(batch), batch)
    ensures Inv(c, ClaimTo(s, w, batch))
  {
    ClaimKeepsRows(s.tables, c, w, s.now, IdsOf(batch));
    ClaimKeepsHistories(c, s, w, batch);
    ClaimKeepsBatches(c, s, w, batch);
    ClaimKeepsLetters(c, s, w, batch);
  }

  lemma HeadIsHeld(c: Config, s: World, w: WorkerId)
    requires Inv(c, s) && Busy(s, w) && s.workers[w].phase != Failed(true)
    ensures var q := s.workers[w].batch[0];
            && Holds(s.tables, w, q) && RowOk(s.tables.jobs[q.id])
            && q.id in s.history && HistoryOk(c, s.now, s.tables.jobs[q.id], s.history[q.id])
  {
    assert BatchOk(s.tables, w, s.workers[w]);
  }

  /** A call on a head job that is still held moves that one row; nobody else's batch notices. */
  lemma CallKeepsBatches(s: World, t': Tables, w: WorkerId)
    requires BatchesOk(s) && Busy(s, w) && Holds(s.tables, w, s.workers[w].batch[0])
    requires Replaces(s.tables, t', s.workers[w].batch[0].id)
    ensures forall v :: v in s.workers && v != w ==> BatchOk(t', v, s.workers[v])
    ensures BatchOk(t', w, Worker(s.workers[w].batch[1..], Running))
  {
    ReplacesKeepsTail(s.tables, t', w, s.workers[w]);
    forall v | v in s.workers && v != w ensures BatchOk(t', v, s.workers[v]) {
      ReplacesKeepsBatch(s.tables, t', s.workers[w].batch[0], w, v, s.workers[v]);
    }
  }

  lemma CallKeepsHistories(c: Config, s: World, t': Tables, id: JobId)
    requires HistoriesOk(c, s) && Replaces(s.tables, t', id)
    requires 0 <= t'.jobs[id].attempts && HistoryOk(c, s.now, t'.jobs[id], s.history[id])
    ensures HistoriesOk(c, s.(tables := t'))
  {
    assert t'.jobs.Keys == s.tables.jobs.Keys;
  }

  lemma StatusAfterReplace(t: Tables, t': Tables, id: JobId, status: Status)
    requires Replaces(t, t', id) && t.jobs[id].status != status
    ensures WithStatus(t', status) == WithStatus(t, status) + if t'.jobs[id].status == status then {id} else {}
  {
  }

  lemma LettersAfterCall(c: Config, s: World, t': Tables, id: JobId)
    requires LettersOk(c, s) && Replaces(s.tables, t', id) && s.tables.jobs[id].status.Processing?
    requires if t'.jobs[id].status.Dead?
             then && c.lettersUnique && id in t'.letters && t'.letters == s.tables.letters[id := t'.letters[id]]
                  && LetterOk(t'.jobs[id], t'.letters[id])
             else t'.letters == s.tables.letters
    ensures LettersOk(c, s.(tables := t'))
  {
    assert id !in s.tables.letters by {
      assert id !in WithStatus(s.tables, Dead) && id !in WithStatus(s.tables, Done);
    }
    StatusAfterReplace(s.tables, t', id, Dead);
    StatusAfterReplace(s.tables, t', id, Done);
  }

  /** What the invariant asks of tables that replace those of s. */
  ghost predicate TablesOk(c: Config, s: World, t': Tables) {
    RowsOk(t') && KeysUnique(t') && LettersOk(c, s.(tables := t')) && HistoriesOk(c, s.(tables := t'))
  }

  lemma CallKeepsTables(c: Config, s: World, t': Tables, id: JobId)
    requires Inv(c, s) && Replaces(s.tables, t', id) && s.tables.jobs[id].status.Processing? && RowOk(t'.jobs[id])
    requires if t'.jobs[id].status.Dead?
             then && c.lettersUnique && id in t'.letters && t'.letters == s.tables.letters[id := t'.letters[id]]
                  && LetterOk(t'.jobs[id], t'.letters[id])
             else t'.letters == s.tables.letters
    requires id in s.history && HistoryOk(c, s.now, t'.jobs[id], s.history[id])
    ensures TablesOk(c, s, t')
  {
    ReplacesKeepsRows(s.tables, t', id);
    LettersAfterCall(c, s, t', id);
    CallKeepsHistories(c, s, t', id);
  }

  lemma AckKeepsTables(c: Config, s: World, w: WorkerId)
    requires Inv(c, s) && Busy(s, w) && s.workers[w].phase != Failed(true)
    ensures var q, t' := s.workers[w].batch[0], AckTo(s, w).tables;
            && Replaces(s.tables, t', q.id) && AlreadyDone(t', q) && TablesOk(c, s, t')
  {
    var q, t' := s.workers[w].batch[0], AckTo(s, w).tables;
    HeadIsHeld(c, s, w);
    CallKeepsTables(c, s, t', q.id);
  }

  lemma AckKeeps(c: Config, s: World, w: WorkerId)
    requires Inv(c, s) && Busy(s, w) && s.workers[w].phase.Running?
    ensures Inv(c, AckTo(s, w))
  {
    HeadIsHeld(c, s, w);
    AckKeepsTables(c, s, w);
    CallKeepsBatches(s, AckTo(s, w).tables, w);
  }

  /** The rest of the batch is held, and the head is done: the batch of a worker whose acknowledgement raised. */
  lemma DoneHeadBatch(t: Tables, t': Tables, w: WorkerId, k: Worker)
    requires BatchOk(t, w, k) && k.batch != []
    requires BatchOk(t', w, Worker(k.batch[1..], Running)) && AlreadyDone(t', k.batch[0])
    ensures BatchOk(t', w, k.(phase := Failed(true)))
  {
    var tail := Worker(k.batch[1..], Running);
    forall i | 1 <= i < |k.batch| ensures Holds(t', w, k.batch[i]) {
      assert tail.batch[i - 1] == k.batch[i];
      assert i - 1 == 0 || Holds(t', w, tail.batch[i - 1]);
    }
  }

  lemma AckRaisedKeeps(c: Config, s: World, w: WorkerId)
    requires Inv(c, s) && Busy(s, w) && s.workers[w].phase.Running?
    ensures Inv(c, AckRaiseTo(s, w, true))
  {
    var t' := AckTo(s, w).tables;
    HeadIsHeld(c, s, w);
    AckKeepsTables(c, s, w);
    CallKeepsBatches(s, t', w);
    DoneHeadBatch(s.tables, t', w, s.workers[w]);
  }

  lemma RetryReplaces(t: Tables, q: QueueJob, w: WorkerId, delay: int, error: string, now: int)
    requires Holds(t, w, q) && RowOk(t.jobs[q.id]) && q.attempts < q.maxAttempts
    ensures var t' := RetryIn(t, q.id, w, delay, error, now);
            && Replaces(t, t', q.id) && RowOk(t'.jobs[q.id]) && t'.letters == t.letters
            && t'.jobs[q.id] == Release(t.jobs[q.id], Pending, now).(
                 nextAttemptAt := now + TICKS_PER_SECOND * delay, lastError := Some(Truncate(error)))
  {
  }

  lemma RetryKeepsTables(c: Config, s: World, w: WorkerId, delay: int, error: string, call: Call)
    requires Inv(c, s) && Busy(s, w) && s.workers[w].phase == Failed(false) && !call.RaisedBeforeCommit?
    requires s.workers[w].batch[0].attempts < s.workers[w].batch[0].maxAttempts
    requires delay >= Backoff(c, s.workers[w].batch[0].attempts)
    ensures var q, t' := s.workers[w].batch[0], RetryTo(s, w, delay, error, call).tables;
            && Replaces(s.tables, t', q.id) && TablesOk(c, s, t')
  {
    var q, t' := s.workers[w].batch[0], RetryTo(s, w, delay, error, call).tables;
    HeadIsHeld(c, s, w);
    RetryReplaces(s.tables, q, w, delay, error, s.now);
    RetryKeepsHistory(c, s.now, s.tables.jobs[q.id], s.history[q.id], delay, Some(Truncate(error)));
    CallKeepsTables(c, s, t', q.id);
  }

  lemma BuryKeepsTables(c: Config, s: World, w: WorkerId, error: string, call: Call)
    requires Inv(c, s) && Busy(s, w) && s.workers[w].phase == Failed(false) && !call.RaisedBeforeCommit?
    requires c.lettersUnique
    requires s.workers[w].batch[0].attempts >= s.workers[w].batch[0].maxAttempts
    ensures var q, t' := s.workers[w].batch[0], BuryTo(s, w, error, call).tables;
            && Replaces(s.tables, t', q.id) && TablesOk(c, s, t')
  {
    var q, t' := s.workers[w].batch[0], BuryTo(s, w, error, call).tables;
    HeadIsHeld(c, s, w);
    assert q.id !in s.tables.letters;
    CallKeepsTables(c, s, t', q.id);
  }

  /** The last call for a head job that is still held: the row has moved on, and so does the worker, or it leaves. */
  lemma LastCallKeeps(c: Config, s: World, s': World, w: WorkerId, call: Call)
    requires Inv(c, s) && Busy(s, w) && s.workers[w].phase == Failed(false)
    requires s' == s.(tables := s'.tables, workers := AfterCall(s, w, call))
    requires Replaces(s.tables, s'.tables, s.workers[w].batch[0].id)
    requires TablesOk(c, s, s'.tables)
    ensures Inv(c, s')
  {
    HeadIsHeld(c, s, w);
    CallKeepsBatches(s, s'.tables, w);
  }

  /** A last call that changes no row, because it did not commit or because the job was already done. */
  lemma IdleCallKeeps(c: Config, s: World, s': World, w: WorkerId, call: Call)
    requires Inv(c, s) && Busy(s, w)
    requires s'.now == s.now && s'.history == s.history && s'.tables.jobs == s.tables.jobs && LettersOk(c, s')
    requires s'.workers == AfterCall(s, w, call)
    ensures Inv(c, s')
  {
    assert BatchOk(s.tables, w, s.workers[w]);
    ReplacesKeepsTail(s.tables, s'.tables, w, s.workers[w]);
    forall v | v in s'.workers ensures BatchOk(s'.tables, v, s'.workers[v]) {
      if v != w {
        assert BatchOk(s.tables, v, s.workers[v]);
        BatchIgnoresLetters(s.tables, s'.tables, v, s.workers[v]);
      }
    }
  }

  lemma BatchIgnoresLetters(t: Tables, t': Tables, w: WorkerId, k: Worker)
    requires t.jobs == t'.jobs && BatchOk(t, w, k)
    ensures BatchOk(t', w, k)
  {
    forall i | 1 <= i < |k.batch| ensures Holds(t', w, k.batch[i]) {
      assert Holds(t, w, k.batch[i]);
    }
  }

  /** A dead letter for a job that was already done is a stray. */
  lemma StrayKeepsLetters(c: Config, s: World, w: WorkerId, error: string, call: Call)
    requires Inv(c, s) && Busy(s, w) && s.workers[w].phase == Failed(true) && !call.RaisedBeforeCommit?
    requires c.lettersUnique
    ensures BuryTo(s, w, error, call).tables.jobs == s.tables.jobs && LettersOk(c, BuryTo(s, w, error, call))
  {
    var q, s' := s.workers[w].batch[0], BuryTo(s, w, error, call);
    assert BatchOk(s.tables, w, s.workers[w]);
    assert WithStatus(s'.tables, Dead) == WithStatus(s.tables, Dead);
    assert WithStatus(s'.tables, Done) == WithStatus(s.tables, Done);
    assert q.id in s.tables.letters ==> LetterOk(s.tables.jobs[q.id], s.tables.letters[q.id]);
  }

  lemma RetriedKeeps(c: Config, s: World, w: WorkerId, delay: int, error: string, call: Call)
    requires Inv(c, s) && Busy(s, w) && s.workers[w].phase.Failed?
    requires s.workers[w].batch[0].attempts < s.workers[w].batch[0].maxAttempts
    requires delay >= Backoff(c, s.workers[w].batch[0].attempts)
    ensures Inv(c, RetryTo(s, w, delay, error, call))
  {
    var s' := RetryTo(s, w, delay, error, call);
    if call.RaisedBeforeCommit? || s.workers[w].phase.acked {
      assert BatchOk(s.tables, w, s.workers[w]);
      assert s'.tables == s.tables;
      IdleCallKeeps(c, s, s', w, call);
    } else {
      RetryKeepsTables(c, s, w, delay, error, call);
      LastCallKeeps(c, s, s', w, call);
    }
  }

  lemma BuriedKeeps(c: Config, s: World, w: WorkerId, error: string, call: Call)
    requires Inv(c, s) && Busy(s, w) && s.workers[w].phase.Failed? && (c.lettersUnique || call.RaisedBeforeCommit?)
    requires s.workers[w].batch[0].attempts >= s.workers[w].batch[0].maxAttempts
    ensures Inv(c, BuryTo(s, w, error, call))
  {
    var s' := BuryTo(s, w, error, call);
    if call.RaisedBeforeCommit? {
      IdleCallKeeps(c, s, s', w, call);
    } else if s.workers[w].phase.acked {
      StrayKeepsLetters(c, s, w, error, call);
      IdleCallKeeps(c, s, s', w, call);
    } else {
      BuryKeepsTables(c, s, w, error, call);
      LastCallKeeps(c, s, s', w, call);
    }
  }

  /** Steps that touch no row: a worker comes, goes, or enters its except branch. */
  lemma WorkerChangeKeeps(c: Config, s: World, workers: map<WorkerId, Worker>)
    requires Inv(c, s)
    requires forall v :: v in workers ==>
               || workers[v] == Worker([], Running)
               || (v in s.workers && workers[v] == s.workers[v])
               || (Busy(s, v) && s.workers[v].phase.Running? && workers[v] == s.workers[v].(phase := Failed(false)))
    ensures Inv(c, s.(workers := workers))
  {
    forall v | v in workers ensures BatchOk(s.tables, v, workers[v]) {
      if v in s.workers {
        assert BatchOk(s.tables, v, s.workers[v]);
      }
    }
  }

  lemma TickKeeps(c: Config, s: World, d: nat)
    requires Inv(c, s)
    ensures Inv(c, s.(now := s.now + d))
  {
    forall id | id in s.tables.jobs ensures HistoryOk(c, s.now + d, s.tables.jobs[id], s.history[id]) {
      assert HistoryOk(c, s.now, s.tables.jobs[id], s.history[id]);
    }
  }

  lemma CallStepKeepsInv(c: Config, s: World, e: Event)
    requires ValidConfig(c) && Inv(c, s) && Enabled(c, s, e) && (e.Acked? || e.AckRaised? || e.Retried? || e.Buried?)
    ensures Inv(c, Step(c, s, e))
  {
    match e
    case Acked(w) => AckKeeps(c, s, w);
    case AckRaised(w, committed) =>
      if committed {
        AckRaisedKeeps(c, s, w);
      } else {
        WorkerChangeKeeps(c, s, WithPhase(s, w, Failed(false)));
      }
    case Retried(w, jitter, error, call) =>
      RetriedKeeps(c, s, w, RetryDelay(c, s.workers[w].batch[0].attempts, jitter), error, call);
    case Buried(w, error, call) => BuriedKeeps(c, s, w, error, call);
  }

  lemma StepKeepsInv(c: Config, s: World, e: Event)
    requires ValidConfig(c) && Inv(c, s) && Enabled(c, s, e)
    ensures Inv(c, Step(c, s, e))
  {
    match e
    case Tick(d) => TickKeeps(c, s, d);
    case Enqueued(r, id) => EnqueuedKeeps(c, s, r, id);
    case Claimed(w, _, _, batch) => ClaimedKeeps(c, s, w, batch);
    case Started(w) => WorkerChangeKeeps(c, s, s.workers[w := Worker([], Running)]);
    case Left(w) => WorkerChangeKeeps(c, s, s.workers - {w});
    case JobFailed(w) => WorkerChangeKeeps(c, s, WithPhase(s, w, Failed(false)));
    case _ => CallStepKeepsInv(c, s, e);
  }

  lemma {:induction false} RunKeepsInv(c: Config, worlds: seq<World>, events: seq<Event>, n: nat)
    requires IsRun(c, worlds, events) && n < |worlds|
    ensures Inv(c, worlds[n])
  {
    if n > 0 {
      RunKeepsInv(c, worlds, events, n - 1);
      StepKeepsInv(c, worlds[n - 1], events[n - 1]);
    }
  }
}
