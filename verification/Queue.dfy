/** The Postgres job queue: its two tables, and each queue call as one atomic change of them.

    Time counts microseconds, the resolution of a Postgres timestamp. Rows are reached by id; ids stand for
    the UUIDs the database generates. */
module Queue {
  import opened Common

  const MAX_ERROR_LENGTH := 2000

  type JobId = nat
  type WorkerId = string

  datatype Status = Pending | Processing | Done | Dead

  datatype Job = Job(
    topic: string,
    payload: string,
    dedupe: Option<string>,
    status: Status,
    attempts: int,
    maxAttempts: int,
    createdAt: int,
    updatedAt: int,
    nextAttemptAt: int,
    lockOwner: Option<WorkerId>,
    lockedAt: Option<int>,
    completedAt: Option<int>,
    lastError: Option<string>)

  /** What a claim hands to the worker: a copy of the row as it was when claimed. */
  datatype QueueJob = QueueJob(id: JobId, topic: string, payload: string, attempts: int, maxAttempts: int,
                               dedupe: Option<string>, createdAt: int, nextAttemptAt: int)

  datatype DeadLetter = DeadLetter(topic: string, payload: string, dedupe: Option<string>, attempts: int,
                                   maxAttempts: int, lastError: string, createdAt: int)

  datatype Tables = Tables(jobs: map<JobId, Job>, letters: map<JobId, DeadLetter>)

  /** lettersUnique says whether some unique constraint covers queue_job_dead_letters.job_id. Without one,
      Postgres refuses every statement that says ON CONFLICT (job_id). */
  datatype Config = Config(lockTtl: int, defaultMaxAttempts: int, retryBase: int, retryMax: int,
                           retryJitter: real, lettersUnique: bool)

  datatype Request = Request(topic: string, payload: string, dedupe: Option<string>, runAfter: int,
                             maxAttempts: Option<int>)

  datatype QueueError = InvalidRequest | StatementRefused

  predicate ValidConfig(c: Config) {
    && 1 <= c.lockTtl
    && 1 <= c.defaultMaxAttempts
    && 1 <= c.retryBase <= c.retryMax
    && 0.0 <= c.retryJitter
  }

  // ---- Backoff ----

  function Pow2(n: nat): (p: nat)
    ensures p >= 1
  {
    if n == 0 then 1 else 2 * Pow2(n - 1)
  }

  /** The delay without its jitter, in seconds. */
  function Backoff(c: Config, attempts: int): int {
    Min(c.retryMax, c.retryBase * Pow2(Max(0, attempts - 1)))
  }

  function RetryDelay(c: Config, attempts: int, jitter: real): (delay: int)
    requires ValidConfig(c) && 0.0 <= jitter <= c.retryJitter
    ensures 1 <= Backoff(c, attempts) <= delay
    ensures delay as real <= Backoff(c, attempts) as real + jitter < delay as real + 1.0
    ensures delay as real <= c.retryMax as real + c.retryJitter
  {
    assert c.retryBase * Pow2(Max(0, attempts - 1)) >= 1;
    Max(1, (Backoff(c, attempts) as real + jitter).Floor)
  }

  lemma {:induction false} Pow2Monotone(a: nat, b: nat)
    requires a <= b
    ensures Pow2(a) <= Pow2(b)
  {
    if a < b {
      Pow2Monotone(a, b - 1);
    }
  }

  lemma BackoffMonotone(c: Config, a: int, b: int)
    requires ValidConfig(c) && a <= b
    ensures Backoff(c, a) <= Backoff(c, b) <= c.retryMax
  {
    var x, y := Pow2(Max(0, a - 1)), Pow2(Max(0, b - 1));
    Pow2Monotone(Max(0, a - 1), Max(0, b - 1));
    assert c.retryBase * x <= c.retryBase * y;
  }

  /** Below the cap the n-th retry waits base * 2^(n - 1) seconds, and less than a second more than its jitter. */
  lemma DelayBelowCap(c: Config, attempts: int, jitter: real)
    requires ValidConfig(c) && 0.0 <= jitter <= c.retryJitter && attempts >= 1
    requires c.retryBase * Pow2(attempts - 1) <= c.retryMax
    ensures c.retryBase * Pow2(attempts - 1) <= RetryDelay(c, attempts, jitter)
    ensures RetryDelay(c, attempts, jitter) as real <= (c.retryBase * Pow2(attempts - 1)) as real + jitter
  {
    assert Backoff(c, attempts) == c.retryBase * Pow2(attempts - 1);
  }

  /** Total jitter-free wait imposed by the retries after attempts 1..k. */
  function BackoffSum(c: Config, k: nat): int {
    if k == 0 then 0 else BackoffSum(c, k - 1) + Backoff(c, k)
  }

  lemma Doubling(b: nat, p: nat)
    ensures 0 <= b * p <= b * (2 * p) && b * (2 * p - 1) == b * (p - 1) + b * p
  {
  }

  /** While the cap is not reached the waits double: their sum is geometric. */
  lemma {:induction false} BackoffSumBelowCap(c: Config, k: nat)
    requires ValidConfig(c)
    requires k == 0 || c.retryBase * Pow2(k - 1) <= c.retryMax
    ensures BackoffSum(c, k) == c.retryBase * (Pow2(k) - 1)
  {
    if k > 0 {
      var b, p := c.retryBase, Pow2(k - 1);
      if k > 1 {
        Doubling(b, Pow2(k - 2));
      }
      BackoffSumBelowCap(c, k - 1);
      assert BackoffSum(c, k - 1) == b * (p - 1);
      assert Backoff(c, k) == b * p;
      assert Pow2(k) == 2 * p;
      Doubling(b, p);
    }
  }

  // ---- The statements, as functions of the tables ----

  predicate SameKey(j: Job, topic: string, dedupe: Option<string>) {
    dedupe.Some? && j.topic == topic && j.dedupe == dedupe
  }

  function AttemptsLimit(c: Config, r: Request): int {
    Max(1, if r.maxAttempts.None? || r.maxAttempts.value == 0 then c.defaultMaxAttempts else r.maxAttempts.value)
  }

  function NewRow(c: Config, r: Request, now: int): Job {
    Job(r.topic, r.payload, r.dedupe, Pending, 0, AttemptsLimit(c, r), now, now,
        now + TICKS_PER_SECOND * Max(0, r.runAfter), None, None, None, None)
  }

  /** The ids an enqueue may return: the conflicting row's if there is one, else a fresh one. */
  predicate EnqueueReturns(t: Tables, r: Request, id: JobId) {
    if exists k :: k in t.jobs && SameKey(t.jobs[k], r.topic, r.dedupe)
    then id in t.jobs && SameKey(t.jobs[id], r.topic, r.dedupe)
    else id !in t.jobs
  }

  function EnqueueIn(t: Tables, c: Config, r: Request, id: JobId, now: int): Tables {
    t.(jobs := t.jobs[id := if id in t.jobs then t.jobs[id].(updatedAt := now) else NewRow(c, r, now)])
  }

  predicate Eligible(c: Config, j: Job, now: int) {
    && j.status == Pending
    && j.nextAttemptAt <= now
    && (j.lockedAt.None? || j.lockedAt.value < now - TICKS_PER_SECOND * c.lockTtl)
  }

  function EligibleIds(t: Tables, c: Config, now: int): set<JobId> {
    set id | id in t.jobs && Eligible(c, t.jobs[id], now)
  }

  predicate NoLaterThan(a: Job, b: Job) {
    a.nextAttemptAt < b.nextAttemptAt || (a.nextAttemptAt == b.nextAttemptAt && a.createdAt <= b.createdAt)
  }

  /** picked is a prefix, of the requested length, of the eligible rows that are not skipped as locked. */
  ghost predicate IsClaim(t: Tables, c: Config, now: int, limit: int, skipped: set<JobId>, picked: set<JobId>) {
    var available := EligibleIds(t, c, now) - skipped;
    && picked <= available
    && |picked| == Min(Max(1, limit), |available|)
    && forall a, b :: a in picked && b in available - picked ==> NoLaterThan(t.jobs[a], t.jobs[b])
  }

  function ClaimRow(j: Job, w: WorkerId, now: int): Job {
    j.(status := Processing, lockOwner := Some(w), lockedAt := Some(now), attempts := j.attempts + 1,
       updatedAt := now)
  }

  function ClaimIn(t: Tables, w: WorkerId, now: int, picked: set<JobId>): Tables {
    t.(jobs := map id | id in t.jobs :: if id in picked then ClaimRow(t.jobs[id], w, now) else t.jobs[id])
  }

  /** The worker's copy: an empty dedupe key is taken for none. */
  function Snapshot(id: JobId, j: Job): QueueJob {
    QueueJob(id, j.topic, j.payload, j.attempts, j.maxAttempts, if j.dedupe == Some("") then None else j.dedupe,
             j.createdAt, j.nextAttemptAt)
  }

  function IdsOf(batch: seq<QueueJob>): set<JobId> {
    set q | q in batch :: q.id
  }

  /** batch lists exactly the picked rows of t, each once, as they read in t. */
  ghost predicate IsBatch(t: Tables, picked: set<JobId>, batch: seq<QueueJob>) {
    && IdsOf(batch) == picked
    && (forall i, k :: 0 <= i < k < |batch| ==> batch[i].id != batch[k].id)
    && (forall q :: q in batch ==> q.id in t.jobs && q == Snapshot(q.id, t.jobs[q.id]))
  }

  lemma BatchExtends(t: Tables, picked: set<JobId>, batch: seq<QueueJob>, id: JobId)
    requires IsBatch(t, picked, batch) && id in t.jobs && id !in picked
    ensures IsBatch(t, picked + {id}, batch + [Snapshot(id, t.jobs[id])])
  {
    var longer := batch + [Snapshot(id, t.jobs[id])];
    assert longer[|batch|].id == id;
    forall k | k in picked ensures k in IdsOf(longer) {
      var q :| q in batch && q.id == k;
      assert q in longer;
    }
    assert IdsOf(longer) == picked + {id};
    forall i | 0 <= i < |batch| ensures batch[i].id != id {
      assert batch[i].id in IdsOf(batch);
    }
  }

  /** The WHERE clause shared by ack, retry and dead-letter. */
  predicate Finds(t: Tables, id: JobId, w: WorkerId) {
    id in t.jobs && t.jobs[id].status == Processing && t.jobs[id].lockOwner == Some(w)
  }

  function Release(j: Job, status: Status, now: int): Job {
    j.(status := status, lockOwner := None, lockedAt := None, updatedAt := now)
  }

  function AckIn(t: Tables, id: JobId, w: WorkerId, now: int): Tables {
    if Finds(t, id, w) then
      t.(jobs := t.jobs[id := Release(t.jobs[id], Done, now).(completedAt := Some(now))])
    else t
  }

  function Truncate(s: string): string {
    if |s| > MAX_ERROR_LENGTH then s[..MAX_ERROR_LENGTH] else s
  }

  function RetryIn(t: Tables, id: JobId, w: WorkerId, delay: int, error: string, now: int): Tables {
    if Finds(t, id, w) then
      t.(jobs := t.jobs[id := Release(t.jobs[id], Pending, now).(
        nextAttemptAt := now + TICKS_PER_SECOND * delay, lastError := Some(Truncate(error)))])
    else t
  }

  function LetterFor(prior: Option<DeadLetter>, q: QueueJob, error: string, now: int): DeadLetter {
    match prior
    case Some(l) =>
      l.(attempts := q.attempts, maxAttempts := q.maxAttempts, lastError := Truncate(error), createdAt := now)
    case None => DeadLetter(q.topic, q.payload, q.dedupe, q.attempts, q.maxAttempts, Truncate(error), now)
  }

  /** Both statements of the dead-letter transaction, committed together. */
  function BuryIn(t: Tables, q: QueueJob, w: WorkerId, error: string, now: int): Tables {
    var prior := if q.id in t.letters then Some(t.letters[q.id]) else None;
    var letters := t.letters[q.id := LetterFor(prior, q, error, now)];
    if Finds(t, q.id, w) then
      Tables(t.jobs[q.id := Release(t.jobs[q.id], Dead, now).(
               completedAt := Some(now), lastError := Some(Truncate(error)))], letters)
    else Tables(t.jobs, letters)
  }

  // ---- What a call leaves alone ----

  /** Only row id may differ, and of it only what concerns its processing: neither the request, nor when it was created,
      nor how often it was claimed. */
  ghost predicate OnlyMoves(t: Tables, t': Tables, id: JobId) {
    && t'.jobs.Keys == t.jobs.Keys
    && (forall k :: k in t.jobs && k != id ==> t'.jobs[k] == t.jobs[k])
    && (id in t.jobs ==>
          var a, b := t.jobs[id], t'.jobs[id];
          && b.topic == a.topic && b.payload == a.payload && b.dedupe == a.dedupe
          && b.maxAttempts == a.maxAttempts && b.attempts == a.attempts && b.createdAt == a.createdAt)
  }

  predicate Unlocked(j: Job) {
    j.lockOwner.None? && j.lockedAt.None?
  }

  /** A wait of whole seconds: the backoff and the jitter, with the fraction of a second cut off. */
  predicate IsDueAfter(wait: int, backoff: int, jitter: real) {
    wait % 1_000_000 == 0 && backoff * 1_000_000 <= wait
    && (wait / 1_000_000) as real <= backoff as real + jitter < (wait / 1_000_000) as real + 1.0
  }

  lemma DelayIsDueAfter(c: Config, attempts: int, jitter: real)
    requires ValidConfig(c) && 0.0 <= jitter <= c.retryJitter
    ensures IsDueAfter(TICKS_PER_SECOND * RetryDelay(c, attempts, jitter), Backoff(c, attempts), jitter)
  {
    var delay := RetryDelay(c, attempts, jitter);
    assert (1_000_000 * delay) / 1_000_000 == delay;
  }

  /** r is the error as it is stored: whole up to 2000 characters, else its first 2000. */
  predicate IsCut(error: string, r: string) {
    r <= error && |r| == Min(2000, |error|)
  }

  /** The attempts a request is allowed: what it asks for, but at least one; the default if it asks for none. */
  predicate IsAllowance(c: Config, asked: Option<int>, n: int) {
    if asked.Some? && asked.value >= 1 then n == asked.value
    else if asked.Some? && asked.value < 0 then n == 1
    else n == Max(1, c.defaultMaxAttempts)
  }

  /** A row that stands for the request, not yet attempted and due after the delay it asks for. */
  predicate IsNewRow(c: Config, r: Request, j: Job, now: int) {
    && j.topic == r.topic && j.payload == r.payload && j.dedupe == r.dedupe
    && j.status.Pending? && j.attempts == 0 && IsAllowance(c, r.maxAttempts, j.maxAttempts)
    && j.createdAt == now && j.updatedAt == now
    && j.nextAttemptAt == now + (if r.runAfter > 0 then r.runAfter * 1_000_000 else 0)
    && Unlocked(j) && j.completedAt.None? && j.lastError.None?
  }

  /** The row may be claimed now: pending, due, and not locked, or not any more. */
  predicate Claimable(c: Config, j: Job, now: int) {
    && j.status.Pending? && j.nextAttemptAt <= now
    && (j.lockedAt.None? || j.lockedAt.value + c.lockTtl * 1_000_000 < now)
  }

  /** What a claim makes of a row. */
  predicate IsClaimed(a: Job, b: Job, w: WorkerId, now: int) {
    && b.status.Processing? && b.lockOwner == Some(w) && b.lockedAt == Some(now) && b.updatedAt == now
    && b.attempts == a.attempts + 1 && b.maxAttempts == a.maxAttempts
    && b.topic == a.topic && b.payload == a.payload && b.dedupe == a.dedupe
    && b.createdAt == a.createdAt && b.nextAttemptAt == a.nextAttemptAt
    && b.completedAt == a.completedAt && b.lastError == a.lastError
  }

  /** What the worker is given of a row. */
  predicate IsCopy(q: QueueJob, j: Job) {
    && q.topic == j.topic && q.payload == j.payload && q.attempts == j.attempts && q.maxAttempts == j.maxAttempts
    && q.createdAt == j.createdAt && q.nextAttemptAt == j.nextAttemptAt
    && q.dedupe == if j.dedupe == Some("") then None else j.dedupe
  }

  /** Due earlier, or at the same time and created no later. */
  predicate ComesFirst(a: Job, b: Job) {
    a.nextAttemptAt < b.nextAttemptAt || (a.nextAttemptAt == b.nextAttemptAt && a.createdAt <= b.createdAt)
  }

  /** A claimable row is left out only for lack of room, in favour of rows that come first. */
  lemma ClaimIsFair(t: Tables, c: Config, now: int, limit: int, skipped: set<JobId>, picked: set<JobId>)
    requires IsClaim(t, c, now, limit, skipped, picked)
    ensures |picked| <= Max(1, limit)
    ensures forall id :: id in picked ==> id in t.jobs && id !in skipped && Claimable(c, t.jobs[id], now)
    ensures forall k :: k in t.jobs && k !in picked && k !in skipped && Claimable(c, t.jobs[k], now) ==>
              |picked| == Max(1, limit) && forall id :: id in picked ==> ComesFirst(t.jobs[id], t.jobs[k])
  {
    var available := EligibleIds(t, c, now) - skipped;
    forall k | k in t.jobs && k !in picked && k !in skipped && Claimable(c, t.jobs[k], now)
      ensures |picked| == Max(1, limit) && forall id :: id in picked ==> ComesFirst(t.jobs[id], t.jobs[k])
    {
      assert k in available - picked;
      assert |available| == |picked| + |available - picked|;
    }
  }

  // ---- The queue object ----

  class PostgresQueue {
    const config: Config
    var tables: Tables

    constructor (lockTtl: int, defaultMaxAttempts: int, retryBase: int, retryMax: int, retryJitter: real,
                 lettersUnique: bool)
      ensures ValidConfig(config) && tables == Tables(map[], map[])
      ensures config.lettersUnique == lettersUnique
      ensures lockTtl >= 1 ==> config.lockTtl == lockTtl
      ensures defaultMaxAttempts >= 1 ==> config.defaultMaxAttempts == defaultMaxAttempts
      ensures retryBase >= 1 ==> config.retryBase == retryBase
      ensures retryMax >= config.retryBase ==> config.retryMax == retryMax
      ensures retryJitter >= 0.0 ==> config.retryJitter == retryJitter
      ensures lockTtl < 1 ==> config.lockTtl == 1
      ensures defaultMaxAttempts < 1 ==> config.defaultMaxAttempts == 1
      ensures retryBase < 1 ==> config.retryBase == 1
      ensures retryMax < config.retryBase ==> config.retryMax == config.retryBase
      ensures retryJitter < 0.0 ==> config.retryJitter == 0.0
    {
      var base := Max(1, retryBase);
      config := Config(Max(1, lockTtl), Max(1, defaultMaxAttempts), base, Max(base, retryMax),
                       if retryJitter < 0.0 then 0.0 else retryJitter, lettersUnique);
      tables := Tables(map[], map[]);
    }

    method Enqueue(r: Request, newId: JobId, now: int) returns (res: Result<(JobId, Status), QueueError>)
      requires newId !in tables.jobs
      modifies this
      ensures r.topic == "" ==> res == Err(InvalidRequest) && tables == old(tables)
      ensures r.topic != "" ==>
                && res.Ok?
                && EnqueueReturns(old(tables), r, res.value.0)
                && tables == EnqueueIn(old(tables), config, r, res.value.0, now)
                && res.value.1 == tables.jobs[res.value.0].status
      ensures res.Ok? ==>
                var id, before := res.value.0, old(tables).jobs;
                && (id in before <==>
                      && r.dedupe.Some?
                      && exists k :: k in before && before[k].topic == r.topic && before[k].dedupe == r.dedupe)
                && id in tables.jobs && tables.letters == old(tables).letters
                && (id !in before ==> IsNewRow(config, r, tables.jobs[id], now))
                && (id in before ==>
                      && before[id].topic == r.topic && before[id].dedupe == r.dedupe
                      && tables.jobs[id] == before[id].(updatedAt := now))
                && (forall k :: k != id ==> (k in tables.jobs <==> k in before))
                && (forall k :: k in before && k != id ==> tables.jobs[k] == before[k])
    {
      if r.topic == "" {
        return Err(InvalidRequest);
      }
      var id := newId;
      if exists k :: k in tables.jobs && SameKey(tables.jobs[k], r.topic, r.dedupe) {
        id :| id in tables.jobs && SameKey(tables.jobs[id], r.topic, r.dedupe);
      }
      tables := EnqueueIn(tables, config, r, id, now);
      res := Ok((id, tables.jobs[id].status));
    }

    /** The first row of a non-empty set in (next_attempt_at, created_at) order. */
    method First(ids: set<JobId>) returns (id: JobId)
      requires ids != {} && ids <= tables.jobs.Keys
      ensures id in ids
      ensures forall k :: k in ids ==> NoLaterThan(tables.jobs[id], tables.jobs[k])
      ensures forall k :: k in ids ==>
                && tables.jobs[id].nextAttemptAt <= tables.jobs[k].nextAttemptAt
                && (tables.jobs[id].nextAttemptAt == tables.jobs[k].nextAttemptAt ==>
                      tables.jobs[id].createdAt <= tables.jobs[k].createdAt)
    {
      id :| id in ids;
      var rest := ids - {id};
      while rest != {}
        invariant id in ids && rest <= ids
        invariant forall k :: k in ids - rest ==> NoLaterThan(tables.jobs[id], tables.jobs[k])
        decreases rest
      {
        var k :| k in rest;
        if !NoLaterThan(tables.jobs[id], tables.jobs[k]) {
          id := k;
        }
        rest := rest - {k};
      }
    }

    method Select(limit: int, skipped: set<JobId>, now: int) returns (picked: set<JobId>)
      ensures IsClaim(tables, config, now, limit, skipped, picked)
    {
      var rest := EligibleIds(tables, config, now) - skipped;
      ghost var available := rest;
      picked := {};
      while |picked| < Max(1, limit) && rest != {}
        invariant picked + rest == available && picked !! rest
        invariant |picked| <= Max(1, limit)
        invariant forall a, b :: a in picked && b in rest ==> NoLaterThan(tables.jobs[a], tables.jobs[b])
        decreases rest
      {
        var id := First(rest);
        picked, rest := picked + {id}, rest - {id};
      }
      assert |available| == |picked| + |rest|;
      assert available - picked == rest;
    }

    /** The rows an UPDATE returned, copied out one by one. */
    method Fetch(picked: set<JobId>) returns (batch: seq<QueueJob>)
      requires picked <= tables.jobs.Keys
      ensures IsBatch(tables, picked, batch)
    {
      batch := [];
      var rows := picked;
      while rows != {}
        invariant rows <= picked
        invariant IsBatch(tables, picked - rows, batch)
        decreases rows
      {
        var id :| id in rows;
        BatchExtends(tables, picked - rows, batch, id);
        batch := batch + [Snapshot(id, tables.jobs[id])];
        assert picked - (rows - {id}) == picked - rows + {id};
        rows := rows - {id};
      }
      assert picked - rows == picked;
    }

    /** The rows that have been due longest, the older first, become the worker's, as many as it asks for. */
    method ClaimJobs(w: WorkerId, limit: int, skipped: set<JobId>, now: int) returns (batch: seq<QueueJob>)
      modifies this
      ensures IsClaim(old(tables), config, now, limit, skipped, IdsOf(batch))
      ensures tables == ClaimIn(old(tables), w, now, IdsOf(batch))
      ensures IsBatch(tables, IdsOf(batch), batch)
      ensures tables.letters == old(tables).letters && tables.jobs.Keys == old(tables).jobs.Keys
      ensures |IdsOf(batch)| <= Max(1, limit)
      ensures forall q :: q in batch ==>
                && q.id in old(tables).jobs && q.id !in skipped && Claimable(config, old(tables).jobs[q.id], now)
                && IsClaimed(old(tables).jobs[q.id], tables.jobs[q.id], w, now) && IsCopy(q, tables.jobs[q.id])
      ensures forall k :: k in old(tables).jobs && k !in IdsOf(batch) ==> tables.jobs[k] == old(tables).jobs[k]
      ensures forall k :: k in old(tables).jobs && k !in IdsOf(batch) && k !in skipped
                          && Claimable(config, old(tables).jobs[k], now) ==>
                && |IdsOf(batch)| == Max(1, limit)
                && forall q :: q in batch ==> ComesFirst(old(tables).jobs[q.id], old(tables).jobs[k])
    {
      var picked := Select(limit, skipped, now);
      tables := ClaimIn(tables, w, now, picked);
      batch := Fetch(picked);
      ClaimIsFair(old(tables), config, now, limit, skipped, picked);
      assert forall q :: q in batch ==> q.id in IdsOf(batch);
    }

    /** UPDATE ... WHERE id, status and owner match; found: some row did. */
    method Ack(id: JobId, w: WorkerId, now: int) returns (found: bool)
      modifies this
      ensures tables == AckIn(old(tables), id, w, now)
      ensures found <==> Finds(old(tables), id, w)
      ensures !found ==> tables == old(tables)
      ensures OnlyMoves(old(tables), tables, id) && tables.letters == old(tables).letters
      ensures found ==>
                var a, b := old(tables).jobs[id], tables.jobs[id];
                && b.status.Done? && Unlocked(b) && b.completedAt == Some(now) && b.updatedAt == now
                && b.lastError == a.lastError && b.nextAttemptAt == a.nextAttemptAt
    {
      found := false;
      if id in tables.jobs {
        var j := tables.jobs[id];
        if j.status == Processing && j.lockOwner == Some(w) {
          j := j.(status := Done, lockOwner := None, lockedAt := None, completedAt := Some(now), updatedAt := now);
          tables := tables.(jobs := tables.jobs[id := j]);
          found := true;
        }
      }
    }

    /** The delay is drawn before the UPDATE, whether or not a row matches. */
    method Retry(id: JobId, w: WorkerId, attempts: int, error: string, jitter: real, now: int) returns (found: bool)
      requires ValidConfig(config) && 0.0 <= jitter <= config.retryJitter
      modifies this
      ensures tables == RetryIn(old(tables), id, w, RetryDelay(config, attempts, jitter), error, now)
      ensures found <==> Finds(old(tables), id, w)
      ensures !found ==> tables == old(tables)
      ensures OnlyMoves(old(tables), tables, id) && tables.letters == old(tables).letters
      ensures found ==>
                var a, b := old(tables).jobs[id], tables.jobs[id];
                && b.status.Pending? && Unlocked(b) && b.updatedAt == now && b.completedAt == a.completedAt
                && b.lastError.Some? && IsCut(error, b.lastError.value)
                && IsDueAfter(b.nextAttemptAt - now, Backoff(config, attempts), jitter)
    {
      var delay := RetryDelay(config, attempts, jitter);
      DelayIsDueAfter(config, attempts, jitter);
      found := false;
      if id in tables.jobs {
        var j := tables.jobs[id];
        if j.status == Processing && j.lockOwner == Some(w) {
          j := j.(status := Pending, lockOwner := None, lockedAt := None,
                  nextAttemptAt := now + TICKS_PER_SECOND * delay, lastError := Some(Truncate(error)),
                  updatedAt := now);
          tables := tables.(jobs := tables.jobs[id := j]);
          found := true;
        }
      }
    }

    /** Both statements of one transaction. A letter that is already there keeps its topic, payload and key. */
    method MoveToDeadLetter(q: QueueJob, w: WorkerId, error: string, now: int)
      returns (res: Result<bool, QueueError>)
      modifies this
      ensures config.lettersUnique ==> tables == BuryIn(old(tables), q, w, error, now)
      ensures res == if config.lettersUnique then Ok(Finds(old(tables), q.id, w)) else Err(StatementRefused)
      ensures res.Err? ==> tables == old(tables)
      ensures OnlyMoves(old(tables), tables, q.id) && (res != Ok(true) ==> tables.jobs == old(tables).jobs)
      ensures res == Ok(true) ==>
                var a, b := old(tables).jobs[q.id], tables.jobs[q.id];
                && b.status.Dead? && Unlocked(b) && b.completedAt == Some(now) && b.updatedAt == now
                && b.lastError == Some(tables.letters[q.id].lastError) && b.nextAttemptAt == a.nextAttemptAt
      ensures res.Ok? ==>
                && tables.letters.Keys == old(tables).letters.Keys + {q.id}
                && (forall k :: k in old(tables).letters && k != q.id ==> tables.letters[k] == old(tables).letters[k])
                && var l := tables.letters[q.id];
                   && l.attempts == q.attempts && l.maxAttempts == q.maxAttempts && l.createdAt == now
                   && IsCut(error, l.lastError)
                   && (if q.id in old(tables).letters
                       then var m := old(tables).letters[q.id];
                            l.topic == m.topic && l.payload == m.payload && l.dedupe == m.dedupe
                       else l.topic == q.topic && l.payload == q.payload && l.dedupe == q.dedupe)
    {
      if !config.lettersUnique {
        return Err(StatementRefused);
      }
      var prior := if q.id in tables.letters then Some(tables.letters[q.id]) else None;
      var letters := tables.letters[q.id := LetterFor(prior, q, error, now)];
      var updated := false;
      var jobs := tables.jobs;
      if q.id in jobs {
        var j := jobs[q.id];
        if j.status == Processing && j.lockOwner == Some(w) {
          j := j.(status := Dead, lockOwner := None, lockedAt := None, completedAt := Some(now),
                  lastError := Some(Truncate(error)), updatedAt := now);
          jobs := jobs[q.id := j];
          updated := true;
        }
      }
      tables := Tables(jobs, letters);
      res := Ok(updated);
    }
  }
}
