/** What holds along every run of the queue protocol: safety of the claims, conservation of jobs and dead
    letters, a bound on the work a finite set of jobs can cause, and the backoff bound on claim times. */
module QueueRuns {
  import opened Common
  import opened Queue
  import opened QueueProtocol

  // ---- Locks, attempts and ownership ----

  /** No job is in two workers' batches, not even one whose acknowledgement raised after its commit. */
  ghost predicate BatchesDisjoint(s: World) {
    forall v, w, p, q ::
      v in s.workers && w in s.workers && v != w && p in s.workers[v].batch && q in s.workers[w].batch ==> p.id != q.id
  }

  lemma OnlyClaimsAddJobs(c: Config, s: World, e: Event, w: WorkerId, q: QueueJob)
    requires ValidConfig(c) && Enabled(c, s, e) && !e.Claimed?
    requires var s' := Step(c, s, e); w in s'.workers && q in s'.workers[w].batch
    ensures w in s.workers && q in s.workers[w].batch
  {
  }

  lemma StepKeepsDisjoint(c: Config, s: World, e: Event)
    requires ValidConfig(c) && Inv(c, s) && Enabled(c, s, e) && BatchesDisjoint(s)
    ensures BatchesDisjoint(Step(c, s, e))
  {
    var s' := Step(c, s, e);
    if e.Claimed? {
      ClaimIsDisjoint(c, s, e.w, e.batch);
    } else {
      forall v, w, p, q |
        v in s'.workers && w in s'.workers && v != w && p in s'.workers[v].batch && q in s'.workers[w].batch
        ensures p.id != q.id
      {
        OnlyClaimsAddJobs(c, s, e, v, p);
        OnlyClaimsAddJobs(c, s, e, w, q);
      }
    }
  }

  /** A claimed row was pending, so no batch had it. */
  lemma ClaimedIsNew(t: Tables, c: Config, now: int, picked: set<JobId>, w: WorkerId, k: Worker, p: QueueJob)
    requires BatchOk(t, w, k) && picked <= EligibleIds(t, c, now) && p in k.batch
    ensures p.id !in picked
  {
    BatchRows(t, w, k, p);
  }

  lemma ClaimIsDisjoint(c: Config, s: World, w: WorkerId, batch: seq<QueueJob>)
    requires BatchesOk(s) && BatchesDisjoint(s) && IdsOf(batch) <= EligibleIds(s.tables, c, s.now)
    ensures BatchesDisjoint(ClaimTo(s, w, batch))
  {
    var workers := ClaimTo(s, w, batch).workers;
    forall v, p, q | v in s.workers && p in s.workers[v].batch && q in batch ensures p.id != q.id {
      ClaimedIsNew(s.tables, c, s.now, IdsOf(batch), v, s.workers[v], p);
      assert q.id in IdsOf(batch);
    }
    forall u, v, p, q | u in workers && v in workers && u != v && p in workers[u].batch && q in workers[v].batch
      ensures p.id != q.id
    {
      if u != w && v != w {
        assert p in s.workers[u].batch && q in s.workers[v].batch;
      }
    }
  }

  lemma {:induction false} RunKeepsDisjoint(c: Config, worlds: seq<World>, events: seq<Event>, n: nat)
    requires IsRun(c, worlds, events) && n < |worlds|
    ensures BatchesDisjoint(worlds[n])
  {
    if n > 0 {
      RunKeepsDisjoint(c, worlds, events, n - 1);
      RunKeepsInv(c, worlds, events, n - 1);
      StepKeepsDisjoint(c, worlds[n - 1], events[n - 1]);
    }
  }

  /** In every reachable state: a job that is not finished is pending exactly when its lock columns are NULL,
      attempts stay within their bounds, batches are disjoint, and a worker's next call on its head job finds
      the row exactly when no earlier call for that claim was committed. */
  lemma ReachableStatesAreSafe(c: Config, worlds: seq<World>, events: seq<Event>, n: nat)
    requires IsRun(c, worlds, events) && n < |worlds|
    ensures forall id :: id in worlds[n].tables.jobs ==>
              var j := worlds[n].tables.jobs[id];
              && (j.status.Pending? <==> !j.status.Done? && !j.status.Dead? && j.lockOwner.None? && j.lockedAt.None?)
              && (j.status.Pending? ==> 0 <= j.attempts < j.maxAttempts)
              && (j.status.Processing? || j.status.Done? ==> 1 <= j.attempts <= j.maxAttempts)
              && (j.status.Dead? ==> j.attempts == j.maxAttempts)
    ensures BatchesDisjoint(worlds[n])
    ensures forall w :: Busy(worlds[n], w) ==>
              (Finds(worlds[n].tables, worlds[n].workers[w].batch[0].id, w)
               <==> worlds[n].workers[w].phase != Failed(true))
  {
    RunKeepsInv(c, worlds, events, n);
    RunKeepsDisjoint(c, worlds, events, n);
    var s := worlds[n];
    forall id | id in s.tables.jobs ensures RowOk(s.tables.jobs[id]) {}
    forall w | Busy(s, w) ensures Finds(s.tables, s.workers[w].batch[0].id, w) <==> s.workers[w].phase != Failed(true) {
      assert BatchOk(s.tables, w, s.workers[w]);
    }
  }

  predicate ActsFor(e: Event, w: WorkerId) {
    !e.Tick? && !e.Enqueued? && e.w == w
  }

  /** What no statement of another worker can reach: a row locked by w, up to its updated_at. */
  predicate StillLocked(a: Job, t: Tables, id: JobId, w: WorkerId) {
    Finds(t, id, w) && t.jobs[id] == a.(updatedAt := t.jobs[id].updatedAt)
  }

  lemma OthersMissTheRow(t: Tables, id: JobId, w: WorkerId, q: QueueJob, v: WorkerId, delay: int, error: string,
                         now: int)
    requires Finds(t, id, w) && v != w
    ensures StillLocked(t.jobs[id], AckIn(t, q.id, v, now), id, w)
    ensures StillLocked(t.jobs[id], RetryIn(t, q.id, v, delay, error, now), id, w)
    ensures StillLocked(t.jobs[id], BuryIn(t, q, v, error, now), id, w)
  {
  }

  lemma ClaimsMissTheRow(t: Tables, c: Config, id: JobId, w: WorkerId, v: WorkerId, now: int, picked: set<JobId>)
    requires Finds(t, id, w) && picked <= EligibleIds(t, c, now)
    ensures StillLocked(t.jobs[id], ClaimIn(t, v, now, picked), id, w)
  {
    assert id !in picked;
  }

  /** A locked row changes only by a step of its owner (a repeated enqueue may refresh its updated_at). */
  lemma OnlyTheOwnerMoves(c: Config, s: World, e: Event, id: JobId, w: WorkerId)
    requires ValidConfig(c) && Enabled(c, s, e) && Finds(s.tables, id, w) && !ActsFor(e, w)
    ensures StillLocked(s.tables.jobs[id], Step(c, s, e).tables, id, w)
  {
    match e
    case Claimed(v, _, _, batch) => ClaimsMissTheRow(s.tables, c, id, w, v, s.now, IdsOf(batch));
    case Acked(v) => OthersMissTheRow(s.tables, id, w, s.workers[v].batch[0], v, 0, "", s.now);
    case AckRaised(v, _) => OthersMissTheRow(s.tables, id, w, s.workers[v].batch[0], v, 0, "", s.now);
    case Retried(v, jitter, error, _) =>
      var q := s.workers[v].batch[0];
      OthersMissTheRow(s.tables, id, w, q, v, RetryDelay(c, q.attempts, jitter), error, s.now);
    case Buried(v, error, _) => OthersMissTheRow(s.tables, id, w, s.workers[v].batch[0], v, 0, error, s.now);
    case _ =>
  }

  // ---- Conservation ----

  predicate Finished(j: Job) {
    j.status.Done? || j.status.Dead?
  }

  /** What every step preserves of a row: its identity always, and its outcome once it is finished. */
  predicate Conserved(a: Job, b: Job) {
    && a.topic == b.topic && a.payload == b.payload && a.dedupe == b.dedupe
    && a.maxAttempts == b.maxAttempts && a.createdAt == b.createdAt
    && a.attempts <= b.attempts
    && (Finished(a) ==> b == a.(updatedAt := b.updatedAt))
  }

  /** Every row of t is in t' and conserved there. */
  ghost predicate AllConserved(t: Tables, t': Tables) {
    forall id :: id in t.jobs ==> id in t'.jobs && Conserved(t.jobs[id], t'.jobs[id])
  }

  lemma OutcomesConserve(t: Tables, q: QueueJob, w: WorkerId, delay: int, error: string, now: int)
    ensures AllConserved(t, AckIn(t, q.id, w, now))
    ensures AllConserved(t, RetryIn(t, q.id, w, delay, error, now))
    ensures AllConserved(t, BuryIn(t, q, w, error, now))
  {
  }

  lemma ClaimConserves(t: Tables, c: Config, w: WorkerId, now: int, picked: set<JobId>)
    requires picked <= EligibleIds(t, c, now)
    ensures AllConserved(t, ClaimIn(t, w, now, picked))
  {
  }

  lemma StepConserves(c: Config, s: World, e: Event)
    requires ValidConfig(c) && Enabled(c, s, e)
    ensures AllConserved(s.tables, Step(c, s, e).tables)
  {
    match e
    case Claimed(w, _, _, batch) => ClaimConserves(s.tables, c, w, s.now, IdsOf(batch));
    case Acked(w) => OutcomesConserve(s.tables, s.workers[w].batch[0], w, 0, "", s.now);
    case AckRaised(w, _) => OutcomesConserve(s.tables, s.workers[w].batch[0], w, 0, "", s.now);
    case Retried(w, jitter, error, _) =>
      var q := s.workers[w].batch[0];
      OutcomesConserve(s.tables, q, w, RetryDelay(c, q.attempts, jitter), error, s.now);
    case Buried(w, error, _) => OutcomesConserve(s.tables, s.workers[w].batch[0], w, 0, error, s.now);
    case _ =>
  }

  lemma StepConservesRow(c: Config, s: World, e: Event, id: JobId)
    requires ValidConfig(c) && Enabled(c, s, e) && id in s.tables.jobs
    ensures id in Step(c, s, e).tables.jobs && Conserved(s.tables.jobs[id], Step(c, s, e).tables.jobs[id])
  {
    StepConserves(c, s, e);
  }

  lemma ConservedIsTransitive(a: Job, b: Job, c: Job)
    requires Conserved(a, b) && Conserved(b, c)
    ensures Conserved(a, c)
  {
  }

  lemma {:induction false} RunConserves(c: Config, worlds: seq<World>, events: seq<Event>, i: nat, n: nat, id: JobId)
    requires IsRun(c, worlds, events) && i <= n < |worlds| && id in worlds[i].tables.jobs
    ensures id in worlds[n].tables.jobs && Conserved(worlds[i].tables.jobs[id], worlds[n].tables.jobs[id])
  {
    if i < n {
      RunConserves(c, worlds, events, i, n - 1, id);
      StepConservesRow(c, worlds[n - 1], events[n - 1], id);
      ConservedIsTransitive(worlds[i].tables.jobs[id], worlds[n - 1].tables.jobs[id], worlds[n].tables.jobs[id]);
    }
  }

  /** A repeated enqueue returns the id of the row already there and touches only its updated_at. */
  lemma RepeatedEnqueue(t: Tables, c: Config, r: Request, id: JobId, got: JobId, now: int)
    requires KeysUnique(t) && id in t.jobs && SameKey(t.jobs[id], r.topic, r.dedupe) && EnqueueReturns(t, r, got)
    ensures got == id
    ensures EnqueueIn(t, c, r, got, now) == t.(jobs := t.jobs[id := t.jobs[id].(updatedAt := now)])
  {
    assert SameKey(t.jobs[got], t.jobs[id].topic, t.jobs[id].dedupe);
  }

  /** Along a run, all enqueues of one topic and non-null key return one id. */
  lemma EnqueuesOfAKeyAgree(c: Config, worlds: seq<World>, events: seq<Event>, i: nat, n: nat)
    requires IsRun(c, worlds, events) && i < n < |events| && events[i].Enqueued? && events[n].Enqueued?
    requires events[i].request.dedupe.Some? && events[i].request.dedupe == events[n].request.dedupe
    requires events[i].request.topic == events[n].request.topic
    ensures events[i].id == events[n].id
  {
    var id := events[i].id;
    assert SameKey(worlds[i + 1].tables.jobs[id], events[n].request.topic, events[n].request.dedupe);
    RunConserves(c, worlds, events, i + 1, n, id);
    RunKeepsInv(c, worlds, events, n);
    RepeatedEnqueue(worlds[n].tables, c, events[n].request, id, events[n].id, worlds[n].now);
  }

  // ---- Dead letters ----

  /** A dead-letter transaction committed for a job whose acknowledgement had been committed, then raised. */
  predicate StrayBurial(s: World, e: Event) {
    e.Buried? && !e.call.RaisedBeforeCommit? && Busy(s, e.w) && s.workers[e.w].phase == Failed(true)
  }

  lemma {:induction false} StraysComeFromBurials(c: Config, worlds: seq<World>, events: seq<Event>, n: nat)
    requires IsRun(c, worlds, events) && n < |worlds|
    ensures worlds[n].strays != {} <==> exists i :: 0 <= i < n && StrayBurial(worlds[i], events[i])
  {
    if n > 0 {
      StraysComeFromBurials(c, worlds, events, n - 1);
      var s, e := worlds[n - 1], events[n - 1];
      assert worlds[n] == Step(c, s, e);
      if StrayBurial(s, e) {
        assert s.workers[e.w].batch[0].id in worlds[n].strays;
      } else {
        assert worlds[n].strays == s.strays;
      }
    }
  }

  /** Every dead job has its dead letter, and the letters are exactly those of the dead jobs unless a dead-letter
      transaction was committed for a job whose acknowledgement had raised after its own commit. Without a unique
      constraint on job_id, which db/schema.sql does not declare, no job is ever dead and no letter is ever written. */
  lemma DeadLettersMatchDeadJobs(c: Config, worlds: seq<World>, events: seq<Event>, n: nat)
    requires IsRun(c, worlds, events) && n < |worlds|
    ensures WithStatus(worlds[n].tables, Dead) <= worlds[n].tables.letters.Keys
    ensures forall id :: id in worlds[n].tables.letters && id in worlds[n].tables.jobs ==>
              LetterOk(worlds[n].tables.jobs[id], worlds[n].tables.letters[id])
    ensures worlds[n].tables.letters.Keys == WithStatus(worlds[n].tables, Dead) <==>
            !exists i :: 0 <= i < n && StrayBurial(worlds[i], events[i])
    ensures !c.lettersUnique ==> WithStatus(worlds[n].tables, Dead) == {} && worlds[n].tables.letters == map[]
  {
    RunKeepsInv(c, worlds, events, n);
    StraysComeFromBurials(c, worlds, events, n);
    var dead, strays := WithStatus(worlds[n].tables, Dead), worlds[n].strays;
    forall id | id in strays ensures id !in dead {
      assert id in WithStatus(worlds[n].tables, Done);
    }
  }

  lemma ExtendRun(c: Config, worlds: seq<World>, events: seq<Event>, e: Event, s': World)
    requires IsRun(c, worlds, events) && Enabled(c, worlds[|events|], e) && s' == Step(c, worlds[|events|], e)
    ensures IsRun(c, worlds + [s'], events + [e])
  {
    var ws, es := worlds + [s'], events + [e];
    forall i | 0 <= i < |es| ensures Enabled(c, ws[i], es[i]) && ws[i + 1] == Step(c, ws[i], es[i]) {
      if i < |events| {
        assert ws[i] == worlds[i] && ws[i + 1] == worlds[i + 1];
      }
    }
  }

  lemma LoneJobEnqueued(c: Config, r: Request, w: WorkerId) returns (worlds: seq<World>, events: seq<Event>)
    requires ValidConfig(c) && r.topic != ""
    ensures IsRun(c, worlds, events) && |worlds| == 3
    ensures worlds[2].now == 0 && worlds[2].tables.jobs == map[0 := NewRow(c, r, 0)]
    ensures w in worlds[2].workers && worlds[2].workers[w] == Worker([], Running)
  {
    var s0 := World(0, Tables(map[], map[]), map[], map[], {});
    var s1 := EnqueueTo(c, s0, r, 0);
    ExtendRun(c, [s0], [], Enqueued(r, 0), s1);
    var s2 := s1.(workers := s1.workers[w := Worker([], Running)]);
    ExtendRun(c, [s0] + [s1], [] + [Enqueued(r, 0)], Started(w), s2);
    worlds, events := [s0] + [s1] + [s2], [] + [Enqueued(r, 0)] + [Started(w)];
  }

  lemma LoneJobClaimed(c: Config, w: WorkerId) returns (worlds: seq<World>, events: seq<Event>)
    requires ValidConfig(c)
    ensures IsRun(c, worlds, events) && |worlds| == 4
    ensures Busy(worlds[3], w) && worlds[3].workers[w].phase.Running?
    ensures var q := worlds[3].workers[w].batch[0];
            Holds(worlds[3].tables, w, q) && q.id == 0 && q.attempts == q.maxAttempts
  {
    var r := Request("t", "{}", None, 0, Some(1));
    var ws, es := LoneJobEnqueued(c, r, w);
    var q := Snapshot(0, ClaimRow(NewRow(c, r, 0), w, 0));
    var s3 := FirstClaim(c, ws[2], w, q);
    ExtendRun(c, ws, es, Claimed(w, 1, {}, [q]), s3);
    worlds, events := ws + [s3], es + [Claimed(w, 1, {}, [q])];
  }

  /** Such a letter can be written: one job, one attempt, an acknowledgement that raises after its commit. */
  lemma StrayLetterIsReachable(c: Config) returns (worlds: seq<World>, events: seq<Event>)
    requires ValidConfig(c) && c.lettersUnique
    ensures IsRun(c, worlds, events) && |worlds| == 6
    ensures 0 in worlds[5].tables.letters && 0 in worlds[5].tables.jobs && worlds[5].tables.jobs[0].status.Done?
  {
    var ws, es := LoneJobClaimed(c, "w");
    var s4, s5 := StrayFrom(c, ws[3], "w");
    ExtendRun(c, ws, es, AckRaised("w", true), s4);
    ExtendRun(c, ws + [s4], es + [AckRaised("w", true)], Buried("w", "", Returned), s5);
    worlds, events := ws + [s4] + [s5], es + [AckRaised("w", true)] + [Buried("w", "", Returned)];
  }

  /** Any last attempt can end that way. */
  lemma StrayFrom(c: Config, s: World, w: WorkerId) returns (s': World, s'': World)
    requires ValidConfig(c) && c.lettersUnique && Busy(s, w) && s.workers[w].phase.Running?
    requires Holds(s.tables, w, s.workers[w].batch[0])
    requires s.workers[w].batch[0].attempts >= s.workers[w].batch[0].maxAttempts
    ensures Enabled(c, s, AckRaised(w, true)) && s' == Step(c, s, AckRaised(w, true))
    ensures Enabled(c, s', Buried(w, "", Returned)) && s'' == Step(c, s', Buried(w, "", Returned))
    ensures var id := s.workers[w].batch[0].id;
            id in s''.tables.letters && id in s''.tables.jobs && s''.tables.jobs[id].status.Done?
  {
    s' := Step(c, s, AckRaised(w, true));
    s'' := Step(c, s', Buried(w, "", Returned));
  }

  /** A worker that finds a single eligible row claims it. */
  lemma FirstClaim(c: Config, s: World, w: WorkerId, q: QueueJob) returns (s': World)
    requires ValidConfig(c) && w in s.workers && s.workers[w] == Worker([], Running)
    requires s.tables.jobs.Keys == {q.id} && Eligible(c, s.tables.jobs[q.id], s.now)
    requires q == Snapshot(q.id, ClaimRow(s.tables.jobs[q.id], w, s.now))
    ensures Enabled(c, s, Claimed(w, 1, {}, [q])) && s' == Step(c, s, Claimed(w, 1, {}, [q]))
  {
    assert [q][0] in [q];
    assert IdsOf([q]) == {q.id};
    assert EligibleIds(s.tables, c, s.now) - {} == {q.id};
    s' := Step(c, s, Claimed(w, 1, {}, [q]));
  }

  // ---- Orphaned claims ----

  /** The row is locked, but no live worker still has the job in its batch. */
  ghost predicate Orphaned(s: World, id: JobId) {
    && id in s.tables.jobs && s.tables.jobs[id].status.Processing?
    && forall w, q :: w in s.workers && q in s.workers[w].batch ==> q.id != id
  }

  lemma OrphanStays(c: Config, s: World, e: Event, id: JobId)
    requires ValidConfig(c) && Enabled(c, s, e) && Orphaned(s, id)
    ensures Orphaned(Step(c, s, e), id)
  {
    var s' := Step(c, s, e);
    forall w, q | w in s'.workers && q in s'.workers[w].batch ensures q.id != id {
      if e.Claimed? {
        assert q in e.batch ==> q.id in IdsOf(e.batch);
      } else {
        OnlyClaimsAddJobs(c, s, e, w, q);
      }
    }
    assert s'.tables.jobs[id].status.Processing? by {
      if e.Claimed? {
        assert id !in IdsOf(e.batch);
      } else if !e.Tick? && !e.Enqueued? && Busy(s, e.w) {
        assert s.workers[e.w].batch[0] in s.workers[e.w].batch;
      }
    }
  }

  /** A job whose worker left in mid-batch is never taken up again: claims select pending rows only. */
  lemma {:induction false} OrphansAreNeverReclaimed(c: Config, worlds: seq<World>, events: seq<Event>, i: nat, n: nat,
                                                    id: JobId)
    requires IsRun(c, worlds, events) && i <= n < |worlds| && Orphaned(worlds[i], id)
    ensures Orphaned(worlds[n], id)
  {
    if i < n {
      OrphansAreNeverReclaimed(c, worlds, events, i, n - 1, id);
      OrphanStays(c, worlds[n - 1], events[n - 1], id);
    }
  }

  /** The head job of w has failed, and not because of a lost acknowledgement, on its last attempt. */
  predicate LastAttemptFailed(s: World, w: WorkerId) {
    && Busy(s, w) && s.workers[w].phase == Failed(false)
    && s.workers[w].batch[0].attempts >= s.workers[w].batch[0].maxAttempts
  }

  /** Every step the worker can take now leaves its head job locked and in nobody's batch. */
  ghost predicate Doomed(c: Config, s: World, w: WorkerId)
    requires ValidConfig(c) && Busy(s, w)
  {
    forall e :: Enabled(c, s, e) && ActsFor(e, w) ==> Orphaned(Step(c, s, e), s.workers[w].batch[0].id)
  }

  lemma LeavingOrphans(c: Config, s: World, w: WorkerId, s': World)
    requires Inv(c, s) && BatchesDisjoint(s) && Busy(s, w) && s.workers[w].phase != Failed(true)
    requires s'.tables == s.tables && s'.workers == s.workers - {w}
    ensures Orphaned(s', s.workers[w].batch[0].id)
  {
    HeadIsHeld(c, s, w);
    assert s.workers[w].batch[0] in s.workers[w].batch;
  }

  lemma BurialIsPossible(c: Config, s: World, w: WorkerId)
    requires ValidConfig(c) && c.lettersUnique && Inv(c, s) && LastAttemptFailed(s, w)
    ensures !Doomed(c, s, w)
  {
    var e := Buried(w, "", Returned);
    HeadIsHeld(c, s, w);
    assert Enabled(c, s, e) && ActsFor(e, w);
    assert Step(c, s, e).tables.jobs[s.workers[w].batch[0].id].status.Dead?;
  }

  lemma OnlyLeaves(c: Config, s: World, w: WorkerId, e: Event)
    requires ValidConfig(c) && !c.lettersUnique && LastAttemptFailed(s, w) && Enabled(c, s, e) && ActsFor(e, w)
    ensures Step(c, s, e).tables == s.tables && Step(c, s, e).workers == s.workers - {w}
  {
  }

  lemma BurialIsRefused(c: Config, s: World, w: WorkerId)
    requires ValidConfig(c) && !c.lettersUnique && Inv(c, s) && BatchesDisjoint(s) && LastAttemptFailed(s, w)
    ensures Doomed(c, s, w)
  {
    forall e | Enabled(c, s, e) && ActsFor(e, w) ensures Orphaned(Step(c, s, e), s.workers[w].batch[0].id) {
      OnlyLeaves(c, s, w, e);
      LeavingOrphans(c, s, w, Step(c, s, e));
    }
  }

  /** After a failed last attempt the job is orphaned, whatever its worker does next, if and only if no unique
      constraint covers the letters' job_id. */
  lemma FailedLastAttemptOrphansIffUnconstrained(c: Config, worlds: seq<World>, events: seq<Event>, n: nat, w: WorkerId)
    requires IsRun(c, worlds, events) && n < |worlds| && LastAttemptFailed(worlds[n], w)
    ensures Doomed(c, worlds[n], w) <==> !c.lettersUnique
  {
    RunKeepsInv(c, worlds, events, n);
    if c.lettersUnique {
      BurialIsPossible(c, worlds[n], w);
    } else {
      RunKeepsDisjoint(c, worlds, events, n);
      BurialIsRefused(c, worlds[n], w);
    }
  }

  /** What a dead-letter transaction for a failed last attempt comes to, for good: dead with its letter if it was
      committed, else locked for ever in nobody's batch. */
  lemma BuriedOrOrphaned(c: Config, worlds: seq<World>, events: seq<Event>, n: nat, m: nat)
    requires IsRun(c, worlds, events) && n < m < |worlds| && events[n].Buried?
    requires worlds[n].workers[events[n].w].phase == Failed(false)
    ensures var id, t := worlds[n].workers[events[n].w].batch[0].id, worlds[m].tables;
            && id in t.jobs
            && (if events[n].call.RaisedBeforeCommit? then Orphaned(worlds[m], id)
                else t.jobs[id].status.Dead? && id in t.letters)
  {
    var s, e := worlds[n], events[n];
    var id := s.workers[e.w].batch[0].id;
    RunKeepsInv(c, worlds, events, n);
    RunKeepsDisjoint(c, worlds, events, n);
    HeadIsHeld(c, s, e.w);
    if e.call.RaisedBeforeCommit? {
      LeavingOrphans(c, s, e.w, worlds[n + 1]);
      OrphansAreNeverReclaimed(c, worlds, events, n + 1, m, id);
    } else {
      assert worlds[n + 1].tables.jobs[id].status.Dead?;
      RunConserves(c, worlds, events, n + 1, m, id);
      DeadLettersMatchDeadJobs(c, worlds, events, m);
      assert id in WithStatus(worlds[m].tables, Dead);
    }
  }

  /** One job, one attempt, which fails. */
  lemma LoneJobFails(c: Config, w: WorkerId) returns (worlds: seq<World>, events: seq<Event>)
    requires ValidConfig(c)
    ensures IsRun(c, worlds, events) && |worlds| == 5
    ensures LastAttemptFailed(worlds[4], w) && worlds[4].workers[w].batch[0].id == 0
  {
    var ws, es := LoneJobClaimed(c, w);
    var s4 := Step(c, ws[3], JobFailed(w));
    ExtendRun(c, ws, es, JobFailed(w), s4);
    worlds, events := ws + [s4], es + [JobFailed(w)];
  }

  /** Some run makes a job dead if and only if a unique constraint covers the letters' job_id. */
  lemma DeadIsReachableIffConstrained(c: Config)
    requires ValidConfig(c)
    ensures (exists worlds: seq<World>, events ::
               IsRun(c, worlds, events) && WithStatus(worlds[|events|].tables, Dead) != {}) <==> c.lettersUnique
  {
    if c.lettersUnique {
      var ws, es := LoneJobFails(c, "w");
      var e := Buried("w", "", Returned);
      var s5 := Step(c, ws[4], e);
      ExtendRun(c, ws, es, e, s5);
      var worlds, events := ws + [s5], es + [e];
      BuriedOrOrphaned(c, worlds, events, 4, 5);
      assert 0 in WithStatus(worlds[|events|].tables, Dead);
    } else {
      forall worlds: seq<World>, events | IsRun(c, worlds, events)
        ensures WithStatus(worlds[|events|].tables, Dead) == {}
      {
        DeadLettersMatchDeadJobs(c, worlds, events, |events|);
      }
    }
  }

  /** A run that loses a job: its only attempt fails and the dead-letter statement is refused. With the shipped schema
      no call can do better. */
  lemma OrphanIsReachable(c: Config) returns (worlds: seq<World>, events: seq<Event>)
    requires ValidConfig(c)
    ensures IsRun(c, worlds, events) && |worlds| == 6
    ensures Orphaned(worlds[5], 0) && "w" !in worlds[5].workers
  {
    var ws, es := LoneJobFails(c, "w");
    var e := Buried("w", "", RaisedBeforeCommit);
    var s5 := Step(c, ws[4], e);
    ExtendRun(c, ws, es, e, s5);
    worlds, events := ws + [s5], es + [e];
    BuriedOrOrphaned(c, worlds, events, 4, 5);
  }

  // ---- Work is bounded ----

  function Weight(j: Job): int {
    match j.status
    case Pending => 2 * (j.maxAttempts - j.attempts)
    case Processing => 2 * (j.maxAttempts - j.attempts) + 1
    case _ => 0
  }

  function WeightAt(t: Tables, id: JobId): int {
    if id in t.jobs then Weight(t.jobs[id]) else 0
  }

  function BudgetAt(t: Tables, id: JobId): int {
    if id in t.jobs then 2 * t.jobs[id].maxAttempts else 0
  }

  ghost function Remaining(t: Tables): int {
    Sum(t.jobs.Keys, id => WeightAt(t, id))
  }

  ghost function Budget(t: Tables): int {
    Sum(t.jobs.Keys, id => BudgetAt(t, id))
  }

  /** How many rows a step claims or moves on. */
  function Work(s: World, e: Event): nat {
    match e
    case Claimed(_, _, _, batch) => |IdsOf(batch)|
    case Acked(w) => 1
    case AckRaised(w, committed) => if committed then 1 else 0
    case Retried(w, _, _, call) =>
      if Busy(s, w) && s.workers[w].phase == Failed(false) && !call.RaisedBeforeCommit? then 1 else 0
    case Buried(w, _, call) =>
      if Busy(s, w) && s.workers[w].phase == Failed(false) && !call.RaisedBeforeCommit? then 1 else 0
    case _ => 0
  }

  lemma ClaimBudget(t: Tables, w: WorkerId, now: int, picked: set<JobId>)
    ensures Budget(ClaimIn(t, w, now, picked)) == Budget(t)
  {
    var t' := ClaimIn(t, w, now, picked);
    assert t'.jobs.Keys == t.jobs.Keys;
    SumEqual(t.jobs.Keys, id => BudgetAt(t, id), id => BudgetAt(t', id));
  }

  lemma ClaimWeight(t: Tables, c: Config, w: WorkerId, now: int, picked: set<JobId>, id: JobId)
    requires picked <= EligibleIds(t, c, now) && id in t.jobs
    ensures WeightAt(t, id) == WeightAt(ClaimIn(t, w, now, picked), id) + if id in picked then 1 else 0
  {
  }

  lemma ClaimWork(t: Tables, c: Config, w: WorkerId, now: int, picked: set<JobId>)
    requires picked <= EligibleIds(t, c, now)
    ensures Remaining(ClaimIn(t, w, now, picked)) == Remaining(t) - |picked|
  {
    var t', keys := ClaimIn(t, w, now, picked), t.jobs.Keys;
    assert t'.jobs.Keys == keys;
    var before, after, one := id => WeightAt(t, id), id => WeightAt(t', id), id => if id in picked then 1 else 0;
    forall id | id in keys ensures before(id) == after(id) + one(id) {
      ClaimWeight(t, c, w, now, picked, id);
    }
    SumDifference(keys, before, after, one);
    SumIndicator(keys, picked, one);
  }

  lemma ReplaceWork(t: Tables, t': Tables, id: JobId)
    requires Replaces(t, t', id) && t'.jobs[id].maxAttempts == t.jobs[id].maxAttempts
    ensures Remaining(t') == Remaining(t) - Weight(t.jobs[id]) + Weight(t'.jobs[id])
    ensures Budget(t') == Budget(t)
  {
    assert t'.jobs.Keys == t.jobs.Keys;
    SumChangeOne(t.jobs.Keys, id => WeightAt(t, id), id => WeightAt(t', id), id);
    SumChangeOne(t.jobs.Keys, id => BudgetAt(t, id), id => BudgetAt(t', id), id);
  }

  lemma InsertWork(t: Tables, t': Tables, id: JobId)
    requires id !in t.jobs && t'.jobs.Keys == t.jobs.Keys + {id} && t'.jobs == t.jobs[id := t'.jobs[id]]
    ensures Remaining(t') == Remaining(t) + Weight(t'.jobs[id])
    ensures Budget(t') == Budget(t) + 2 * t'.jobs[id].maxAttempts
  {
    SumRemove(t'.jobs.Keys, id => WeightAt(t', id), id);
    SumRemove(t'.jobs.Keys, id => BudgetAt(t', id), id);
    assert t'.jobs.Keys - {id} == t.jobs.Keys;
    SumEqual(t.jobs.Keys, id => WeightAt(t, id), id => WeightAt(t', id));
    SumEqual(t.jobs.Keys, id => BudgetAt(t, id), id => BudgetAt(t', id));
  }

  lemma AckUsesWork(c: Config, s: World, w: WorkerId)
    requires Inv(c, s) && Busy(s, w) && s.workers[w].phase.Running?
    ensures var t' := AckTo(s, w).tables;
            Remaining(t') + 1 <= Remaining(s.tables) && Budget(t') == Budget(s.tables)
  {
    HeadIsHeld(c, s, w);
    AckKeepsTables(c, s, w);
    ReplaceWork(s.tables, AckTo(s, w).tables, s.workers[w].batch[0].id);
  }

  lemma RetryUsesWork(c: Config, s: World, w: WorkerId, delay: int, error: string, call: Call)
    requires Inv(c, s) && Busy(s, w) && s.workers[w].phase == Failed(false) && !call.RaisedBeforeCommit?
    requires s.workers[w].batch[0].attempts < s.workers[w].batch[0].maxAttempts
    requires delay >= Backoff(c, s.workers[w].batch[0].attempts)
    ensures var t' := RetryTo(s, w, delay, error, call).tables;
            Remaining(t') + 1 <= Remaining(s.tables) && Budget(t') == Budget(s.tables)
  {
    HeadIsHeld(c, s, w);
    RetryKeepsTables(c, s, w, delay, error, call);
    ReplaceWork(s.tables, RetryTo(s, w, delay, error, call).tables, s.workers[w].batch[0].id);
  }

  lemma BuryUsesWork(c: Config, s: World, w: WorkerId, error: string, call: Call)
    requires Inv(c, s) && Busy(s, w) && s.workers[w].phase == Failed(false) && !call.RaisedBeforeCommit?
    requires c.lettersUnique
    requires s.workers[w].batch[0].attempts >= s.workers[w].batch[0].maxAttempts
    ensures var t' := BuryTo(s, w, error, call).tables;
            Remaining(t') + 1 <= Remaining(s.tables) && Budget(t') == Budget(s.tables)
  {
    HeadIsHeld(c, s, w);
    BuryKeepsTables(c, s, w, error, call);
    ReplaceWork(s.tables, BuryTo(s, w, error, call).tables, s.workers[w].batch[0].id);
  }

  /** The tables' rows are unchanged. */
  lemma NoWork(t: Tables, t': Tables)
    requires t'.jobs == t.jobs
    ensures Remaining(t') == Remaining(t) && Budget(t') == Budget(t)
  {
    SumEqual(t.jobs.Keys, id => WeightAt(t, id), id => WeightAt(t', id));
    SumEqual(t.jobs.Keys, id => BudgetAt(t, id), id => BudgetAt(t', id));
  }

  lemma OutcomeUsesWork(c: Config, s: World, e: Event)
    requires ValidConfig(c) && Inv(c, s) && Enabled(c, s, e) && (e.Retried? || e.Buried?)
    ensures var t' := Step(c, s, e).tables;
            Remaining(t') + Work(s, e) <= Remaining(s.tables) && Budget(t') == Budget(s.tables)
  {
    if e.call.RaisedBeforeCommit? || s.workers[e.w].phase.acked {
      assert BatchOk(s.tables, e.w, s.workers[e.w]);
      NoWork(s.tables, Step(c, s, e).tables);
    } else if e.Retried? {
      RetryUsesWork(c, s, e.w, RetryDelay(c, s.workers[e.w].batch[0].attempts, e.jitter), e.error, e.call);
    } else {
      BuryUsesWork(c, s, e.w, e.error, e.call);
    }
  }

  lemma EnqueueBringsWork(c: Config, s: World, r: Request, id: JobId)
    ensures var t' := EnqueueTo(c, s, r, id).tables;
            Remaining(t') - Remaining(s.tables) <= Budget(t') - Budget(s.tables)
  {
    var t' := EnqueueTo(c, s, r, id).tables;
    if id in s.tables.jobs {
      ReplaceWork(s.tables, t', id);
    } else {
      InsertWork(s.tables, t', id);
    }
  }

  /** Every claimed row and every outcome uses up at least one unit; only a new row brings units in. */
  lemma StepUsesWork(c: Config, s: World, e: Event)
    requires ValidConfig(c) && Inv(c, s) && Enabled(c, s, e)
    ensures var s' := Step(c, s, e);
            Remaining(s'.tables) + Work(s, e) - Remaining(s.tables) <= Budget(s'.tables) - Budget(s.tables)
    ensures !e.Enqueued? ==> Remaining(Step(c, s, e).tables) + Work(s, e) <= Remaining(s.tables)
  {
    var t' := Step(c, s, e).tables;
    match e
    case Claimed(w, _, _, batch) =>
      ClaimWork(s.tables, c, w, s.now, IdsOf(batch));
      ClaimBudget(s.tables, w, s.now, IdsOf(batch));
    case Enqueued(r, id) => EnqueueBringsWork(c, s, r, id);
    case Acked(w) => AckUsesWork(c, s, w);
    case AckRaised(w, _) => AckUsesWork(c, s, w);
    case Retried(_, _, _, _) => OutcomeUsesWork(c, s, e);
    case Buried(_, _, _) => OutcomeUsesWork(c, s, e);
    case _ =>
  }

  ghost function WorkUpTo(worlds: seq<World>, events: seq<Event>, n: nat): nat
    requires n <= |events| <= |worlds|
  {
    if n == 0 then 0 else WorkUpTo(worlds, events, n - 1) + Work(worlds[n - 1], events[n - 1])
  }

  lemma RemainingNonNegative(c: Config, s: World)
    requires Inv(c, s)
    ensures Remaining(s.tables) >= 0
  {
    forall id | id in s.tables.jobs ensures WeightAt(s.tables, id) >= 0 {
      assert RowOk(s.tables.jobs[id]);
    }
    SumNonNegative(s.tables.jobs.Keys, id => WeightAt(s.tables, id));
  }

  /** Whatever the workers, crashes and interleaving, the rows claimed plus the outcomes recorded never exceed
      twice the attempts that the enqueued jobs allow. */
  lemma {:induction false} WorkIsBounded(c: Config, worlds: seq<World>, events: seq<Event>, n: nat)
    requires IsRun(c, worlds, events) && n < |worlds|
    ensures WorkUpTo(worlds, events, n) + Remaining(worlds[n].tables) <= Budget(worlds[n].tables)
    ensures Remaining(worlds[n].tables) >= 0
  {
    RunKeepsInv(c, worlds, events, n);
    RemainingNonNegative(c, worlds[n]);
    if n > 0 {
      WorkIsBounded(c, worlds, events, n - 1);
      RunKeepsInv(c, worlds, events, n - 1);
      StepUsesWork(c, worlds[n - 1], events[n - 1]);
    }
  }

  // ---- Backoff ----

  lemma DueStays(c: Config, s: World, e: Event, id: JobId)
    requires ValidConfig(c) && Enabled(c, s, e) && id in s.tables.jobs && id in s.history
    ensures id in Step(c, s, e).history && Step(c, s, e).history[id].due == s.history[id].due
  {
  }

  lemma {:induction false} DueTimeIsFixed(c: Config, worlds: seq<World>, events: seq<Event>, i: nat, n: nat)
    requires IsRun(c, worlds, events) && i < n < |worlds|
    requires events[i].Enqueued? && events[i].id !in worlds[i].tables.jobs
    ensures var id := events[i].id;
            && id in worlds[n].history && id in worlds[n].tables.jobs
            && worlds[n].history[id].due == worlds[i].now + TICKS_PER_SECOND * Max(0, events[i].request.runAfter)
  {
    if i + 1 == n {
      assert worlds[n] == EnqueueTo(c, worlds[i], events[i].request, events[i].id);
    } else {
      DueTimeIsFixed(c, worlds, events, i, n - 1);
      DueStays(c, worlds[n - 1], events[n - 1], events[i].id);
      StepConservesRow(c, worlds[n - 1], events[n - 1], events[i].id);
    }
  }

  lemma KthClaim(c: Config, worlds: seq<World>, events: seq<Event>, n: nat, id: JobId, k: nat)
    requires IsRun(c, worlds, events) && n < |worlds|
    requires id in worlds[n].tables.jobs && 1 <= k <= worlds[n].tables.jobs[id].attempts
    ensures id in worlds[n].history && k <= |worlds[n].history[id].claims|
    ensures var h := worlds[n].history[id]; h.claims[k - 1] >= h.due + TICKS_PER_SECOND * BackoffSum(c, k - 1)
  {
    RunKeepsInv(c, worlds, events, n);
    assert HistoryOk(c, worlds[n].now, worlds[n].tables.jobs[id], worlds[n].history[id]);
  }

  lemma RetriedRow(c: Config, s: World, w: WorkerId, jitter: real, error: string, call: Call)
    requires ValidConfig(c) && 0.0 <= jitter <= c.retryJitter && Inv(c, s) && Busy(s, w)
    requires s.workers[w].phase == Failed(false) && !call.RaisedBeforeCommit?
    requires s.workers[w].batch[0].attempts < s.workers[w].batch[0].maxAttempts
    ensures var q := s.workers[w].batch[0];
            var t' := RetryTo(s, w, RetryDelay(c, q.attempts, jitter), error, call).tables;
            && q.id in s.tables.jobs && q.id in t'.jobs
            && t'.jobs[q.id].status.Pending? && t'.jobs[q.id].attempts == s.tables.jobs[q.id].attempts == q.attempts
            && IsDueAfter(t'.jobs[q.id].nextAttemptAt - s.now, Backoff(c, q.attempts), jitter)
  {
    var q := s.workers[w].batch[0];
    HeadIsHeld(c, s, w);
    RetryReplaces(s.tables, q, w, RetryDelay(c, q.attempts, jitter), error, s.now);
    DelayIsDueAfter(c, q.attempts, jitter);
  }

  /** A retry leaves its job pending and due after the backoff of its own attempt, with the jitter drawn. */
  lemma RetriedIsDue(c: Config, s: World, e: Event)
    requires ValidConfig(c) && Inv(c, s) && Enabled(c, s, e) && e.Retried? && !e.call.RaisedBeforeCommit?
    requires s.workers[e.w].phase == Failed(false)
    ensures var id, t' := s.workers[e.w].batch[0].id, Step(c, s, e).tables;
            && id in s.tables.jobs && id in t'.jobs && t'.jobs[id].status.Pending?
            && t'.jobs[id].attempts == s.tables.jobs[id].attempts
            && IsDueAfter(t'.jobs[id].nextAttemptAt - s.now, Backoff(c, s.tables.jobs[id].attempts), e.jitter)
  {
    RetriedRow(c, s, e.w, e.jitter, e.error, e.call);
  }

  /** The k-th claim of the job that event i enqueued comes no earlier than the enqueue, plus its initial delay,
      plus the waits of the k - 1 attempts before; while the cap is not reached those waits add up to
      base * (2^(k-1) - 1) seconds. */
  lemma ClaimsRespectBackoff(c: Config, worlds: seq<World>, events: seq<Event>, i: nat, n: nat, k: nat)
    requires IsRun(c, worlds, events) && i < n < |worlds|
    requires events[i].Enqueued? && events[i].id !in worlds[i].tables.jobs
    requires events[i].id in worlds[n].tables.jobs && 1 <= k <= worlds[n].tables.jobs[events[i].id].attempts
    ensures events[i].id in worlds[n].history && k <= |worlds[n].history[events[i].id].claims|
    ensures var kth := worlds[n].history[events[i].id].claims[k - 1];
            var due := worlds[i].now + TICKS_PER_SECOND * Max(0, events[i].request.runAfter);
            && kth >= due + TICKS_PER_SECOND * BackoffSum(c, k - 1)
            && (k == 1 || c.retryBase * Pow2(k - 2) <= c.retryMax ==>
                  kth >= due + TICKS_PER_SECOND * (c.retryBase * (Pow2(k - 1) - 1)))
  {
    var id := events[i].id;
    DueTimeIsFixed(c, worlds, events, i, n);
    KthClaim(c, worlds, events, n, id, k);
    if k == 1 || c.retryBase * Pow2(k - 2) <= c.retryMax {
      BackoffSumBelowCap(c, k - 1);
    }
  }

  /** A claim adds its time to the history of every job it takes, and one to its attempts. */
  lemma ClaimIsRecorded(c: Config, s: World, w: WorkerId, batch: seq<QueueJob>, id: JobId)
    requires Inv(c, s) && id in IdsOf(batch) && id in s.tables.jobs
    ensures var s' := ClaimTo(s, w, batch);
            && id in s.history && id in s'.tables.jobs && id in s'.history
            && s'.tables.jobs[id].attempts == s.tables.jobs[id].attempts + 1
            && |s'.history[id].claims| == s'.tables.jobs[id].attempts
            && s'.history[id].claims[s.tables.jobs[id].attempts] == s.now
  {
    assert HistoryOk(c, s.now, s.tables.jobs[id], s.history[id]);
  }

  /** So the step that claims a job for the k-th time is made no earlier than that. */
  lemma ClaimedNoEarlier(c: Config, worlds: seq<World>, events: seq<Event>, i: nat, m: nat, k: nat)
    requires IsRun(c, worlds, events) && i < m < |events|
    requires events[i].Enqueued? && events[i].id !in worlds[i].tables.jobs
    requires events[m].Claimed? && events[i].id in IdsOf(events[m].batch)
    requires events[i].id in worlds[m].tables.jobs && worlds[m].tables.jobs[events[i].id].attempts + 1 == k >= 1
    ensures var due := worlds[i].now + TICKS_PER_SECOND * Max(0, events[i].request.runAfter);
            && worlds[m].now >= due + TICKS_PER_SECOND * BackoffSum(c, k - 1)
            && (k == 1 || c.retryBase * Pow2(k - 2) <= c.retryMax ==>
                  worlds[m].now >= due + TICKS_PER_SECOND * (c.retryBase * (Pow2(k - 1) - 1)))
  {
    RunKeepsInv(c, worlds, events, m);
    ClaimIsRecorded(c, worlds[m], events[m].w, events[m].batch, events[i].id);
    assert worlds[m + 1] == ClaimTo(worlds[m], events[m].w, events[m].batch);
    ClaimsRespectBackoff(c, worlds, events, i, m + 1, k);
  }
}
