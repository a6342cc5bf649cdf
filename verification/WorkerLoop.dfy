/** The body of the worker loop for one claimed batch, run against the queue without interference. */
module WorkerLoop {
  import opened Common
  import opened Queue
  import opened QueueProtocol

  /** What becomes of a job: it is processed and acknowledged; its processing raises; or the acknowledgement, made at
      time `at`, raises, with its statement committed or not. jitter is drawn if the job has to be retried. */
  datatype Outcome =
    | Success
    | Failure(error: string, jitter: real)
    | AckLost(committed: bool, at: int, error: string, jitter: real)

  /** One job's outcome, and the last call made for it: its time, and in the except branch whether it returns. */
  datatype Round = Round(outcome: Outcome, now: int, call: Call)

  predicate RoundsOk(c: Config, rounds: seq<Round>) {
    forall i :: 0 <= i < |rounds| && !rounds[i].outcome.Success? ==> 0.0 <= rounds[i].outcome.jitter <= c.retryJitter
  }

  predicate Last(q: QueueJob) {
    q.attempts >= q.maxAttempts
  }

  /** The dead-letter statement is refused whatever else happens. */
  predicate Refused(c: Config, q: QueueJob) {
    Last(q) && !c.lettersUnique
  }

  /** The call in the except branch raises, and the exception ends the loop. */
  predicate Crashes(c: Config, q: QueueJob, r: Round) {
    !r.outcome.Success? && (Refused(c, q) || !r.call.Returned?)
  }

  predicate IsDone(o: Outcome) {
    o.Success? || (o.AckLost? && o.committed)
  }

  /** The tables when the loop enters its except branch. */
  function AtExcept(t: Tables, w: WorkerId, q: QueueJob, o: Outcome): Tables {
    if o.AckLost? && o.committed then AckIn(t, q.id, w, o.at) else t
  }

  function Handle(t: Tables, c: Config, w: WorkerId, q: QueueJob, r: Round): Tables
    requires ValidConfig(c) && RoundsOk(c, [r])
  {
    if r.outcome.Success? then AckIn(t, q.id, w, r.now)
    else
      assert [r][0] == r;
      var before := AtExcept(t, w, q, r.outcome);
      if !Last(q) then
        RetryIn(before, q.id, w, RetryDelay(c, q.attempts, r.outcome.jitter), r.outcome.error, r.now)
      else if c.lettersUnique then BuryIn(before, q, w, r.outcome.error, r.now)
      else before
  }

  /** The tables when an exception has ended the loop at job q. */
  function AtCrash(t: Tables, c: Config, w: WorkerId, q: QueueJob, r: Round): Tables
    requires ValidConfig(c) && RoundsOk(c, [r])
  {
    if r.call.RaisedAfterCommit? && !Refused(c, q) then Handle(t, c, w, q, r) else AtExcept(t, w, q, r.outcome)
  }

  /** The tables after the first n jobs of a batch. */
  function HandleAll(t: Tables, c: Config, w: WorkerId, batch: seq<QueueJob>, rounds: seq<Round>, n: nat): Tables
    requires ValidConfig(c) && n <= |batch| == |rounds| && RoundsOk(c, rounds)
  {
    if n == 0 then t else Handle(HandleAll(t, c, w, batch, rounds, n - 1), c, w, batch[n - 1], rounds[n - 1])
  }

  /** Handles jobs until the batch is over, `stop` is set after stopAfter jobs, or an exception escapes. */
  method HandleBatch(queue: PostgresQueue, w: WorkerId, batch: seq<QueueJob>, rounds: seq<Round>, stopAfter: nat)
    returns (handled: nat, crashed: bool)
    requires ValidConfig(queue.config) && |batch| == |rounds| && RoundsOk(queue.config, rounds)
    modifies queue
    ensures handled <= |batch|
    ensures crashed ==>
              && handled < Min(stopAfter, |batch|) && Crashes(queue.config, batch[handled], rounds[handled])
              && RoundsOk(queue.config, [rounds[handled]])
              && queue.tables == AtCrash(HandleAll(old(queue.tables), queue.config, w, batch, rounds, handled),
                                         queue.config, w, batch[handled], rounds[handled])
    ensures !crashed ==>
              && handled == Min(stopAfter, |batch|)
              && queue.tables == HandleAll(old(queue.tables), queue.config, w, batch, rounds, handled)
    ensures forall i :: 0 <= i < handled ==> !Crashes(queue.config, batch[i], rounds[i])
  {
    handled, crashed := 0, false;
    while handled < |batch|
      invariant handled <= Min(stopAfter, |batch|) && !crashed
      invariant queue.tables == HandleAll(old(queue.tables), queue.config, w, batch, rounds, handled)
      invariant forall i :: 0 <= i < handled ==> !Crashes(queue.config, batch[i], rounds[i])
    {
      if handled == stopAfter {
        break;
      }
      var q, o, now := batch[handled], rounds[handled].outcome, rounds[handled].now;
      if o.Success? {
        var _ := queue.Ack(q.id, w, now);
      } else {
        if o.AckLost? && o.committed {
          var _ := queue.Ack(q.id, w, o.at);
        }
        if rounds[handled].call.RaisedBeforeCommit? {
          crashed := true;
          return;
        }
        if q.attempts >= q.maxAttempts {
          var res := queue.MoveToDeadLetter(q, w, o.error, now);
          crashed := res.Err?;
        } else {
          var _ := queue.Retry(q.id, w, q.attempts, o.error, o.jitter, now);
        }
        crashed := crashed || rounds[handled].call.RaisedAfterCommit?;
        if crashed {
          return;
        }
      }
      handled := handled + 1;
    }
  }

  /** What a handled job's row and letter must show: done if its acknowledgement was committed; otherwise dead, with a
      letter, after its last attempt, and pending again, after its backoff, before that. */
  predicate Settled(t: Tables, c: Config, q: QueueJob, r: Round) {
    && q.id in t.jobs && Unlocked(t.jobs[q.id])
    && (IsDone(r.outcome) <==> t.jobs[q.id].status.Done?)
    && (!IsDone(r.outcome) && Last(q) <==> t.jobs[q.id].status.Dead?)
    && (!IsDone(r.outcome) && !Last(q) <==> t.jobs[q.id].status.Pending?)
    && (t.jobs[q.id].status.Pending? ==>
          t.jobs[q.id].nextAttemptAt >= r.now + TICKS_PER_SECOND * Backoff(c, q.attempts))
    && (!r.outcome.Success? && Last(q) ==> q.id in t.letters)
  }

  lemma HandleReleases(t: Tables, c: Config, w: WorkerId, q: QueueJob, r: Round)
    requires ValidConfig(c) && RoundsOk(c, [r]) && Holds(t, w, q) && RowsOk(t) && !Crashes(c, q, r)
    ensures var t' := Handle(t, c, w, q, r);
            && RowsOk(t') && Settled(t', c, q, r)
            && t.letters.Keys <= t'.letters.Keys
            && (forall id :: id in t.jobs && id != q.id ==> id in t'.jobs && t'.jobs[id] == t.jobs[id])
  {
    assert RowOk(t.jobs[q.id]);
    assert [r][0] == r;
  }

  /** After n jobs without a crash: those n are done, dead or pending as their outcomes say, and the rest of the batch
      is still the worker's. */
  lemma {:induction false} HandledJobsAreReleased(t: Tables, c: Config, w: WorkerId, batch: seq<QueueJob>,
                                                  rounds: seq<Round>, n: nat)
    requires ValidConfig(c) && n <= |batch| == |rounds| && RoundsOk(c, rounds)
    requires RowsOk(t) && BatchOk(t, w, Worker(batch, Running))
    requires forall i :: 0 <= i < n ==> !Crashes(c, batch[i], rounds[i])
    ensures var t' := HandleAll(t, c, w, batch, rounds, n);
            && RowsOk(t')
            && (forall i :: n <= i < |batch| ==> Holds(t', w, batch[i]))
            && (forall i :: 0 <= i < n ==> Settled(t', c, batch[i], rounds[i]))
  {
    if n == 0 {
      forall i | 0 <= i < |batch| ensures Holds(t, w, batch[i]) {
        assert i == 0 || Holds(t, w, batch[i]);
      }
    } else {
      HandledJobsAreReleased(t, c, w, batch, rounds, n - 1);
      var before := HandleAll(t, c, w, batch, rounds, n - 1);
      HandleReleases(before, c, w, batch[n - 1], rounds[n - 1]);
      var after := HandleAll(t, c, w, batch, rounds, n);
      forall i | 0 <= i < |batch| && i != n - 1
        ensures i >= n ==> Holds(after, w, batch[i])
        ensures i < n ==> Settled(after, c, batch[i], rounds[i])
      {
        assert batch[i].id != batch[n - 1].id by {
          assert i < n - 1 || n - 1 < i;
        }
      }
    }
  }
}
