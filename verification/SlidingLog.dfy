/** The sliding-window limiter of the suggestion endpoint: per key, the accepted hits that are still in the window. */
module SlidingLog {

  /** The hits after the cutoff, in order. */
  function After(hits: seq<real>, cutoff: real): seq<real> {
    if hits == [] then []
    else
      var rest := After(hits[..|hits| - 1], cutoff);
      if hits[|hits| - 1] > cutoff then rest + [hits[|hits| - 1]] else rest
  }

  /** The list stored after a call with list `stored`. */
  function Next(stored: seq<real>, limit: int, window: real, now: real): seq<real> {
    var kept := After(stored, now - window);
    if |kept| < limit then kept + [now] else kept
  }

  class RateLimiter {
    var hits: map<string, seq<real>>

    constructor ()
      ensures hits == map[]
    {
      hits := map[];
    }

    function Stored(key: string): seq<real>
      reads this
    {
      if key in hits then hits[key] else []
    }

    method RateLimitOk(key: string, limit: int, window: real, now: real) returns (ok: bool)
      modifies this
      ensures limit <= 0 ==> ok && hits == old(hits)
      ensures limit > 0 ==>
                && ok == (|After(old(Stored(key)), now - window)| < limit)
                && hits == old(hits)[key := Next(old(Stored(key)), limit, window, now)]
    {
      if limit <= 0 {
        return true;
      }
      var before := if key in hits then hits[key] else [];
      var cutoff := now - window;
      var kept: seq<real> := [];
      for i := 0 to |before|
        invariant kept == After(before[..i], cutoff)
      {
        assert before[..i + 1][..i] == before[..i];
        if before[i] > cutoff {
          kept := kept + [before[i]];
        }
      }
      assert before[..|before|] == before;
      if |kept| >= limit {
        hits := hits[key := kept];
        return false;
      }
      hits := hits[key := kept + [now]];
      return true;
    }
  }

  /** Exactly the hits after the cutoff are kept, each as often as it occurs. */
  lemma {:induction false} AfterKeepsTheRecent(hits: seq<real>, cutoff: real, x: real)
    ensures multiset(After(hits, cutoff))[x] == if x > cutoff then multiset(hits)[x] else 0
  {
    if hits != [] {
      var init, last := hits[..|hits| - 1], hits[|hits| - 1];
      AfterKeepsTheRecent(init, cutoff, x);
      assert hits == init + [last];
    }
  }

  // ---- One key, a whole trace of calls ----

  /** The call at time now is admitted by a list of earlier hits. */
  predicate Admits(hits: seq<real>, limit: int, window: real, now: real) {
    |After(hits, now - window)| < limit
  }

  /** stored: the list the limiter keeps. admitted: the calls that this list admitted. history: the reference, the calls
      that a list never pruned admits. */
  datatype Log = Log(stored: seq<real>, admitted: seq<real>, history: seq<real>)

  function Step(l: Log, limit: int, window: real, now: real): Log {
    Log(Next(l.stored, limit, window, now),
        if Admits(l.stored, limit, window, now) then l.admitted + [now] else l.admitted,
        if Admits(l.history, limit, window, now) then l.history + [now] else l.history)
  }

  /** logs[i] is the state after the first i calls. */
  ghost predicate IsRun(calls: seq<real>, logs: seq<Log>, limit: int, window: real) {
    && |logs| == |calls| + 1
    && logs[0] == Log([], [], [])
    && forall i :: 0 <= i < |calls| ==> logs[i + 1] == Step(logs[i], limit, window, calls[i])
  }

  /** Every call comes no more than skew before any earlier one. */
  ghost predicate NearlyOrdered(calls: seq<real>, skew: real) {
    forall i, j :: 0 <= i <= j < |calls| ==> calls[i] <= calls[j] + skew
  }

  ghost predicate InClockOrder(calls: seq<real>) {
    NearlyOrdered(calls, 0.0)
  }

  /** A call made when fewer than limit hits are left in the window. */
  lemma AdmitStep(l: Log, now: real, limit: int, window: real, kept: seq<real>)
    requires kept == After(l.stored, now - window) && |kept| < limit
    ensures Step(l, limit, window, now).stored == kept + [now]
    ensures Step(l, limit, window, now).admitted == l.admitted + [now]
  {
  }

  lemma AfterAppend(hits: seq<real>, x: real, cutoff: real)
    ensures After(hits + [x], cutoff) == if x > cutoff then After(hits, cutoff) + [x] else After(hits, cutoff)
  {
    assert (hits + [x])[..|hits|] == hits;
  }

  lemma {:induction false} AfterTwice(hits: seq<real>, a: real, b: real)
    requires a <= b
    ensures After(After(hits, a), b) == After(hits, b)
  {
    if hits != [] {
      var init, last := hits[..|hits| - 1], hits[|hits| - 1];
      AfterTwice(init, a, b);
      AfterAppend(After(init, a), last, b);
    }
  }

  lemma {:induction false} AfterIsNoLonger(hits: seq<real>, cutoff: real)
    ensures |After(hits, cutoff)| <= |hits|
  {
    if hits != [] {
      AfterIsNoLonger(hits[..|hits| - 1], cutoff);
    }
  }

  /** At time now, the list kept and the full history hold the same hits inside the window, and have admitted the same
      calls. */
  ghost predicate Agree(l: Log, window: real, now: real) {
    l.admitted == l.history && After(l.stored, now - window) == After(l.history, now - window)
  }

  lemma AgreeLater(l: Log, window: real, now: real, later: real)
    requires l.admitted == l.history && l.stored == After(l.history, now - window) && now <= later
    ensures Agree(l, window, later)
  {
    AfterTwice(l.history, now - window, later - window);
  }

  /** A call made while the two agree leaves the list equal to the recent part of the history. */
  lemma StepIsTheRecentHistory(l: Log, limit: int, window: real, now: real)
    requires Agree(l, window, now) && window > 0.0
    ensures var l' := Step(l, limit, window, now);
            l'.admitted == l'.history && l'.stored == After(l'.history, now - window)
  {
    AfterAppend(l.history, now, now - window);
  }

  lemma {:induction false} RunIsRecent(calls: seq<real>, logs: seq<Log>, limit: int, window: real, n: nat)
    requires IsRun(calls, logs, limit, window) && InClockOrder(calls) && window > 0.0 && 0 < n < |logs|
    ensures logs[n].admitted == logs[n].history && logs[n].stored == After(logs[n].history, calls[n - 1] - window)
  {
    if n > 1 {
      RunIsRecent(calls, logs, limit, window, n - 1);
      AgreeLater(logs[n - 1], window, calls[n - 2], calls[n - 1]);
    }
    StepIsTheRecentHistory(logs[n - 1], limit, window, calls[n - 1]);
  }

  /** For calls in clock order, what is stored is exactly the part of the full history still in the window. */
  lemma StoredIsTheRecentHistory(calls: seq<real>, logs: seq<Log>, limit: int, window: real, n: nat)
    requires IsRun(calls, logs, limit, window) && InClockOrder(calls) && window > 0.0 && 0 < n < |logs|
    ensures logs[n].stored == After(logs[n].history, calls[n - 1] - window)
  {
    RunIsRecent(calls, logs, limit, window, n);
  }

  /** The pruned list decides every call as the full history would. */
  lemma PruningIsInvisible(calls: seq<real>, logs: seq<Log>, limit: int, window: real, n: nat)
    requires IsRun(calls, logs, limit, window) && InClockOrder(calls) && window > 0.0 && n < |calls|
    ensures Admits(logs[n].stored, limit, window, calls[n]) <==> Admits(logs[n].history, limit, window, calls[n])
  {
    if n > 0 {
      RunIsRecent(calls, logs, limit, window, n);
      AgreeLater(logs[n], window, calls[n - 1], calls[n]);
    }
  }

  /** For calls in clock order the limiter admits exactly the calls that the full history would admit. */
  lemma AdmitsLikeTheHistory(calls: seq<real>, logs: seq<Log>, limit: int, window: real, n: nat)
    requires IsRun(calls, logs, limit, window) && InClockOrder(calls) && window > 0.0 && n < |logs|
    ensures logs[n].admitted == logs[n].history
  {
    if n > 0 {
      RunIsRecent(calls, logs, limit, window, n);
    }
  }

  lemma NextIsBounded(stored: seq<real>, limit: int, window: real, now: real)
    requires limit > 0 && |stored| <= limit
    ensures |Next(stored, limit, window, now)| <= limit
  {
    AfterIsNoLonger(stored, now - window);
  }

  lemma {:induction false} StoredIsBounded(calls: seq<real>, logs: seq<Log>, limit: int, window: real, n: nat)
    requires IsRun(calls, logs, limit, window) && limit > 0 && n < |logs|
    ensures |logs[n].stored| <= limit
  {
    if n > 0 {
      StoredIsBounded(calls, logs, limit, window, n - 1);
      NextIsBounded(logs[n - 1].stored, limit, window, calls[n - 1]);
    }
  }

  // ---- The promise: at most `limit` admitted calls in any window ----

  /** How many hits lie in the half-open interval [from, to). */
  function Between(hits: seq<real>, from: real, to: real): nat {
    if hits == [] then 0
    else Between(hits[..|hits| - 1], from, to) + if from <= hits[|hits| - 1] < to then 1 else 0
  }

  lemma BetweenAppend(hits: seq<real>, x: real, from: real, to: real)
    ensures Between(hits + [x], from, to) == Between(hits, from, to) + if from <= x < to then 1 else 0
  {
    assert (hits + [x])[..|hits|] == hits;
  }

  lemma {:induction false} BetweenIsRecent(hits: seq<real>, from: real, to: real, cutoff: real)
    requires cutoff < from
    ensures Between(hits, from, to) <= |After(hits, cutoff)|
  {
    if hits != [] {
      BetweenIsRecent(hits[..|hits| - 1], from, to, cutoff);
    }
  }

  lemma HistoryKeepsTheLimit(history: seq<real>, limit: int, window: real, now: real, from: real)
    requires Between(history, from, from + window) <= limit && Admits(history, limit, window, now)
    ensures Between(history + [now], from, from + window) <= limit
  {
    BetweenAppend(history, now, from, from + window);
    if from <= now < from + window {
      BetweenIsRecent(history, from, from + window, now - window);
    }
  }

  lemma {:induction false} ReferenceKeepsTheLimit(calls: seq<real>, logs: seq<Log>, limit: int, window: real, n: nat,
                                                  from: real)
    requires IsRun(calls, logs, limit, window) && limit > 0 && n < |logs|
    ensures Between(logs[n].history, from, from + window) <= limit
  {
    if n > 0 {
      ReferenceKeepsTheLimit(calls, logs, limit, window, n - 1, from);
      if Admits(logs[n - 1].history, limit, window, calls[n - 1]) {
        HistoryKeepsTheLimit(logs[n - 1].history, limit, window, calls[n - 1], from);
      }
    }
  }

  /** For calls in clock order, every half-open interval of one window's length holds at most `limit` of the calls that
      the limiter admitted. */
  lemma NoWindowExceedsTheLimit(calls: seq<real>, logs: seq<Log>, limit: int, window: real, n: nat, from: real)
    requires IsRun(calls, logs, limit, window) && InClockOrder(calls) && limit > 0 && window > 0.0 && n < |logs|
    ensures Between(logs[n].admitted, from, from + window) <= limit
  {
    AdmitsLikeTheHistory(calls, logs, limit, window, n);
    ReferenceKeepsTheLimit(calls, logs, limit, window, n, from);
  }

  // ---- Calls out of clock order ----

  /** Every two hits are a window apart. */
  ghost predicate Spaced(hits: seq<real>, window: real) {
    forall i, j :: 0 <= i < j < |hits| ==> hits[i] + window <= hits[j]
  }

  lemma {:induction false} NoneBetween(hits: seq<real>, from: real, to: real)
    requires forall i :: 0 <= i < |hits| ==> hits[i] < from
    ensures Between(hits, from, to) == 0
  {
    if hits != [] {
      NoneBetween(hits[..|hits| - 1], from, to);
    }
  }

  lemma {:induction false} SpacedBetween(hits: seq<real>, window: real, from: real)
    requires Spaced(hits, window)
    ensures Between(hits, from, from + window) <= 1
  {
    if hits != [] {
      var init, last := hits[..|hits| - 1], hits[|hits| - 1];
      if from <= last < from + window {
        NoneBetween(init, from, from + window);
      } else {
        SpacedBetween(init, window, from);
      }
    }
  }

  /** Under a limit of one the list is the last admitted call, and admitted calls are a window apart. */
  ghost predicate OneKept(l: Log, window: real) {
    && Spaced(l.admitted, window)
    && (if l.admitted == [] then l.stored == [] else l.stored == [l.admitted[|l.admitted| - 1]])
  }

  lemma AfterOne(x: real, cutoff: real)
    ensures After([x], cutoff) == if x > cutoff then [x] else []
  {
    AfterAppend([], x, cutoff);
    assert [] + [x] == [x];
  }

  lemma SpacedAppend(hits: seq<real>, window: real, now: real)
    requires Spaced(hits, window) && window > 0.0 && (hits != [] ==> hits[|hits| - 1] + window <= now)
    ensures Spaced(hits + [now], window)
  {
  }

  lemma StepKeepsOne(l: Log, window: real, now: real)
    requires OneKept(l, window) && window > 0.0
    ensures OneKept(Step(l, 1, window, now), window)
  {
    if l.admitted == [] {
      AdmitStep(l, now, 1, window, []);
    } else {
      var last := l.admitted[|l.admitted| - 1];
      AfterOne(last, now - window);
      if last <= now - window {
        AdmitStep(l, now, 1, window, []);
        SpacedAppend(l.admitted, window, now);
      }
    }
  }

  lemma {:induction false} RunKeepsOne(calls: seq<real>, logs: seq<Log>, window: real, n: nat)
    requires IsRun(calls, logs, 1, window) && window > 0.0 && n < |logs|
    ensures OneKept(logs[n], window)
  {
    if n > 0 {
      RunKeepsOne(calls, logs, window, n - 1);
      StepKeepsOne(logs[n - 1], window, calls[n - 1]);
    }
  }

  /** A run that goes on with an admitted call. */
  lemma AdmitNext(calls: seq<real>, logs: seq<Log>, limit: int, window: real, now: real, kept: seq<real>)
    returns (more: seq<Log>)
    requires IsRun(calls, logs, limit, window)
    requires kept == After(logs[|calls|].stored, now - window) && |kept| < limit
    ensures IsRun(calls + [now], more, limit, window)
    ensures more[|calls| + 1].stored == kept + [now] && more[|calls| + 1].admitted == logs[|calls|].admitted + [now]
  {
    more := logs + [Step(logs[|calls|], limit, window, now)];
    AdmitStep(logs[|calls|], now, limit, window, kept);
  }

  function Zeros(n: nat): seq<real> {
    seq(n, i => 0.0)
  }

  lemma MoreZeros(n: nat)
    ensures Zeros(n + 1) == Zeros(n) + [0.0]
  {
  }

  lemma {:induction false} AfterZeros(n: nat, cutoff: real)
    ensures After(Zeros(n), cutoff) == if cutoff < 0.0 then Zeros(n) else []
  {
    if n > 0 {
      AfterZeros(n - 1, cutoff);
      MoreZeros(n - 1);
      AfterAppend(Zeros(n - 1), 0.0, cutoff);
    }
  }

  lemma {:induction false} ZerosBetween(n: nat, window: real)
    requires window > 0.0
    ensures Between(Zeros(n), 0.0, window) == n
  {
    if n > 0 {
      ZerosBetween(n - 1, window);
      MoreZeros(n - 1);
      BetweenAppend(Zeros(n - 1), 0.0, 0.0, window);
    }
  }

  function ZeroLog(n: nat): Log {
    Log(Zeros(n), Zeros(n), Zeros(n))
  }

  lemma ZeroStep(n: nat, limit: int, window: real)
    requires n < limit && window > 0.0
    ensures Step(ZeroLog(n), limit, window, 0.0) == ZeroLog(n + 1)
  {
    var kept := After(Zeros(n), 0.0 - window);
    AfterZeros(n, 0.0 - window);
    assert kept == Zeros(n) && |kept| == n;
    MoreZeros(n);
  }

  lemma ZerosAreAdmitted(n: nat, limit: int, window: real) returns (logs: seq<Log>)
    requires n <= limit && window > 0.0
    ensures IsRun(Zeros(n), logs, limit, window) && logs[n] == ZeroLog(n)
  {
    logs := seq(n + 1, i requires 0 <= i => ZeroLog(i));
    forall i | 0 <= i < n ensures logs[i + 1] == Step(logs[i], limit, window, Zeros(n)[i]) {
      ZeroStep(i, limit, window);
    }
  }

  /** The whole limit at once, a call that prunes it as soon as it can, and a call dated back before that one. */
  function BackInTime(limit: nat, window: real, back: real): seq<real> {
    Zeros(limit) + [window] + [window - back]
  }

  lemma BackInTimeIsNearlyOrdered(limit: nat, window: real, back: real)
    requires 0.0 < back <= window
    ensures NearlyOrdered(BackInTime(limit, window, back), back)
  {
  }

  /** Going back in time by however little overruns every limit above one: all the calls are admitted. */
  lemma GoingBackOverruns(limit: nat, window: real, back: real) returns (logs: seq<Log>)
    requires limit >= 2 && 0.0 < back <= window
    ensures IsRun(BackInTime(limit, window, back), logs, limit, window)
    ensures Between(logs[|logs| - 1].admitted, 0.0, window) == limit + 1
  {
    var calls := Zeros(limit);
    logs := ZerosAreAdmitted(limit, limit, window);
    AfterZeros(limit, window - window);
    logs := AdmitNext(calls, logs, limit, window, window, []);
    AfterOne(window, window - back - window);
    assert [] + [window] == [window];
    logs := AdmitNext(calls + [window], logs, limit, window, window - back, [window]);
    OverrunCount(limit, window, back);
  }

  lemma OverrunCount(limit: nat, window: real, back: real)
    requires 0.0 < back <= window
    ensures Between(BackInTime(limit, window, back), 0.0, window) == limit + 1
  {
    ZerosBetween(limit, window);
    BetweenAppend(Zeros(limit), window, 0.0, window);
    BetweenAppend(Zeros(limit) + [window], window - back, 0.0, window);
  }

  /** In every state of every run of calls that go back by at most skew, the interval of one window's length that starts
      at from holds at most limit admitted calls. */
  ghost predicate KeepsLimit(limit: int, window: real, skew: real, from: real) {
    forall calls, logs: seq<Log>, n: nat ::
      IsRun(calls, logs, limit, window) && NearlyOrdered(calls, skew) && n < |logs| ==>
        Between(logs[n].admitted, from, from + window) <= limit
  }

  lemma OneIsKept(window: real, skew: real, from: real)
    requires window > 0.0
    ensures KeepsLimit(1, window, skew, from)
  {
    forall calls, logs: seq<Log>, n: nat | IsRun(calls, logs, 1, window) && n < |logs|
      ensures Between(logs[n].admitted, from, from + window) <= 1
    {
      RunKeepsOne(calls, logs, window, n);
      SpacedBetween(logs[n].admitted, window, from);
    }
  }

  lemma OrderIsEnough(limit: int, window: real, from: real)
    requires limit > 0 && window > 0.0
    ensures KeepsLimit(limit, window, 0.0, from)
  {
    forall calls, logs: seq<Log>, n: nat | IsRun(calls, logs, limit, window) && InClockOrder(calls) && n < |logs|
      ensures Between(logs[n].admitted, from, from + window) <= limit
    {
      NoWindowExceedsTheLimit(calls, logs, limit, window, n, from);
    }
  }

  /** Clocks that go back by at most skew keep the limit in every window if and only if the limit is one or they do not
      go back at all. */
  lemma LimitIsKeptIffInOrder(limit: int, window: real, skew: real)
    requires limit > 0 && window > 0.0 && skew >= 0.0
    ensures (forall from :: KeepsLimit(limit, window, skew, from)) <==> limit == 1 || skew == 0.0
  {
    if limit == 1 {
      forall from ensures KeepsLimit(limit, window, skew, from) {
        OneIsKept(window, skew, from);
      }
    } else if skew == 0.0 {
      forall from ensures KeepsLimit(limit, window, skew, from) {
        OrderIsEnough(limit, window, from);
      }
    } else {
      var back := if skew < window then skew else window;
      var logs := GoingBackOverruns(limit, window, back);
      BackInTimeIsNearlyOrdered(limit, window, back);
      assert NearlyOrdered(BackInTime(limit, window, back), skew);
      assert !KeepsLimit(limit, window, skew, 0.0);
    }
  }
}
