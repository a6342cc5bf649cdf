/** Whole traces of quota calls: purging is invisible, each window admits exactly its limit, and so every interval of
    time admits boundedly many requests. */
module QuotaRuns {
  import opened Common
  import opened Quota

  /** Statements in the order the store executes them: a request of some replica, or an opportunistic purge. */
  datatype Op = Hit(subject: Subject, at: int) | Purge(at: int)

  ghost predicate InClockOrder(ops: seq<Op>) {
    forall i, j :: 0 <= i <= j < |ops| ==> ops[i].at <= ops[j].at
  }

  /** A store purges only within a call, right after that call's own request. */
  ghost predicate PurgesFollowHits(ops: seq<Op>) {
    forall i :: 0 <= i < |ops| && ops[i].Purge? ==> i > 0 && ops[i - 1].Hit?
  }

  predicate HitsWindow(op: Op, s: Subject, w: int, window: int)
    requires window >= 1
  {
    op.Hit? && op.subject == s && WindowOf(op.at, window) == w
  }

  /** The reference: how many of the operations are requests of s in window w. */
  function Requests(ops: seq<Op>, s: Subject, w: int, window: int): nat
    requires window >= 1
  {
    if ops == [] then 0
    else Requests(ops[..|ops| - 1], s, w, window) + if HitsWindow(ops[|ops| - 1], s, w, window) then 1 else 0
  }

  /** The in-memory counters after a trace. */
  function MemoryAfter(ops: seq<Op>, window: int): Counters
    requires window >= 1
  {
    if ops == [] then map[]
    else
      var c, op := MemoryAfter(ops[..|ops| - 1], window), ops[|ops| - 1];
      if op.Hit? then MemoryIncr(c, op.subject, WindowOf(op.at, window)) else c
  }

  function TableStep(rows: Counters, op: Op, window: int): Counters
    requires window >= 1
  {
    match op
    case Hit(s, at) => TableIncr(rows, s, at, window)
    case Purge(at) => PurgeIn(rows, at)
  }

  /** The rows of the table after a trace. */
  function TableAfter(ops: seq<Op>, window: int): Counters
    requires window >= 1
  {
    if ops == [] then map[] else TableStep(TableAfter(ops[..|ops| - 1], window), ops[|ops| - 1], window)
  }

  /** The last operation is a request. */
  predicate EndsInHit(ops: seq<Op>) {
    ops != [] && ops[|ops| - 1].Hit?
  }

  /** What is counted for the last operation, if it is a request, by the shared table, */
  function TableCount(ops: seq<Op>, window: int): int
    requires window >= 1
  {
    if EndsInHit(ops) then
      var init, op := ops[..|ops| - 1], ops[|ops| - 1];
      CountIn(TableAfter(init, window), (op.subject, StartOf(op.at, window))) + 1
    else 0
  }

  /** by the in-memory store, */
  function MemoryCount(ops: seq<Op>, window: int): int
    requires window >= 1
  {
    if EndsInHit(ops) then
      var init, op := ops[..|ops| - 1], ops[|ops| - 1];
      CountIn(MemoryAfter(init, window), (op.subject, WindowOf(op.at, window))) + 1
    else 0
  }

  /** and by a counter that is never purged. */
  function FullCount(ops: seq<Op>, window: int): int
    requires window >= 1
  {
    if EndsInHit(ops) then
      var op := ops[|ops| - 1];
      Requests(ops, op.subject, WindowOf(op.at, window), window)
    else 0
  }

  datatype Judge = Table | Memory | Unpurged

  function CounterOf(judge: Judge, window: int): seq<Op> -> int
    requires window >= 1
  {
    match judge
    case Table => (ops => TableCount(ops, window))
    case Memory => (ops => MemoryCount(ops, window))
    case Unpurged => (ops => FullCount(ops, window))
  }

  /** The answer to the last operation, a request. */
  function VerdictOf(judge: Judge, ops: seq<Op>, limit: int, window: int): Verdict
    requires window >= 1 && EndsInHit(ops)
  {
    var n := CounterOf(judge, window)(ops);
    Verdict(n <= limit, n, RetryAfter(ops[|ops| - 1].at, window))
  }

  // ---- The in-memory store ----

  /** Counters of windows that are not over are exact. */
  lemma {:induction false} MemoryCountsOpenWindows(ops: seq<Op>, window: int, s: Subject, w: int)
    requires window >= 1 && InClockOrder(ops)
    requires ops != [] ==> w >= WindowOf(ops[|ops| - 1].at, window)
    ensures CountIn(MemoryAfter(ops, window), (s, w)) == Requests(ops, s, w, window)
  {
    if ops != [] {
      var init := ops[..|ops| - 1];
      if init != [] {
        DivMonotone(init[|init| - 1].at, ops[|ops| - 1].at, Span(window));
      }
      MemoryCountsOpenWindows(init, window, s, w);
    }
  }

  /** For calls in clock order the in-memory store answers exactly like a counter that is never purged. */
  lemma MemoryPurgeIsInvisible(ops: seq<Op>, limit: int, window: int)
    requires window >= 1 && InClockOrder(ops) && EndsInHit(ops)
    ensures VerdictOf(Memory, ops, limit, window) == VerdictOf(Unpurged, ops, limit, window)
  {
    var init, op := ops[..|ops| - 1], ops[|ops| - 1];
    if init != [] {
      DivMonotone(init[|init| - 1].at, op.at, Span(window));
    }
    MemoryCountsOpenWindows(init, window, op.subject, WindowOf(op.at, window));
  }

  // ---- The Postgres store ----

  lemma StartsDiffer(a: int, b: int, window: int)
    requires window >= 1
    ensures a * Span(window) == b * Span(window) <==> a == b
  {
    MultiplesApart(Span(window), a, b);
    MultiplesApart(Span(window), b, a);
  }

  /** A window that is not over started less than its own length ago, so within the retention. */
  lemma OpenWindowIsRetained(at: int, w: int, window: int)
    requires 1 <= window <= 3600 && w >= WindowOf(at, window)
    ensures w * Span(window) > at - RETENTION
  {
    DivBounds(at, Span(window));
    MultiplesApart(Span(window), w, WindowOf(at, window));
  }

  lemma {:induction false} TableCountsOpenWindows(ops: seq<Op>, window: int, s: Subject, w: int)
    requires 1 <= window <= 3600 && InClockOrder(ops)
    requires ops != [] ==> w >= WindowOf(ops[|ops| - 1].at, window)
    ensures CountIn(TableAfter(ops, window), (s, w * Span(window))) == Requests(ops, s, w, window)
  {
    if ops != [] {
      var init, op := ops[..|ops| - 1], ops[|ops| - 1];
      if init != [] {
        DivMonotone(init[|init| - 1].at, op.at, Span(window));
      }
      TableCountsOpenWindows(init, window, s, w);
      StartsDiffer(w, WindowOf(op.at, window), window);
      OpenWindowIsRetained(op.at, w, window);
    }
  }

  ghost predicate TableAgrees(ops: seq<Op>, limit: int, window: int)
    requires window >= 1
  {
    InClockOrder(ops) && EndsInHit(ops) ==>
      VerdictOf(Table, ops, limit, window) == VerdictOf(Unpurged, ops, limit, window)
  }

  lemma TablePurgeIsInvisible(ops: seq<Op>, limit: int, window: int)
    requires 1 <= window <= 3600
    ensures TableAgrees(ops, limit, window)
  {
    if InClockOrder(ops) && EndsInHit(ops) {
      var init, op := ops[..|ops| - 1], ops[|ops| - 1];
      if init != [] {
        DivMonotone(init[|init| - 1].at, op.at, Span(window));
      }
      TableCountsOpenWindows(init, window, op.subject, WindowOf(op.at, window));
    }
  }

  lemma TableAppend(ops: seq<Op>, op: Op, window: int)
    requires window >= 1
    ensures TableAfter(ops + [op], window) == TableStep(TableAfter(ops, window), op, window)
    ensures op.Hit? ==>
              TableCount(ops + [op], window)
              == CountIn(TableAfter(ops, window), (op.subject, StartOf(op.at, window))) + 1
  {
    assert (ops + [op])[..|ops|] == ops;
  }

  lemma RequestsAppend(ops: seq<Op>, op: Op, s: Subject, w: int, window: int)
    requires window >= 1
    ensures Requests(ops + [op], s, w, window)
            == Requests(ops, s, w, window) + if HitsWindow(op, s, w, window) then 1 else 0
  {
    assert (ops + [op])[..|ops|] == ops;
  }

  /** Somebody else's call purges one hour into a longer window, which is still open. */
  function Forgetting(): seq<Op> {
    [Hit("u", 0)] + [Hit("v", RETENTION + 1)] + [Purge(RETENTION + 1)] + [Hit("u", RETENTION + 1)]
  }

  lemma ForgettingTimes(window: int)
    requires window > 3600
    ensures WindowOf(0, window) == 0 && WindowOf(RETENTION + 1, window) == 0
  {
    DivUnique(0, Span(window), 0);
    DivUnique(RETENTION + 1, Span(window), 0);
  }

  lemma ForgettingCounts(window: int)
    requires window > 3600
    ensures TableCount(Forgetting(), window) == 1 && FullCount(Forgetting(), window) == 2
  {
    var a, b, c := Hit("u", 0), Hit("v", RETENTION + 1), Purge(RETENTION + 1);
    ForgettingTimes(window);
    TableAppend([a] + [b], c, window);
    TableAppend([a] + [b] + [c], Hit("u", RETENTION + 1), window);
    RequestsAppend([], a, "u", 0, window);
    RequestsAppend([a], b, "u", 0, window);
    RequestsAppend([a] + [b], c, "u", 0, window);
    RequestsAppend([a] + [b] + [c], Hit("u", RETENTION + 1), "u", 0, window);
    assert [] + [a] == [a];
  }

  /** The window that is still open is forgotten: the next request is counted as its first. */
  lemma LongWindowIsForgotten(limit: int, window: int)
    requires window > 3600
    ensures PurgesFollowHits(Forgetting()) && !TableAgrees(Forgetting(), limit, window)
  {
    ForgettingCounts(window);
  }

  /** The purge of the table is invisible on every trace exactly when the window is at most an hour. */
  lemma PurgeIsInvisibleIffWithinTheHour(limit: int, window: int)
    requires window >= 1
    ensures (forall ops :: PurgesFollowHits(ops) ==> TableAgrees(ops, limit, window)) <==> window <= 3600
  {
    if window <= 3600 {
      forall ops ensures TableAgrees(ops, limit, window) {
        TablePurgeIsInvisible(ops, limit, window);
      }
    } else {
      LongWindowIsForgotten(limit, window);
    }
  }

  // ---- How many requests are admitted ----

  /** Requests of s admitted, because they were counted within the limit, in the half-open interval of time from `from`
      to `from + length`. */
  function Admitted(count: seq<Op> -> int, ops: seq<Op>, s: Subject, from: int, length: int, limit: int): nat {
    if ops == [] then 0
    else
      var op := ops[|ops| - 1];
      Admitted(count, ops[..|ops| - 1], s, from, length, limit) +
      if op.Hit? && op.subject == s && from <= op.at < from + length && count(ops) <= limit then 1 else 0
  }

  /** Windows for which the judge's purge is invisible. */
  predicate Trusted(judge: Judge, window: int) {
    window >= 1 && (judge.Table? ==> window <= 3600)
  }

  /** On traces in clock order the stores admit the requests that the counter never purged would admit. */
  lemma {:induction false} StoresAdmitAlike(judge: Judge, ops: seq<Op>, s: Subject, from: int, length: int, limit: int,
                                            window: int)
    requires Trusted(judge, window) && InClockOrder(ops)
    ensures Admitted(CounterOf(judge, window), ops, s, from, length, limit) ==
            Admitted(CounterOf(Unpurged, window), ops, s, from, length, limit)
  {
    if ops != [] {
      StoresAdmitAlike(judge, ops[..|ops| - 1], s, from, length, limit, window);
      if ops[|ops| - 1].Hit? {
        match judge
        case Table => TablePurgeIsInvisible(ops, limit, window);
        case Memory => MemoryPurgeIsInvisible(ops, limit, window);
        case Unpurged =>
      }
    }
  }

  lemma WindowBounds(at: int, w: int, window: int)
    requires window >= 1
    ensures w * Span(window) <= at < w * Span(window) + Span(window) <==> WindowOf(at, window) == w
  {
    var d := Span(window);
    assert d * w == w * d;
    DivBounds(at, d);
    if d * w <= at < d * w + d {
      DivUnique(at, d, w);
    }
  }

  lemma {:induction false} ReferenceAdmitsItsLimit(ops: seq<Op>, s: Subject, w: int, limit: int, window: int)
    requires window >= 1 && limit >= 0
    ensures Admitted(CounterOf(Unpurged, window), ops, s, w * Span(window), Span(window), limit)
            == Min(Requests(ops, s, w, window), limit)
  {
    if ops != [] {
      ReferenceAdmitsItsLimit(ops[..|ops| - 1], s, w, limit, window);
      WindowBounds(ops[|ops| - 1].at, w, window);
    }
  }

  /** Of the n requests a subject makes in one window, over all replicas, either store admits exactly min(n, limit). */
  lemma WindowAdmitsItsLimit(judge: Judge, ops: seq<Op>, s: Subject, w: int, limit: int, window: int)
    requires Trusted(judge, window) && InClockOrder(ops) && limit >= 0
    ensures Admitted(CounterOf(judge, window), ops, s, w * Span(window), Span(window), limit)
            == Min(Requests(ops, s, w, window), limit)
  {
    StoresAdmitAlike(judge, ops, s, w * Span(window), Span(window), limit, window);
    ReferenceAdmitsItsLimit(ops, s, w, limit, window);
  }

  lemma {:induction false} AdmittedSplits(count: seq<Op> -> int, ops: seq<Op>, s: Subject, from: int, a: nat, b: nat,
                                          limit: int)
    ensures Admitted(count, ops, s, from, a + b, limit)
            == Admitted(count, ops, s, from, a, limit) + Admitted(count, ops, s, from + a, b, limit)
  {
    if ops != [] {
      AdmittedSplits(count, ops[..|ops| - 1], s, from, a, b, limit);
    }
  }

  lemma LastWindow(lo: int, n: nat, d: nat)
    requires n > 0
    ensures (n - 1) * d >= 0 && n * d == (n - 1) * d + d && (lo + n - 1) * d == lo * d + (n - 1) * d
  {
  }

  lemma {:induction false} WindowsAdmitTheirLimits(judge: Judge, ops: seq<Op>, s: Subject, lo: int, n: nat, limit: int,
                                                   window: int)
    requires Trusted(judge, window) && InClockOrder(ops) && limit >= 0
    ensures Admitted(CounterOf(judge, window), ops, s, lo * Span(window), n * Span(window), limit) <= n * limit
  {
    var from, d := lo * Span(window), Span(window);
    if n == 0 {
      AdmittedSplits(CounterOf(judge, window), ops, s, from, 0, 0, limit);
    } else {
      LastWindow(lo, n, d);
      LastWindow(0, n, limit);
      AdmittedSplits(CounterOf(judge, window), ops, s, from, (n - 1) * d, d, limit);
      WindowsAdmitTheirLimits(judge, ops, s, lo, n - 1, limit, window);
      WindowAdmitsItsLimit(judge, ops, s, lo + n - 1, limit, window);
    }
  }

  /** A longer interval admits no fewer requests. */
  lemma {:induction false} AdmittedGrows(count: seq<Op> -> int, ops: seq<Op>, s: Subject, from: int, length: int,
                                         from': int, length': int, limit: int)
    requires from' <= from && from + length <= from' + length'
    ensures Admitted(count, ops, s, from, length, limit) <= Admitted(count, ops, s, from', length', limit)
  {
    if ops != [] {
      AdmittedGrows(count, ops[..|ops| - 1], s, from, length, from', length', limit);
    }
  }

  /** An interval touches at most ceil(length / window) + 1 windows. */
  lemma WindowsTouched(from: int, length: int, window: int)
    requires window >= 1 && length >= 0
    ensures var d, n := Span(window), CeilDiv(length, Span(window)) + 1;
            n >= 1 && WindowOf(from, window) * d <= from && from + length <= WindowOf(from, window) * d + n * d
  {
    var d := Span(window);
    var a, c := from / d, (length + d - 1) / d;
    DivBounds(from, d);
    DivBounds(length + d - 1, d);
    assert d * a == a * d && d * c == c * d && (c + 1) * d == c * d + d;
    DivMonotone(0, length + d - 1, d);
    DivUnique(0, d, 0);
  }

  ghost predicate IntervalBounded(judge: Judge, ops: seq<Op>, s: Subject, from: int, length: int, limit: int,
                                  window: int)
    requires window >= 1
  {
    Admitted(CounterOf(judge, window), ops, s, from, length, limit) <= (CeilDiv(length, Span(window)) + 1) * limit
  }

  /** In any interval of time either store admits at most (ceil(length / window) + 1) * limit requests of one
      subject. */
  lemma IntervalIsBounded(judge: Judge, ops: seq<Op>, s: Subject, from: int, length: nat, limit: int, window: int)
    requires Trusted(judge, window) && InClockOrder(ops) && limit >= 0
    ensures IntervalBounded(judge, ops, s, from, length, limit, window)
  {
    var lo, n, d := WindowOf(from, window), CeilDiv(length, Span(window)) + 1, Span(window);
    WindowsTouched(from, length, window);
    AdmittedGrows(CounterOf(judge, window), ops, s, from, length, lo * d, n * d, limit);
    WindowsAdmitTheirLimits(judge, ops, s, lo, n, limit, window);
  }

  // ---- Longer windows: the table admits too many ----

  /** n more requests of s at one time. */
  function Flood(ops: seq<Op>, s: Subject, at: int, n: nat): seq<Op> {
    if n == 0 then ops else Flood(ops, s, at, n - 1) + [Hit(s, at)]
  }

  /** The trace is in order, up to time at. */
  ghost predicate InOrderTo(ops: seq<Op>, at: int) {
    InClockOrder(ops) && PurgesFollowHits(ops) && (ops != [] ==> ops[|ops| - 1].at <= at)
  }

  lemma AppendKeepsOrder(ops: seq<Op>, op: Op)
    requires InOrderTo(ops, op.at) && (op.Purge? ==> EndsInHit(ops))
    ensures InOrderTo(ops + [op], op.at)
  {
  }

  lemma {:induction false} FloodKeepsOrder(ops: seq<Op>, s: Subject, at: int, n: nat)
    requires InOrderTo(ops, at)
    ensures InOrderTo(Flood(ops, s, at, n), at)
  {
    if n > 0 {
      FloodKeepsOrder(ops, s, at, n - 1);
      AppendKeepsOrder(Flood(ops, s, at, n - 1), Hit(s, at));
    }
  }

  lemma AdmittedAppend(count: seq<Op> -> int, ops: seq<Op>, op: Op, s: Subject, from: int, length: int, limit: int)
    ensures var counts := op.Hit? && op.subject == s && from <= op.at < from + length;
            Admitted(count, ops + [op], s, from, length, limit)
            == Admitted(count, ops, s, from, length, limit)
               + if counts && count(ops + [op]) <= limit then 1 else 0
  {
    assert (ops + [op])[..|ops|] == ops;
  }

  /** The flood is counted in its window, and no other counter is touched. */
  lemma {:induction false} FloodIsCounted(ops: seq<Op>, s: Subject, at: int, n: nat, start: int, window: int)
    requires window >= 1
    ensures CountIn(TableAfter(Flood(ops, s, at, n), window), (s, start))
            == CountIn(TableAfter(ops, window), (s, start)) + if start == StartOf(at, window) then n else 0
  {
    if n > 0 {
      FloodIsCounted(ops, s, at, n - 1, start, window);
      TableAppend(Flood(ops, s, at, n - 1), Hit(s, at), window);
    }
  }

  lemma {:induction false} FloodIsAdmittedBy(count: seq<Op> -> int, ops: seq<Op>, s: Subject, at: int, n: nat,
                                             from: int, length: int, limit: int)
    requires forall m: nat :: 1 <= m <= n ==> count(Flood(ops, s, at, m)) <= limit
    ensures Admitted(count, Flood(ops, s, at, n), s, from, length, limit)
            == Admitted(count, ops, s, from, length, limit) + if from <= at < from + length then n else 0
  {
    if n > 0 {
      FloodIsAdmittedBy(count, ops, s, at, n - 1, from, length, limit);
      AdmittedAppend(count, Flood(ops, s, at, n - 1), Hit(s, at), s, from, length, limit);
      assert count(Flood(ops, s, at, n)) <= limit;
    }
  }

  lemma FloodCount(ops: seq<Op>, s: Subject, at: int, n: nat, window: int)
    requires window >= 1 && n >= 1 && CountIn(TableAfter(ops, window), (s, StartOf(at, window))) == 0
    ensures TableCount(Flood(ops, s, at, n), window) == n
  {
    FloodIsCounted(ops, s, at, n - 1, StartOf(at, window), window);
    TableAppend(Flood(ops, s, at, n - 1), Hit(s, at), window);
  }

  /** A window not yet counted takes the whole flood. */
  lemma FloodIsAdmitted(ops: seq<Op>, s: Subject, at: int, n: nat, from: int, length: int, limit: int, window: int)
    requires window >= 1 && n <= limit && CountIn(TableAfter(ops, window), (s, StartOf(at, window))) == 0
    ensures Admitted(CounterOf(Table, window), Flood(ops, s, at, n), s, from, length, limit)
            == Admitted(CounterOf(Table, window), ops, s, from, length, limit)
               + if from <= at < from + length then n else 0
  {
    var count := CounterOf(Table, window);
    forall m: nat | 1 <= m <= n ensures count(Flood(ops, s, at, m)) <= limit {
      FloodCount(ops, s, at, m, window);
    }
    FloodIsAdmittedBy(count, ops, s, at, n, from, length, limit);
  }

  /** Limit requests just before a window opens, and as many when it opens. */
  function Prelude(limit: nat, window: int): seq<Op> {
    Flood(Flood([], "u", Span(window) - 1, limit), "u", Span(window), limit)
  }

  /** Then one more request, after somebody else's call purged in mid-window. */
  function Overrun(limit: nat, window: int): seq<Op> {
    var later := Span(window) + RETENTION + 1;
    Prelude(limit, window) + [Hit("v", later)] + [Purge(later)] + [Hit("u", later)]
  }

  lemma OverrunTimes(window: int)
    requires window > 3600
    ensures var d := Span(window);
            && d >= RETENTION + TICKS_PER_SECOND
            && StartOf(d - 1, window) == 0 && StartOf(d, window) == d && StartOf(d + RETENTION + 1, window) == d
  {
    var d := Span(window);
    DivUnique(d - 1, d, 0);
    DivUnique(d, d, 1);
    DivUnique(d + RETENTION + 1, d, 1);
  }

  lemma OverrunInOrder(limit: nat, window: int)
    ensures InClockOrder(Overrun(limit, window)) && PurgesFollowHits(Overrun(limit, window))
  {
    var d, ops := Span(window), Prelude(limit, window);
    FloodKeepsOrder([], "u", d - 1, limit);
    FloodKeepsOrder(Flood([], "u", d - 1, limit), "u", d, limit);
    var later := d + RETENTION + 1;
    AppendKeepsOrder(ops, Hit("v", later));
    AppendKeepsOrder(ops + [Hit("v", later)], Purge(later));
    AppendKeepsOrder(ops + [Hit("v", later)] + [Purge(later)], Hit("u", later));
  }

  lemma WindowOpensUncounted(limit: nat, window: int)
    requires window > 3600
    ensures var d := Span(window);
            CountIn(TableAfter(Flood([], "u", d - 1, limit), window), ("u", StartOf(d, window))) == 0
  {
    var d := Span(window);
    OverrunTimes(window);
    FloodIsCounted([], "u", d - 1, limit, d, window);
  }

  lemma PreludeIsAdmitted(limit: nat, window: int, from: int, length: int)
    requires window > 3600
    ensures var d := Span(window);
            Admitted(CounterOf(Table, window), Prelude(limit, window), "u", from, length, limit)
            == (if from <= d - 1 < from + length then limit else 0) + if from <= d < from + length then limit else 0
  {
    var d := Span(window);
    FloodIsAdmitted([], "u", d - 1, limit, from, length, limit, window);
    WindowOpensUncounted(limit, window);
    FloodIsAdmitted(Flood([], "u", d - 1, limit), "u", d, limit, from, length, limit, window);
  }

  /** The purge forgets the window that is open, so the table admits one more request in it. */
  lemma PurgeReopens(ops: seq<Op>, at: int, from: int, length: int, limit: int, window: int)
    requires window >= 1 && limit >= 1 && StartOf(at, window) < at - RETENTION
    ensures Admitted(CounterOf(Table, window), ops + [Hit("v", at)] + [Purge(at)] + [Hit("u", at)], "u", from, length,
                     limit)
            == Admitted(CounterOf(Table, window), ops, "u", from, length, limit)
               + if from <= at < from + length then 1 else 0
  {
    var count, more := CounterOf(Table, window), ops + [Hit("v", at)];
    TableAppend(more, Purge(at), window);
    TableAppend(more + [Purge(at)], Hit("u", at), window);
    AdmittedAppend(count, ops, Hit("v", at), "u", from, length, limit);
    AdmittedAppend(count, more, Purge(at), "u", from, length, limit);
    AdmittedAppend(count, more + [Purge(at)], Hit("u", at), "u", from, length, limit);
  }

  ghost predicate ExactPerWindow(ops: seq<Op>, s: Subject, w: int, limit: int, window: int)
    requires window >= 1
  {
    Admitted(CounterOf(Table, window), ops, s, w * Span(window), Span(window), limit)
    == Min(Requests(ops, s, w, window), limit)
  }

  /** The table admits exactly min(n, limit) in every window of every trace if and only if the window is at most an
      hour; a limit of zero or less never reaches the store. */
  lemma TableIsExactIffWithinTheHour(limit: int, window: int)
    requires window >= 1 && limit >= 1
    ensures (forall ops, s, w :: InClockOrder(ops) && PurgesFollowHits(ops) ==>
               ExactPerWindow(ops, s, w, limit, window)) <==> window <= 3600
  {
    if window <= 3600 {
      forall ops, s, w | InClockOrder(ops) ensures ExactPerWindow(ops, s, w, limit, window) {
        WindowAdmitsItsLimit(Table, ops, s, w, limit, window);
      }
    } else {
      var d := Span(window);
      OverrunTimes(window);
      assert 1 * d == d;
      OverrunInOrder(limit, window);
      PreludeIsAdmitted(limit, window, d, d);
      PurgeReopens(Prelude(limit, window), d + RETENTION + 1, d, d, limit, window);
      assert !ExactPerWindow(Overrun(limit, window), "u", 1, limit, window);
    }
  }

  /** So does the bound on intervals: it holds for the table if and only if the window is at most an hour. */
  lemma IntervalsAreBoundedIffWithinTheHour(limit: int, window: int)
    requires window >= 1 && limit >= 1
    ensures (forall ops, s, from, length: nat :: InClockOrder(ops) && PurgesFollowHits(ops) ==>
               IntervalBounded(Table, ops, s, from, length, limit, window)) <==> window <= 3600
  {
    if window <= 3600 {
      forall ops, s, from, length: nat | InClockOrder(ops)
        ensures IntervalBounded(Table, ops, s, from, length, limit, window)
      {
        IntervalIsBounded(Table, ops, s, from, length, limit, window);
      }
    } else {
      var d := Span(window);
      OverrunTimes(window);
      OverrunInOrder(limit, window);
      PreludeIsAdmitted(limit, window, d - 1, RETENTION + 3);
      PurgeReopens(Prelude(limit, window), d + RETENTION + 1, d - 1, RETENTION + 3, limit, window);
      DivUnique(RETENTION + 3 + d - 1, d, 1);
      assert !IntervalBounded(Table, Overrun(limit, window), "u", d - 1, RETENTION + 3, limit, window);
    }
  }
}
