/** Fixed-window quotas: the Postgres store shared by all replicas, the in-memory fallback, and both against a
    counter that never forgets anything. Times count microseconds. */
module Quota {
  import opened Common

  const RETENTION := 3600 * TICKS_PER_SECOND
  const PURGE_INTERVAL := 60 * TICKS_PER_SECOND

  type Subject = string

  function Span(window: int): int {
    window * TICKS_PER_SECOND
  }

  function WindowOf(at: int, window: int): int
    requires window >= 1
  {
    at / Span(window)
  }

  function CeilDiv(a: int, b: int): int
    requires b > 0
  {
    (a + b - 1) / b
  }

  function RetryAfter(at: int, window: int): int
    requires window >= 1
  {
    Max(1, CeilDiv((WindowOf(at, window) + 1) * Span(window) - at, TICKS_PER_SECOND))
  }

  datatype Verdict = Verdict(allowed: bool, count: int, retryAfter: int)

  // ---- Arithmetic of windows ----

  lemma DivBounds(x: int, d: int)
    requires d > 0
    ensures d * (x / d) <= x < d * (x / d) + d
  {
  }

  /** Distinct multiples of d are at least d apart. */
  lemma {:induction false} MultiplesApart(d: int, a: int, b: int)
    requires d > 0
    ensures a > b ==> d * a >= d * b + d
    decreases a - b
  {
    if a > b {
      assert d * a == d * (a - 1) + d;
      MultiplesApart(d, a - 1, b);
    }
  }

  lemma DivUnique(x: int, d: int, q: int)
    requires d > 0 && d * q <= x < d * q + d
    ensures x / d == q
  {
    DivBounds(x, d);
    MultiplesApart(d, q, x / d);
    MultiplesApart(d, x / d, q);
  }

  lemma DivMonotone(x: int, y: int, d: int)
    requires d > 0 && x <= y
    ensures x / d <= y / d
  {
    DivBounds(x, d);
    DivBounds(y, d);
    MultiplesApart(d, x / d, y / d);
  }

  /** Waiting retryAfter seconds reaches the next window; waiting any fewer whole seconds does not. */
  lemma RetryAfterIsLeast(at: int, window: int)
    requires window >= 1
    ensures 1 <= RetryAfter(at, window) <= window
    ensures WindowOf(at + RetryAfter(at, window) * TICKS_PER_SECOND, window) == WindowOf(at, window) + 1
    ensures forall s :: 0 <= s < RetryAfter(at, window) ==>
              WindowOf(at + s * TICKS_PER_SECOND, window) == WindowOf(at, window)
  {
    var w, span := WindowOf(at, window), Span(window);
    DivBounds(at, span);
    assert (w + 1) * span == span * w + span;
    var left := (w + 1) * span - at;
    assert 1 <= left <= span;
    var r := CeilDiv(left, TICKS_PER_SECOND);
    assert (r - 1) * TICKS_PER_SECOND < left <= r * TICKS_PER_SECOND;
    assert r * TICKS_PER_SECOND < left + TICKS_PER_SECOND <= (window + 1) * TICKS_PER_SECOND;
    assert 1 <= r <= window;
    assert span * (w + 1) == (w + 1) * span;
    DivUnique(at + r * TICKS_PER_SECOND, span, w + 1);
    forall s | 0 <= s < r ensures WindowOf(at + s * TICKS_PER_SECOND, window) == w {
      assert s * TICKS_PER_SECOND <= (r - 1) * TICKS_PER_SECOND;
      DivUnique(at + s * TICKS_PER_SECOND, span, w);
    }
  }

  // ---- The two stores ----

  /** Counters by subject and window index (in memory) or window start (in the table). */
  type Counters = map<(Subject, int), int>

  function CountIn(c: Counters, k: (Subject, int)): int {
    if k in c then c[k] else 0
  }

  function Increment(c: Counters, k: (Subject, int)): Counters {
    c[k := CountIn(c, k) + 1]
  }

  function MemoryIncr(c: Counters, s: Subject, w: int): Counters {
    map k | k in Increment(c, (s, w)) && !(k.0 == s && k.1 < w) :: Increment(c, (s, w))[k]
  }

  function StartOf(at: int, window: int): int
    requires window >= 1
  {
    WindowOf(at, window) * Span(window)
  }

  function TableIncr(c: Counters, s: Subject, at: int, window: int): Counters
    requires window >= 1
  {
    Increment(c, (s, StartOf(at, window)))
  }

  function PurgeIn(c: Counters, at: int): Counters {
    map k | k in c && k.1 >= at - RETENTION :: c[k]
  }

  class MemoryQuotaStore {
    var counters: Counters

    constructor ()
      ensures counters == map[]
    {
      counters := map[];
    }

    method Incr(s: Subject, limit: int, window: int, now: int) returns (v: Verdict)
      requires window >= 1
      modifies this
      ensures counters == MemoryIncr(old(counters), s, WindowOf(now, window))
      ensures forall k :: k in counters && k.0 == s ==> k.1 >= WindowOf(now, window)
      ensures forall k: (Subject, int) :: k.0 != s || k.1 > WindowOf(now, window) ==>
                (k in counters <==> k in old(counters)) && (k in counters ==> counters[k] == old(counters)[k])
      ensures v.count == CountIn(old(counters), (s, WindowOf(now, window))) + 1
      ensures v == Verdict(v.count <= limit, v.count, RetryAfter(now, window))
    {
      var w := WindowOf(now, window);
      counters := counters[(s, w) := CountIn(counters, (s, w)) + 1];
      var count := counters[(s, w)];
      var stale := set k | k in counters && k.0 == s && k.1 < w;
      ghost var all := counters;
      ghost var gone: set<(Subject, int)> := {};
      while stale != {}
        invariant counters == map k | k in all && k !in gone :: all[k]
        invariant gone + stale == set k | k in all && k.0 == s && k.1 < w
        decreases stale
      {
        var k :| k in stale;
        counters := counters - {k};
        gone, stale := gone + {k}, stale - {k};
      }
      v := Verdict(count <= limit, count, RetryAfter(now, window));
    }
  }

  class QuotaTable {
    var rows: Counters

    constructor ()
      ensures rows == map[]
    {
      rows := map[];
    }
  }

  class PostgresQuotaStore {
    var lastPurge: int

    constructor ()
      ensures lastPurge == 0
    {
      lastPurge := 0;
    }

    /** now and later are the database times of the upsert and of the purge; clock is the pod's monotonic clock. */
    method Incr(db: QuotaTable, s: Subject, limit: int, window: int, now: int, later: int, clock: int)
      returns (v: Verdict)
      requires window >= 1
      modifies this, db
      ensures v.count == CountIn(old(db.rows), (s, StartOf(now, window))) + 1
      ensures v == Verdict(v.count <= limit, v.count, RetryAfter(now, window))
      ensures lastPurge == if clock - old(lastPurge) >= 60 * 1_000_000 then clock else old(lastPurge)
      ensures clock - old(lastPurge) < PURGE_INTERVAL ==>
                db.rows == TableIncr(old(db.rows), s, now, window) && lastPurge == old(lastPurge)
      ensures clock - old(lastPurge) >= PURGE_INTERVAL ==>
                db.rows == PurgeIn(TableIncr(old(db.rows), s, now, window), later) && lastPurge == clock
    {
      db.rows := TableIncr(db.rows, s, now, window);
      var count := db.rows[(s, StartOf(now, window))];
      v := Verdict(count <= limit, count, RetryAfter(now, window));
      if clock - lastPurge >= PURGE_INTERVAL {
        lastPurge := clock;
        db.rows := PurgeIn(db.rows, later);
      }
    }
  }
}
