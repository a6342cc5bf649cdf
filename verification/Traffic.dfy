/** Per-bucket traffic counters: a bounded in-memory aggregate on each replica, flushed by additive upserts into
    one shared table. */
module Traffic {
  import opened Common
  import opened Ordering
  import opened Numerals

  const BUCKET_SECONDS := 300
  const MAX_PENDING_KEYS := 1000
  const MAX_MODEL_LENGTH := 200

  datatype Key = Key(bucket: int, route: string, model: string, status: string)

  datatype Cell = Cell(count: int, durationSum: int, durationMax: int, tokens: int)

  type Cells = map<Key, Cell>

  /** "2xx", "4xx", ...; None: the status is not an integer. */
  function StatusClass(status: Option<int>): string {
    (if status.Some? then Decimal(status.value / 100) else "0") + "xx"
  }

  /** Statuses share a class exactly when they share their hundreds; what is not an integer counts as below 100. */
  lemma StatusClassesAreHundreds(a: Option<int>, b: Option<int>)
    ensures StatusClass(a) == StatusClass(b) <==>
            (if a.Some? then a.value / 100 else 0) == (if b.Some? then b.value / 100 else 0)
  {
    var x, y := if a.Some? then a.value / 100 else 0, if b.Some? then b.value / 100 else 0;
    assert Decimal(0) == "0";
    if StatusClass(a) == StatusClass(b) {
      assert Decimal(x) == StatusClass(a)[..|StatusClass(a)| - 2] == Decimal(y);
      DecimalsDiffer(x, y);
    }
  }

  /** The five-minute bucket of the request's second, and the labels it is counted under. */
  function KeyOf(route: string, model: Option<string>, status: Option<int>, now: int): (k: Key)
    ensures k.bucket <= now < k.bucket + 300 && k.bucket % 300 == 0
    ensures k.status == StatusClass(status)
    ensures model.None? ==> k.model == ""
    ensures model.Some? ==> k.model <= model.value && |k.model| == Min(200, |model.value|)
    ensures k.route == "chat" <==> route == "chat" || route == "chat/completions"
    ensures k.route == "?" <==> route == "?" || route == ""
    ensures k.route != "chat" && k.route != "?" ==> k.route == route
  {
    var r := if route == "" then "?" else if route == "chat/completions" then "chat" else route;
    var m := if model.None? then "" else model.value;
    Key(now / BUCKET_SECONDS * BUCKET_SECONDS, r, if |m| > MAX_MODEL_LENGTH then m[..MAX_MODEL_LENGTH] else m,
        StatusClass(status))
  }

  function RequestCell(durationMs: int, tokens: int): Cell {
    Cell(1, Max(0, durationMs), Max(0, durationMs), tokens)
  }

  function Merge(a: Cell, b: Cell): Cell {
    Cell(a.count + b.count, a.durationSum + b.durationSum, Max(a.durationMax, b.durationMax), a.tokens + b.tokens)
  }

  /** b is a with one request more, of this duration (a negative one counts as zero) and these tokens. */
  predicate Counts(a: Cell, b: Cell, durationMs: int, tokens: int) {
    var d := if durationMs > 0 then durationMs else 0;
    && b.count == a.count + 1 && b.durationSum == a.durationSum + d && b.tokens == a.tokens + tokens
    && b.durationMax == if d > a.durationMax then d else a.durationMax
  }

  /** Adds a cell under its key: the in-memory update and the database upsert alike. */
  function Put(m: Cells, k: Key, c: Cell): Cells {
    m[k := if k in m then Merge(m[k], c) else c]
  }

  // ---- The order in which buckets are given up ----

  /** Python's order on the four-element key tuples. */
  predicate KeyLess(a: Key, b: Key) {
    || a.bucket < b.bucket
    || (a.bucket == b.bucket && StringLess(a.route, b.route))
    || (a.bucket == b.bucket && a.route == b.route && StringLess(a.model, b.model))
    || (a.bucket == b.bucket && a.route == b.route && a.model == b.model && StringLess(a.status, b.status))
  }

  lemma KeyLessIsTotal(a: Key, b: Key)
    ensures KeyLess(a, b) || KeyLess(b, a) || a == b
    ensures !(KeyLess(a, b) && KeyLess(b, a)) && !KeyLess(a, a)
  {
    StringLessIsTotal(a.route, b.route);
    StringLessIsTotal(a.model, b.model);
    StringLessIsTotal(a.status, b.status);
  }

  lemma KeyLessIsTransitive(a: Key, b: Key, c: Key)
    requires KeyLess(a, b) && KeyLess(b, c)
    ensures KeyLess(a, c)
  {
    if StringLess(a.route, b.route) && StringLess(b.route, c.route) {
      StringLessIsTransitive(a.route, b.route, c.route);
    }
    if StringLess(a.model, b.model) && StringLess(b.model, c.model) {
      StringLessIsTransitive(a.model, b.model, c.model);
    }
    if StringLess(a.status, b.status) && StringLess(b.status, c.status) {
      StringLessIsTransitive(a.status, b.status, c.status);
    }
  }

  predicate IsOldest(s: set<Key>, k: Key) {
    k in s && forall x :: x in s && x != k ==> KeyLess(k, x)
  }

  // ---- record and flush_now, as functions of the cells ----

  /** The key a record gives up to make room, if any. */
  ghost predicate Evicts(acc: Cells, k: Key, victim: Option<Key>) {
    if k !in acc && |acc| >= MAX_PENDING_KEYS then victim.Some? && IsOldest(acc.Keys, victim.value) else victim.None?
  }

  function RecordIn(acc: Cells, k: Key, c: Cell, victim: Option<Key>): Cells {
    Put(if victim.Some? then acc - {victim.value} else acc, k, c)
  }

  /** What a record does to the cells: one request more under its key, the others as they were but for the victim. */
  lemma RecordCounts(acc: Cells, k: Key, durationMs: int, tokens: int, victim: Option<Key>)
    requires Evicts(acc, k, victim)
    ensures var acc' := RecordIn(acc, k, RequestCell(durationMs, tokens), victim);
            && k in acc' && Counts(if k in acc then acc[k] else Cell(0, 0, 0, 0), acc'[k], durationMs, tokens)
            && (forall x :: x != k ==> (x in acc' <==> x in acc && victim != Some(x)))
            && (forall x :: x in acc' && x != k ==> acc'[x] == acc[x])
  {
  }

  lemma VictimIsOldest(acc: Cells, k: Key, victim: Option<Key>)
    requires Evicts(acc, k, victim)
    ensures victim.Some? <==> k !in acc && |acc| >= 1000
    ensures victim.Some? ==> victim.value in acc && forall x :: x in acc ==> victim.value.bucket <= x.bucket
  {
  }

  /** The keys dropped when pending is merged back, in the given order, into a full accumulator. */
  function Remerge(acc: Cells, pending: Cells, order: seq<Key>): (Cells, set<Key>)
    requires forall k :: k in order ==> k in pending
    decreases |order|
  {
    if order == [] then (acc, {})
    else
      var k, rest := order[|order| - 1], order[..|order| - 1];
      var (m, dropped) := Remerge(acc, pending, rest);
      if k in m || |m| < MAX_PENDING_KEYS then (Put(m, k, pending[k]), dropped) else (m, dropped + {k})
  }

  function UpsertAll(table: Cells, pending: Cells, order: seq<Key>): Cells
    requires forall k :: k in order ==> k in pending
    decreases |order|
  {
    if order == [] then table
    else
      var k, rest := order[|order| - 1], order[..|order| - 1];
      Put(UpsertAll(table, pending, rest), k, pending[k])
  }

  /** The keys whose upserts are committed when the statement at position failAt raises, itself committed or not. */
  function Committed(order: seq<Key>, failAt: nat, committed: bool): seq<Key>
    requires failAt < |order|
  {
    order[..failAt + if committed then 1 else 0]
  }

  ghost predicate Distinct(order: seq<Key>) {
    forall i, j :: 0 <= i < j < |order| ==> order[i] != order[j]
  }

  function KeysOf(order: seq<Key>): set<Key> {
    set k | k in order
  }

  /** order lists each key of m once. */
  ghost predicate Lists(order: seq<Key>, m: Cells) {
    KeysOf(order) == m.Keys && Distinct(order)
  }

  function Only(m: Cells, keys: set<Key>): Cells {
    map k | k in m && k in keys :: m[k]
  }

  /** Every row with the cell of its key added to it, and a new row for every other cell. */
  function Added(table: Cells, cells: Cells): Cells {
    map k | k in table.Keys + cells.Keys ::
      if k !in table then cells[k] else if k !in cells then table[k] else Merge(table[k], cells[k])
  }

  lemma KeysOfAppend(order: seq<Key>, k: Key)
    ensures KeysOf(order + [k]) == KeysOf(order) + {k}
  {
    forall x ensures x in KeysOf(order + [k]) <==> x in KeysOf(order) + {k} {}
  }

  lemma UpsertAppend(table: Cells, pending: Cells, order: seq<Key>, k: Key)
    requires KeysOf(order) <= pending.Keys && k in pending
    ensures (forall x :: x in order ==> x in pending) && (forall x :: x in order + [k] ==> x in pending)
    ensures UpsertAll(table, pending, order + [k]) == Put(UpsertAll(table, pending, order), k, pending[k])
  {
    forall x | x in order ensures x in pending {
      assert x in KeysOf(order);
    }
    assert (order + [k])[..|order|] == order;
  }

  /** Upserts of distinct keys add their cells, whatever the order. */
  lemma {:induction false} UpsertsAdd(table: Cells, pending: Cells, order: seq<Key>)
    requires KeysOf(order) <= pending.Keys && Distinct(order)
    ensures forall x :: x in order ==> x in pending
    ensures UpsertAll(table, pending, order) == Added(table, Only(pending, KeysOf(order)))
  {
    if order != [] {
      var last, rest := order[|order| - 1], order[..|order| - 1];
      assert order == rest + [last] && last in order && last in KeysOf(order);
      KeysOfAppend(rest, last);
      UpsertsAdd(table, pending, rest);
      UpsertAppend(table, pending, rest, last);
      AddOne(table, pending, KeysOf(rest), last);
    }
  }

  lemma AddOne(table: Cells, pending: Cells, keys: set<Key>, k: Key)
    requires k in pending && k !in keys
    ensures Put(Added(table, Only(pending, keys)), k, pending[k]) == Added(table, Only(pending, keys + {k}))
  {
  }

  class TrafficTable {
    var rows: Cells

    constructor ()
      ensures rows == map[]
    {
      rows := map[];
    }

    /** The upserts of a flush, one autocommitted statement per key, up to the one that raises. */
    method Upsert(pending: Cells, order: seq<Key>)
      requires (forall k :: k in order ==> k in pending) && Distinct(order)
      modifies this
      ensures rows == UpsertAll(old(rows), pending, order) == Added(old(rows), Only(pending, KeysOf(order)))
    {
      for i := 0 to |order|
        invariant rows == UpsertAll(old(rows), pending, order[..i])
      {
        assert order[..i + 1][..i] == order[..i];
        rows := Put(rows, order[i], pending[order[i]]);
      }
      assert order[..|order|] == order;
      UpsertsAdd(old(rows), pending, order);
    }
  }

  class Accumulator {
    var acc: Cells

    constructor ()
      ensures acc == map[]
    {
      acc := map[];
    }

    method Oldest() returns (k: Key)
      requires acc != map[]
      ensures IsOldest(acc.Keys, k)
      ensures forall x :: x in acc ==> k.bucket <= x.bucket
    {
      k :| k in acc.Keys;
      var rest := acc.Keys - {k};
      while rest != {}
        invariant k in acc && k !in rest && rest <= acc.Keys
        invariant forall x :: x in acc.Keys - rest && x != k ==> KeyLess(k, x)
        decreases rest
      {
        var x :| x in rest;
        KeyLessIsTotal(x, k);
        if KeyLess(x, k) {
          forall y | y in acc.Keys - rest && y != x ensures KeyLess(x, y) {
            if y != k {
              KeyLessIsTransitive(x, k, y);
            }
          }
          k := x;
        }
        rest := rest - {x};
      }
    }

    /** What record does under the lock: the key's cell counts one request more, with its duration and tokens; the other
        cells stay, but for one of the oldest bucket, given up when a new key finds the memory full. */
    method Count(k: Key, durationMs: int, tokens: int) returns (victim: Option<Key>)
      requires |acc| <= MAX_PENDING_KEYS
      modifies this
      ensures k in acc && Counts(if k in old(acc) then old(acc)[k] else Cell(0, 0, 0, 0), acc[k], durationMs, tokens)
      ensures victim.Some? <==> k !in old(acc) && |old(acc)| >= 1000
      ensures victim.Some? ==>
                victim.value in old(acc) && forall x :: x in old(acc) ==> victim.value.bucket <= x.bucket
      ensures forall x :: x != k ==> (x in acc <==> x in old(acc) && victim != Some(x))
      ensures forall x :: x in acc && x != k ==> acc[x] == old(acc)[x]
      ensures Evicts(old(acc), k, victim)
      ensures acc == RecordIn(old(acc), k, RequestCell(durationMs, tokens), victim)
      ensures |acc| <= MAX_PENDING_KEYS
    {
      victim := None;
      ghost var before := acc;
      if k !in acc {
        if |acc| >= MAX_PENDING_KEYS {
          var oldest := Oldest();
          victim := Some(oldest);
          assert (acc - {oldest}).Keys == acc.Keys - {oldest};
          acc := acc - {oldest};
        }
        assert acc[k := RequestCell(durationMs, tokens)].Keys == acc.Keys + {k};
        acc := acc[k := RequestCell(durationMs, tokens)];
      } else {
        assert acc[k := acc[k]].Keys == acc.Keys;
        acc := acc[k := Merge(acc[k], RequestCell(durationMs, tokens))];
      }
      VictimIsOldest(before, k, victim);
      RecordCounts(before, k, durationMs, tokens, victim);
    }

    method Record(route: string, model: Option<string>, status: Option<int>, now: int, durationMs: int, tokens: int)
      returns (victim: Option<Key>)
      requires |acc| <= MAX_PENDING_KEYS
      modifies this
      ensures var k := KeyOf(route, model, status, now);
              k in acc && Counts(if k in old(acc) then old(acc)[k] else Cell(0, 0, 0, 0), acc[k], durationMs, tokens)
      ensures Evicts(old(acc), KeyOf(route, model, status, now), victim)
      ensures acc == RecordIn(old(acc), KeyOf(route, model, status, now), RequestCell(durationMs, tokens), victim)
      ensures |acc| <= MAX_PENDING_KEYS
    {
      victim := Count(KeyOf(route, model, status, now), durationMs, tokens);
    }

    /** Puts the counters of a failed flush back, as far as there is room. */
    method MergeBack(pending: Cells, order: seq<Key>) returns (ghost dropped: set<Key>)
      requires forall k :: k in order ==> k in pending
      modifies this
      ensures (acc, dropped) == Remerge(old(acc), pending, order)
      ensures dropped != {} ==> |acc| >= 1000
    {
      dropped := {};
      for i := 0 to |order|
        invariant (acc, dropped) == Remerge(old(acc), pending, order[..i])
        invariant dropped != {} ==> |acc| >= 1000
      {
        var k := order[i];
        assert order[..i + 1][..i] == order[..i];
        if k in acc || |acc| < MAX_PENDING_KEYS {
          assert Put(acc, k, pending[k]).Keys == acc.Keys + {k};
          acc := Put(acc, k, pending[k]);
        } else {
          dropped := dropped + {k};
        }
      }
      assert order[..|order|] == order;
    }

    /** A flush that nothing else interleaves with; its upserts raise at position failAt of the order, with the
        statement there committed or not, or do not raise. */
    method FlushNow(db: TrafficTable, order: seq<Key>, failAt: Option<nat>, committed: bool)
      returns (upserted: int, ghost dropped: set<Key>)
      requires Lists(order, acc) && (failAt.Some? ==> failAt.value < |order|)
      modifies this, db
      ensures failAt.None? ==>
                && acc == map[] && upserted == |old(acc)| && dropped == {}
                && db.rows == Added(old(db.rows), old(acc))
      ensures failAt.Some? ==>
                && upserted == 0
                && db.rows == Added(old(db.rows), Only(old(acc), KeysOf(Committed(order, failAt.value, committed))))
                && (acc, dropped) == Remerge(map[], old(acc), order)
    {
      var pending := acc;
      assert forall k :: k in order ==> k in pending.Keys;
      acc, dropped := map[], {};
      if failAt.None? {
        db.Upsert(pending, order);
        assert Only(pending, KeysOf(order)) == pending;
        upserted := |pending|;
      } else {
        db.Upsert(pending, Committed(order, failAt.value, committed));
        dropped := MergeBack(pending, order);
        upserted := 0;
      }
    }
  }
}
