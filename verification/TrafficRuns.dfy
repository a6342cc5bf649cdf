/** N replicas recording and flushing concurrently: what is stored, in flight, lost and counted twice always adds
    up to what was recorded. */
module TrafficRuns {
  import opened Common
  import opened Traffic

  type ReplicaId = nat

  /** A flush under way: the cells swapped out, and the keys whose upsert has not been committed yet. */
  datatype Flight = Flight(pending: Cells, todo: set<Key>)

  datatype Replica = Replica(acc: Cells, flight: Option<Flight>)

  datatype Entry = Entry(key: Key, cell: Cell)

  /** log: every request recorded. lost: cells given up before they were in the table (evicted, dropped on re-merge, or
      gone with their process) or purged from it. twice: cells merged back although their upsert had been committed. */
  datatype World = World(table: Cells, replicas: map<ReplicaId, Replica>, log: seq<Entry>,
                         lost: seq<Cells>, twice: seq<Cells>)

  datatype Event =
    | Start(r: ReplicaId)
    | Crash(r: ReplicaId)
    | Record(r: ReplicaId, key: Key, durationMs: int, tokens: int, victim: Option<Key>)
    | Swap(r: ReplicaId)
    | Upsert(r: ReplicaId, key: Key)
    | Complete(r: ReplicaId)
    | Failed(r: ReplicaId, order: seq<Key>)
    | Purge(before: int)

  predicate Flying(w: World, r: ReplicaId) {
    r in w.replicas && w.replicas[r].flight.Some?
  }

  ghost predicate Enabled(w: World, e: Event) {
    match e
    case Start(r) => r !in w.replicas
    case Crash(r) => r in w.replicas
    case Record(r, k, _, _, victim) => r in w.replicas && Evicts(w.replicas[r].acc, k, victim)
    case Swap(r) => r in w.replicas && w.replicas[r].flight.None?
    case Upsert(r, k) => Flying(w, r) && k in w.replicas[r].flight.value.todo && k in w.replicas[r].flight.value.pending
    case Complete(r) => Flying(w, r) && w.replicas[r].flight.value.todo == {}
    case Failed(r, order) => Flying(w, r) && Lists(order, w.replicas[r].flight.value.pending)
    case Purge(_) => true
  }

  function InFlight(p: Replica): Cells {
    if p.flight.Some? then Only(p.flight.value.pending, p.flight.value.todo) else map[]
  }

  ghost function Step(w: World, e: Event): World
    requires Enabled(w, e)
  {
    match e
    case Start(r) => w.(replicas := w.replicas[r := Replica(map[], None)])
    case Crash(r) =>
      w.(replicas := w.replicas - {r}, lost := w.lost + [w.replicas[r].acc] + [InFlight(w.replicas[r])])
    case Record(r, k, d, t, victim) =>
      var acc := w.replicas[r].acc;
      w.(replicas := w.replicas[r := w.replicas[r].(acc := RecordIn(acc, k, RequestCell(d, t), victim))],
         log := w.log + [Entry(k, RequestCell(d, t))],
         lost := if victim.Some? then w.lost + [Only(acc, {victim.value})] else w.lost)
    case Swap(r) =>
      var acc := w.replicas[r].acc;
      if acc == map[] then w
      else w.(replicas := w.replicas[r := Replica(map[], Some(Flight(acc, acc.Keys)))])
    case Upsert(r, k) =>
      var f := w.replicas[r].flight.value;
      w.(table := Put(w.table, k, f.pending[k]),
         replicas := w.replicas[r := w.replicas[r].(flight := Some(f.(todo := f.todo - {k})))])
    case Complete(r) => w.(replicas := w.replicas[r := w.replicas[r].(flight := None)])
    case Failed(r, order) =>
      var f := w.replicas[r].flight.value;
      assert forall k :: k in order ==> k in f.pending.Keys;
      var (acc, dropped) := Remerge(w.replicas[r].acc, f.pending, order);
      w.(replicas := w.replicas[r := Replica(acc, None)],
         lost := w.lost + [Only(f.pending, dropped * f.todo)],
         twice := w.twice + [Only(f.pending, f.pending.Keys - f.todo - dropped)])
    case Purge(before) =>
      var gone := set k | k in w.table && k.bucket < before;
      w.(table := w.table - gone, lost := w.lost + [Only(w.table, gone)])
  }

  ghost predicate IsRun(worlds: seq<World>, events: seq<Event>) {
    && |worlds| == |events| + 1
    && worlds[0] == World(map[], map[], [], [], [])
    && forall i :: 0 <= i < |events| ==> Enabled(worlds[i], events[i]) && worlds[i + 1] == Step(worlds[i], events[i])
  }

  /** The reference: one upsert per request. */
  function OneByOne(log: seq<Entry>): Cells {
    if log == [] then map[]
    else Put(OneByOne(log[..|log| - 1]), log[|log| - 1].key, log[|log| - 1].cell)
  }

  // ---- Quantities ----

  datatype Quantity = Requests | Duration | Tokens

  function Of(q: Quantity, c: Cell): int {
    match q
    case Requests => c.count
    case Duration => c.durationSum
    case Tokens => c.tokens
  }

  function At(q: Quantity, k: Key, m: Cells): int {
    if k in m then Of(q, m[k]) else 0
  }

  function AtAll(q: Quantity, k: Key, ms: seq<Cells>): int {
    if ms == [] then 0 else AtAll(q, k, ms[..|ms| - 1]) + At(q, k, ms[|ms| - 1])
  }

  function Recorded(q: Quantity, k: Key, log: seq<Entry>): int {
    if log == [] then 0
    else
      var e := log[|log| - 1];
      Recorded(q, k, log[..|log| - 1]) + if e.key == k then Of(q, e.cell) else 0
  }

  function HeldBy(q: Quantity, k: Key, w: World, r: ReplicaId): int {
    if r in w.replicas then At(q, k, w.replicas[r].acc) + At(q, k, InFlight(w.replicas[r])) else 0
  }

  ghost function Held(q: Quantity, k: Key, w: World): int {
    Sum(w.replicas.Keys, r => HeldBy(q, k, w, r))
  }

  lemma AtAllAppend(q: Quantity, k: Key, ms: seq<Cells>, m: Cells)
    ensures AtAll(q, k, ms + [m]) == AtAll(q, k, ms) + At(q, k, m)
  {
    assert (ms + [m])[..|ms|] == ms;
  }

  lemma RecordedAppend(q: Quantity, k: Key, log: seq<Entry>, e: Entry)
    ensures Recorded(q, k, log + [e]) == Recorded(q, k, log) + if e.key == k then Of(q, e.cell) else 0
  {
    assert (log + [e])[..|log|] == log;
  }

  /** One replica's holdings change, the others' do not. */
  lemma HeldChange(q: Quantity, k: Key, w: World, w': World, r: ReplicaId)
    requires r in w.replicas && w'.replicas.Keys == w.replicas.Keys
    requires forall x :: x in w.replicas && x != r ==> w'.replicas[x] == w.replicas[x]
    ensures Held(q, k, w') - HeldBy(q, k, w', r) == Held(q, k, w) - HeldBy(q, k, w, r)
  {
    SumChangeOne(w.replicas.Keys, x => HeldBy(q, k, w', x), x => HeldBy(q, k, w, x), r);
  }

  lemma HeldJoin(q: Quantity, k: Key, w: World, w': World, r: ReplicaId)
    requires r !in w.replicas && w'.replicas.Keys == w.replicas.Keys + {r}
    requires forall x :: x in w.replicas ==> w'.replicas[x] == w.replicas[x]
    ensures Held(q, k, w') == Held(q, k, w) + HeldBy(q, k, w', r)
  {
    SumRemove(w'.replicas.Keys, x => HeldBy(q, k, w', x), r);
    assert w'.replicas.Keys - {r} == w.replicas.Keys;
    SumEqual(w.replicas.Keys, x => HeldBy(q, k, w', x), x => HeldBy(q, k, w, x));
  }

  /** Where the k cell of pending ends up when pending is merged back. */
  lemma {:induction false} RemergeAt(acc: Cells, pending: Cells, order: seq<Key>, k: Key)
    requires (forall x :: x in order ==> x in pending) && Distinct(order)
    ensures var (m, dropped) := Remerge(acc, pending, order);
            if k !in order then k !in dropped && (k in m <==> k in acc) && (k in m ==> m[k] == acc[k])
            else if k in dropped then k !in m && k !in acc
            else k in m && m[k] == if k in acc then Merge(acc[k], pending[k]) else pending[k]
  {
    if order != [] {
      var last, rest := order[|order| - 1], order[..|order| - 1];
      assert order == rest + [last];
      assert last !in rest;
      RemergeAt(acc, pending, rest, k);
    }
  }

  lemma {:induction false} RemergeIsBounded(acc: Cells, pending: Cells, order: seq<Key>)
    requires forall x :: x in order ==> x in pending
    requires |acc| <= MAX_PENDING_KEYS
    ensures |Remerge(acc, pending, order).0| <= MAX_PENDING_KEYS
  {
    if order != [] {
      var last, rest := order[|order| - 1], order[..|order| - 1];
      RemergeIsBounded(acc, pending, rest);
      PutSize(Remerge(acc, pending, rest).0, last, pending[last]);
    }
  }

  lemma PutSize(m: Cells, k: Key, c: Cell)
    ensures |Put(m, k, c)| == if k in m then |m| else |m| + 1
  {
    assert Put(m, k, c).Keys == m.Keys + {k};
  }

  // ---- What was asked for ----

  predicate Records(e: Event, k: Key) {
    e.Record? && e.key == k
  }

  /** What a request adds to a quantity; a negative duration counts as zero. */
  function Amount(q: Quantity, e: Event): int
    requires e.Record?
  {
    match q
    case Requests => 1
    case Duration => if e.durationMs > 0 then e.durationMs else 0
    case Tokens => e.tokens
  }

  /** The total over the requests of key k among the first n events. */
  function Requested(q: Quantity, k: Key, events: seq<Event>, n: nat): int
    requires n <= |events|
  {
    if n == 0 then 0
    else Requested(q, k, events, n - 1) + if Records(events[n - 1], k) then Amount(q, events[n - 1]) else 0
  }

  /** m is the largest duration among the requests of key k in the first n events. */
  ghost predicate IsLargest(events: seq<Event>, n: nat, k: Key, m: int)
    requires n <= |events|
  {
    && (exists i :: 0 <= i < n && Records(events[i], k) && Amount(Duration, events[i]) == m)
    && forall i :: 0 <= i < n && Records(events[i], k) ==> Amount(Duration, events[i]) <= m
  }

  /** The cells of the requests among the first n events. */
  function EntriesOf(events: seq<Event>, n: nat): seq<Entry>
    requires n <= |events|
  {
    if n == 0 then []
    else if !events[n - 1].Record? then EntriesOf(events, n - 1)
    else
      var e := events[n - 1];
      EntriesOf(events, n - 1) + [Entry(e.key, RequestCell(e.durationMs, e.tokens))]
  }

  lemma LogGrows(w: World, e: Event)
    requires Enabled(w, e)
    ensures Step(w, e).log
            == if e.Record? then w.log + [Entry(e.key, RequestCell(e.durationMs, e.tokens))] else w.log
  {
  }

  lemma {:induction false} LogIsEntries(worlds: seq<World>, events: seq<Event>, n: nat)
    requires IsRun(worlds, events) && n < |worlds|
    ensures worlds[n].log == EntriesOf(events, n)
  {
    if n > 0 {
      LogIsEntries(worlds, events, n - 1);
      LogGrows(worlds[n - 1], events[n - 1]);
    }
  }

  lemma {:induction false} EntriesAreRequested(events: seq<Event>, n: nat, q: Quantity, k: Key)
    requires n <= |events|
    ensures Recorded(q, k, EntriesOf(events, n)) == Requested(q, k, events, n)
  {
    if n > 0 {
      EntriesAreRequested(events, n - 1, q, k);
      var e := events[n - 1];
      if e.Record? {
        RecordedAppend(q, k, EntriesOf(events, n - 1), Entry(e.key, RequestCell(e.durationMs, e.tokens)));
      }
    }
  }

  lemma LargestGrows(events: seq<Event>, n: nat, k: Key, m: int)
    requires n < |events| && IsLargest(events, n, k, m)
    ensures var more := Records(events[n], k) && Amount(Duration, events[n]) > m;
            IsLargest(events, n + 1, k, if more then Amount(Duration, events[n]) else m)
  {
    var i :| 0 <= i < n && Records(events[i], k) && Amount(Duration, events[i]) == m;
  }

  /** The reference has a row for every key requested, with the largest duration. */
  ghost predicate HasLargest(events: seq<Event>, n: nat, k: Key, reference: Cells)
    requires n <= |events|
  {
    && (k in reference <==> exists i :: 0 <= i < n && Records(events[i], k))
    && (k in reference ==> IsLargest(events, n, k, reference[k].durationMax))
  }

  lemma LargestOfRecord(events: seq<Event>, n: nat, k: Key, reference: Cells)
    requires n < |events| && HasLargest(events, n, k, reference) && Records(events[n], k)
    ensures var c := RequestCell(events[n].durationMs, events[n].tokens);
            HasLargest(events, n + 1, k, Put(reference, k, c))
  {
    if k in reference {
      LargestGrows(events, n, k, reference[k].durationMax);
    } else {
      forall i | 0 <= i < n ensures !Records(events[i], k) {}
      assert Records(events[n], k);
    }
  }

  lemma LargestOfOther(events: seq<Event>, n: nat, k: Key, reference: Cells, reference': Cells)
    requires n < |events| && HasLargest(events, n, k, reference) && !Records(events[n], k)
    requires (k in reference' <==> k in reference) && (k in reference ==> reference'[k] == reference[k])
    ensures HasLargest(events, n + 1, k, reference')
  {
    if k in reference {
      LargestGrows(events, n, k, reference[k].durationMax);
    }
  }

  function AfterEvent(reference: Cells, e: Event): Cells {
    if e.Record? then Put(reference, e.key, RequestCell(e.durationMs, e.tokens)) else reference
  }

  lemma ReferenceStep(events: seq<Event>, n: nat)
    requires n < |events|
    ensures OneByOne(EntriesOf(events, n + 1)) == AfterEvent(OneByOne(EntriesOf(events, n)), events[n])
  {
    var e := events[n];
    if e.Record? {
      OneByOneAppend(EntriesOf(events, n), Entry(e.key, RequestCell(e.durationMs, e.tokens)));
    }
  }

  lemma LargestStep(events: seq<Event>, n: nat, k: Key, reference: Cells)
    requires n < |events| && HasLargest(events, n, k, reference)
    ensures HasLargest(events, n + 1, k, AfterEvent(reference, events[n]))
  {
    if Records(events[n], k) {
      LargestOfRecord(events, n, k, reference);
    } else {
      LargestOfOther(events, n, k, reference, AfterEvent(reference, events[n]));
    }
  }

  lemma {:induction false} EntriesAreLargest(events: seq<Event>, n: nat, k: Key)
    requires n <= |events|
    ensures HasLargest(events, n, k, OneByOne(EntriesOf(events, n)))
  {
    if n > 0 {
      EntriesAreLargest(events, n - 1, k);
      ReferenceStep(events, n - 1);
      LargestStep(events, n - 1, k, OneByOne(EntriesOf(events, n - 1)));
    }
  }

  // ---- Conservation ----

  ghost predicate Balanced(q: Quantity, k: Key, w: World) {
    Recorded(q, k, w.log) + AtAll(q, k, w.twice)
    == At(q, k, w.table) + Held(q, k, w) + AtAll(q, k, w.lost)
  }

  /** A record adds its request to the accumulator, less what it evicts. */
  lemma RecordAt(q: Quantity, k: Key, acc: Cells, key: Key, c: Cell, victim: Option<Key>)
    requires Evicts(acc, key, victim)
    ensures At(q, k, RecordIn(acc, key, c, victim)) + (if victim.Some? then At(q, k, Only(acc, {victim.value})) else 0)
            == At(q, k, acc) + if key == k then Of(q, c) else 0
  {
  }

  lemma RecordBalances(q: Quantity, k: Key, w: World, e: Event)
    requires Enabled(w, e) && e.Record? && Balanced(q, k, w)
    ensures Balanced(q, k, Step(w, e))
  {
    var c := RequestCell(e.durationMs, e.tokens);
    HeldChange(q, k, w, Step(w, e), e.r);
    RecordAt(q, k, w.replicas[e.r].acc, e.key, c, e.victim);
    RecordedAppend(q, k, w.log, Entry(e.key, c));
    if e.victim.Some? {
      AtAllAppend(q, k, w.lost, Only(w.replicas[e.r].acc, {e.victim.value}));
    }
  }

  lemma FlightBalances(q: Quantity, k: Key, w: World, e: Event)
    requires Enabled(w, e) && (e.Swap? || e.Upsert? || e.Complete?) && Balanced(q, k, w)
    ensures Balanced(q, k, Step(w, e))
  {
    HeldChange(q, k, w, Step(w, e), e.r);
  }

  /** What a failed flush had swapped out is merged back, or dropped: of the cells dropped only those not yet upserted
      are lost, of the cells merged back those already upserted will be counted twice. */
  lemma FailedAt(q: Quantity, k: Key, acc: Cells, f: Flight, order: seq<Key>)
    requires Lists(order, f.pending)
    ensures (forall x :: x in order ==> x in f.pending)
            && var (m, dropped) := Remerge(acc, f.pending, order);
               At(q, k, m) + At(q, k, Only(f.pending, dropped * f.todo))
               == At(q, k, acc) + At(q, k, Only(f.pending, f.todo))
                  + At(q, k, Only(f.pending, f.pending.Keys - f.todo - dropped))
  {
    assert forall x :: x in order <==> x in f.pending.Keys;
    RemergeAt(acc, f.pending, order, k);
  }

  lemma FailedBalances(q: Quantity, k: Key, w: World, e: Event)
    requires Enabled(w, e) && e.Failed? && Balanced(q, k, w)
    ensures Balanced(q, k, Step(w, e))
  {
    var p := w.replicas[e.r];
    var f := p.flight.value;
    FailedAt(q, k, p.acc, f, e.order);
    var dropped := Remerge(p.acc, f.pending, e.order).1;
    HeldChange(q, k, w, Step(w, e), e.r);
    AtAllAppend(q, k, w.lost, Only(f.pending, dropped * f.todo));
    AtAllAppend(q, k, w.twice, Only(f.pending, f.pending.Keys - f.todo - dropped));
  }

  lemma StartBalances(q: Quantity, k: Key, w: World, e: Event)
    requires Enabled(w, e) && e.Start? && Balanced(q, k, w)
    ensures Balanced(q, k, Step(w, e))
  {
    HeldJoin(q, k, w, Step(w, e), e.r);
  }

  lemma CrashBalances(q: Quantity, k: Key, w: World, e: Event)
    requires Enabled(w, e) && e.Crash? && Balanced(q, k, w)
    ensures Balanced(q, k, Step(w, e))
  {
    var p := w.replicas[e.r];
    HeldJoin(q, k, Step(w, e), w, e.r);
    AtAllAppend(q, k, w.lost, p.acc);
    AtAllAppend(q, k, w.lost + [p.acc], InFlight(p));
  }

  lemma HeldSame(q: Quantity, k: Key, w: World, w': World)
    requires w'.replicas == w.replicas
    ensures Held(q, k, w') == Held(q, k, w)
  {
    SumEqual(w.replicas.Keys, r => HeldBy(q, k, w', r), r => HeldBy(q, k, w, r));
  }

  lemma PurgeAt(q: Quantity, k: Key, table: Cells, gone: set<Key>)
    ensures At(q, k, table - gone) + At(q, k, Only(table, gone)) == At(q, k, table)
  {
  }

  lemma PurgeBalances(q: Quantity, k: Key, w: World, e: Event)
    requires Enabled(w, e) && e.Purge? && Balanced(q, k, w)
    ensures Balanced(q, k, Step(w, e))
  {
    var gone := set x | x in w.table && x.bucket < e.before;
    AtAllAppend(q, k, w.lost, Only(w.table, gone));
    PurgeAt(q, k, w.table, gone);
    HeldSame(q, k, w, Step(w, e));
  }

  lemma {:induction false} RunBalances(worlds: seq<World>, events: seq<Event>, n: nat, q: Quantity, k: Key)
    requires IsRun(worlds, events) && n < |worlds|
    ensures Balanced(q, k, worlds[n])
  {
    if n > 0 {
      RunBalances(worlds, events, n - 1, q, k);
      match events[n - 1]
      case Record(_, _, _, _, _) => RecordBalances(q, k, worlds[n - 1], events[n - 1]);
      case Failed(_, _) => FailedBalances(q, k, worlds[n - 1], events[n - 1]);
      case Swap(_) => FlightBalances(q, k, worlds[n - 1], events[n - 1]);
      case Upsert(_, _) => FlightBalances(q, k, worlds[n - 1], events[n - 1]);
      case Complete(_) => FlightBalances(q, k, worlds[n - 1], events[n - 1]);
      case Start(_) => StartBalances(q, k, worlds[n - 1], events[n - 1]);
      case Crash(_) => CrashBalances(q, k, worlds[n - 1], events[n - 1]);
      case Purge(_) => PurgeBalances(q, k, worlds[n - 1], events[n - 1]);
    }
  }

  /** For every key and every quantity, over all replicas and in every interleaving: what was requested, plus what was
      merged back after its upsert had been committed, is what is in the table, in memory, in flight or lost. */
  lemma TrafficIsConserved(worlds: seq<World>, events: seq<Event>, n: nat, q: Quantity, k: Key)
    requires IsRun(worlds, events) && n < |worlds|
    ensures Requested(q, k, events, n) + AtAll(q, k, worlds[n].twice)
            == At(q, k, worlds[n].table) + Held(q, k, worlds[n]) + AtAll(q, k, worlds[n].lost)
  {
    RunBalances(worlds, events, n, q, k);
    LogIsEntries(worlds, events, n);
    EntriesAreRequested(events, n, q, k);
  }

  // ---- Well-formed cells, and the bound on memory ----

  /** Every cell counts at least one request, and no maximum exceeds that of all requests under its key. */
  ghost predicate CellsOk(m: Cells, reference: Cells) {
    forall k :: k in m ==>
      && m[k].count >= 1 && m[k].durationSum >= 0
      && k in reference && m[k].durationMax <= reference[k].durationMax
  }

  ghost predicate ReplicaOk(p: Replica, reference: Cells) {
    && CellsOk(p.acc, reference) && |p.acc| <= MAX_PENDING_KEYS
    && (p.flight.Some? ==>
          CellsOk(p.flight.value.pending, reference) && p.flight.value.todo <= p.flight.value.pending.Keys)
  }

  ghost predicate WorldOk(w: World) {
    var reference := OneByOne(w.log);
    && CellsOk(w.table, reference)
    && (forall r :: r in w.replicas ==> ReplicaOk(w.replicas[r], reference))
    && (forall m :: m in w.twice ==> CellsOk(m, reference))
  }

  lemma OneByOneAppend(log: seq<Entry>, e: Entry)
    ensures OneByOne(log + [e]) == Put(OneByOne(log), e.key, e.cell)
  {
    assert (log + [e])[..|log|] == log;
  }

  /** A longer log only raises the reference maxima. */
  lemma ReferenceGrows(m: Cells, reference: Cells, k: Key, c: Cell)
    requires CellsOk(m, reference)
    ensures CellsOk(m, Put(reference, k, c))
  {
  }

  lemma PutKeepsCells(m: Cells, reference: Cells, k: Key, c: Cell)
    requires CellsOk(m, reference) && CellsOk(map[k := c], reference)
    ensures CellsOk(Put(m, k, c), reference)
  {
    assert k in map[k := c];
  }

  lemma RecordKeepsReplica(p: Replica, reference: Cells, k: Key, d: int, t: int, victim: Option<Key>)
    requires ReplicaOk(p, reference) && Evicts(p.acc, k, victim)
    ensures ReplicaOk(p.(acc := RecordIn(p.acc, k, RequestCell(d, t), victim)), Put(reference, k, RequestCell(d, t)))
  {
    var c := RequestCell(d, t);
    var base := if victim.Some? then p.acc - {victim.value} else p.acc;
    assert base.Keys <= p.acc.Keys;
    assert victim.Some? ==> base.Keys == p.acc.Keys - {victim.value};
    ReferenceGrows(base, reference, k, c);
    PutKeepsCells(base, Put(reference, k, c), k, c);
    PutSize(base, k, c);
    if p.flight.Some? {
      ReferenceGrows(p.flight.value.pending, reference, k, c);
    }
  }

  lemma FailedKeepsReplica(p: Replica, reference: Cells, order: seq<Key>)
    requires ReplicaOk(p, reference) && p.flight.Some? && Lists(order, p.flight.value.pending)
    ensures (forall k :: k in order ==> k in p.flight.value.pending)
            && ReplicaOk(Replica(Remerge(p.acc, p.flight.value.pending, order).0, None), reference)
  {
    var f := p.flight.value;
    assert forall x :: x in order <==> x in f.pending.Keys;
    RemergeIsBounded(p.acc, f.pending, order);
    var m := Remerge(p.acc, f.pending, order).0;
    forall k | k in m
      ensures m[k].count >= 1 && m[k].durationSum >= 0 && k in reference && m[k].durationMax <= reference[k].durationMax
    {
      RemergeAt(p.acc, f.pending, order, k);
    }
  }

  lemma StepKeepsCells(w: World, e: Event)
    requires Enabled(w, e) && WorldOk(w)
    ensures WorldOk(Step(w, e))
  {
    match e
    case Record(_, _, _, _, _) => RecordKeepsWorld(w, e);
    case Failed(r, order) => FailedKeepsWorld(w, e);
    case Upsert(_, _) => UpsertKeepsWorld(w, e);
    case Swap(_) => FlightKeepsWorld(w, e);
    case Complete(_) => FlightKeepsWorld(w, e);
    case _ =>
  }

  lemma FlightKeepsWorld(w: World, e: Event)
    requires Enabled(w, e) && WorldOk(w) && (e.Swap? || e.Complete?)
    ensures WorldOk(Step(w, e))
  {
    assert ReplicaOk(w.replicas[e.r], OneByOne(w.log));
    assert ReplicaOk(Step(w, e).replicas[e.r], OneByOne(w.log));
  }

  lemma UpsertKeepsReplica(p: Replica, reference: Cells, k: Key)
    requires ReplicaOk(p, reference) && p.flight.Some? && k in p.flight.value.pending
    ensures ReplicaOk(p.(flight := Some(p.flight.value.(todo := p.flight.value.todo - {k}))), reference)
  {
  }

  lemma UpsertKeepsWorld(w: World, e: Event)
    requires Enabled(w, e) && WorldOk(w) && e.Upsert?
    ensures WorldOk(Step(w, e))
  {
    var w', reference, p := Step(w, e), OneByOne(w.log), w.replicas[e.r];
    UpsertKeepsReplica(p, reference, e.key);
    PutKeepsCells(w.table, reference, e.key, p.flight.value.pending[e.key]);
    forall r | r in w'.replicas ensures ReplicaOk(w'.replicas[r], reference) {
      assert r != e.r ==> ReplicaOk(w.replicas[r], reference);
    }
  }

  lemma FailedKeepsWorld(w: World, e: Event)
    requires Enabled(w, e) && WorldOk(w) && e.Failed?
    ensures WorldOk(Step(w, e))
  {
    FailedKeepsReplica(w.replicas[e.r], OneByOne(w.log), e.order);
  }

  lemma RecordKeepsWorld(w: World, e: Event)
    requires Enabled(w, e) && WorldOk(w) && e.Record?
    ensures WorldOk(Step(w, e))
  {
    var w', reference, c := Step(w, e), OneByOne(w.log), RequestCell(e.durationMs, e.tokens);
    OneByOneAppend(w.log, Entry(e.key, c));
    ReferenceGrows(w.table, reference, e.key, c);
    forall r | r in w'.replicas ensures ReplicaOk(w'.replicas[r], OneByOne(w'.log)) {
      if r == e.r {
        RecordKeepsReplica(w.replicas[r], reference, e.key, e.durationMs, e.tokens, e.victim);
      } else {
        assert ReplicaOk(w.replicas[r], reference);
        ReferenceGrows(w.replicas[r].acc, reference, e.key, c);
        if w.replicas[r].flight.Some? {
          ReferenceGrows(w.replicas[r].flight.value.pending, reference, e.key, c);
        }
      }
    }
    forall m | m in w'.twice ensures CellsOk(m, OneByOne(w'.log)) {
      ReferenceGrows(m, reference, e.key, c);
    }
  }

  lemma {:induction false} RunKeepsCells(worlds: seq<World>, events: seq<Event>, n: nat)
    requires IsRun(worlds, events) && n < |worlds|
    ensures WorldOk(worlds[n])
  {
    if n > 0 {
      RunKeepsCells(worlds, events, n - 1);
      StepKeepsCells(worlds[n - 1], events[n - 1]);
    }
  }

  /** No replica's memory ever grows past the bound. */
  lemma MemoryIsBounded(worlds: seq<World>, events: seq<Event>, n: nat, r: ReplicaId)
    requires IsRun(worlds, events) && n < |worlds| && r in worlds[n].replicas
    ensures |worlds[n].replicas[r].acc| <= 1000
  {
    RunKeepsCells(worlds, events, n);
    assert ReplicaOk(worlds[n].replicas[r], OneByOne(worlds[n].log));
  }

  // ---- Failed flushes ----

  lemma {:induction false} AtAllNonNegative(q: Quantity, k: Key, ms: seq<Cells>, reference: Cells)
    requires !q.Tokens? && forall m :: m in ms ==> CellsOk(m, reference)
    ensures AtAll(q, k, ms) >= 0
  {
    if ms != [] {
      assert ms[|ms| - 1] in ms;
      AtAllNonNegative(q, k, ms[..|ms| - 1], reference);
    }
  }

  /** Requests and durations are never under-counted: a failed flush can only repeat what it had upserted. */
  lemma NothingIsUndercounted(worlds: seq<World>, events: seq<Event>, n: nat, q: Quantity, k: Key)
    requires IsRun(worlds, events) && n < |worlds| && !q.Tokens?
    ensures At(q, k, worlds[n].table) + Held(q, k, worlds[n]) + AtAll(q, k, worlds[n].lost)
            >= Requested(q, k, events, n)
  {
    TrafficIsConserved(worlds, events, n, q, k);
    RunKeepsCells(worlds, events, n);
    AtAllNonNegative(q, k, worlds[n].twice, OneByOne(worlds[n].log));
  }

  /** The keys that find no room when a failed flush merges its cells back. */
  ghost function Dropped(w: World, e: Event): set<Key>
    requires Enabled(w, e) && e.Failed?
  {
    var p := w.replicas[e.r];
    assert forall x :: x in e.order ==> x in p.flight.value.pending.Keys;
    Remerge(p.acc, p.flight.value.pending, e.order).1
  }

  /** A flush fails after its upsert of key k was committed, and merges k's cell back. */
  ghost predicate Repeats(w: World, e: Event, k: Key)
    requires Enabled(w, e)
  {
    e.Failed? &&
    var f := w.replicas[e.r].flight.value;
    k in f.pending && k !in f.todo && k !in Dropped(w, e)
  }

  lemma StepRepeats(w: World, e: Event, q: Quantity, k: Key)
    requires Enabled(w, e) && WorldOk(w)
    ensures !Repeats(w, e, k) ==> AtAll(q, k, Step(w, e).twice) == AtAll(q, k, w.twice)
    ensures Repeats(w, e, k) && q.Requests? ==> AtAll(q, k, Step(w, e).twice) >= AtAll(q, k, w.twice) + 1
  {
    if e.Failed? {
      var f := w.replicas[e.r].flight.value;
      assert ReplicaOk(w.replicas[e.r], OneByOne(w.log));
      AtAllAppend(q, k, w.twice, Only(f.pending, f.pending.Keys - f.todo - Dropped(w, e)));
    }
  }

  /** A cell of key k is given up: evicted, gone with its process, dropped before its upsert was committed, or
      purged. */
  ghost predicate Loses(w: World, e: Event, k: Key)
    requires Enabled(w, e)
  {
    match e
    case Record(_, _, _, _, victim) => victim == Some(k)
    case Crash(r) => k in w.replicas[r].acc || k in InFlight(w.replicas[r])
    case Failed(r, _) => k in Dropped(w, e) && k in w.replicas[r].flight.value.todo
    case Purge(before) => k in w.table && k.bucket < before
    case _ => false
  }

  lemma LostAppend(q: Quantity, k: Key, ms: seq<Cells>, m: Cells)
    requires k !in m
    ensures AtAll(q, k, ms + [m]) == AtAll(q, k, ms)
  {
    AtAllAppend(q, k, ms, m);
  }

  lemma FailedLoses(w: World, e: Event, q: Quantity, k: Key)
    requires Enabled(w, e) && e.Failed? && !Loses(w, e, k)
    ensures AtAll(q, k, Step(w, e).lost) == AtAll(q, k, w.lost)
  {
    var f := w.replicas[e.r].flight.value;
    LostAppend(q, k, w.lost, Only(f.pending, Dropped(w, e) * f.todo));
  }

  lemma StepLoses(w: World, e: Event, q: Quantity, k: Key)
    requires Enabled(w, e) && !Loses(w, e, k)
    ensures AtAll(q, k, Step(w, e).lost) == AtAll(q, k, w.lost)
  {
    match e
    case Record(r, _, _, _, victim) =>
      if victim.Some? {
        LostAppend(q, k, w.lost, Only(w.replicas[r].acc, {victim.value}));
      }
    case Crash(r) =>
      LostAppend(q, k, w.lost, w.replicas[r].acc);
      LostAppend(q, k, w.lost + [w.replicas[r].acc], InFlight(w.replicas[r]));
    case Failed(_, _) => FailedLoses(w, e, q, k);
    case Purge(before) => LostAppend(q, k, w.lost, Only(w.table, set x | x in w.table && x.bucket < before));
    case _ =>
  }

  lemma {:induction false} NothingLost(worlds: seq<World>, events: seq<Event>, n: nat, q: Quantity, k: Key)
    requires IsRun(worlds, events) && n < |worlds|
    requires forall i :: 0 <= i < n ==> !Loses(worlds[i], events[i], k)
    ensures AtAll(q, k, worlds[n].lost) == 0
  {
    if n > 0 {
      NothingLost(worlds, events, n - 1, q, k);
      StepLoses(worlds[n - 1], events[n - 1], q, k);
    }
  }

  lemma {:induction false} NoRepeatsNothingTwice(worlds: seq<World>, events: seq<Event>, n: nat, q: Quantity, k: Key)
    requires IsRun(worlds, events) && n < |worlds|
    requires forall i :: 0 <= i < n ==> !Repeats(worlds[i], events[i], k)
    ensures AtAll(q, k, worlds[n].twice) == 0
  {
    if n > 0 {
      NoRepeatsNothingTwice(worlds, events, n - 1, q, k);
      RunKeepsCells(worlds, events, n - 1);
      StepRepeats(worlds[n - 1], events[n - 1], q, k);
    }
  }

  lemma RepeatAddsOne(worlds: seq<World>, events: seq<Event>, i: nat, k: Key)
    requires IsRun(worlds, events) && i < |events| && Repeats(worlds[i], events[i], k)
    ensures AtAll(Requests, k, worlds[i + 1].twice) >= 1
  {
    RunKeepsCells(worlds, events, i);
    StepRepeats(worlds[i], events[i], Requests, k);
    AtAllNonNegative(Requests, k, worlds[i].twice, OneByOne(worlds[i].log));
  }

  lemma RepeatsNeverFall(worlds: seq<World>, events: seq<Event>, i: nat, k: Key)
    requires IsRun(worlds, events) && i < |events|
    ensures AtAll(Requests, k, worlds[i + 1].twice) >= AtAll(Requests, k, worlds[i].twice)
  {
    RunKeepsCells(worlds, events, i);
    StepRepeats(worlds[i], events[i], Requests, k);
  }

  lemma {:induction false} Ascends(counts: seq<int>, i: nat, n: nat)
    requires i <= n < |counts| && forall j :: i <= j < n ==> counts[j] <= counts[j + 1]
    ensures counts[i] <= counts[n]
  {
    if i < n {
      Ascends(counts, i, n - 1);
    }
  }

  lemma RepeatCountsTwice(worlds: seq<World>, events: seq<Event>, i: nat, n: nat, k: Key)
    requires IsRun(worlds, events) && i < n < |worlds| && AtAll(Requests, k, worlds[i + 1].twice) >= 1
    ensures AtAll(Requests, k, worlds[n].twice) >= 1
  {
    var counts := seq(|worlds|, j requires 0 <= j < |worlds| => AtAll(Requests, k, worlds[j].twice));
    forall j | i + 1 <= j < n ensures counts[j] <= counts[j + 1] {
      RepeatsNeverFall(worlds, events, j, k);
    }
    Ascends(counts, i + 1, n);
  }

  /** The request count of a key is exact if and only if no failed flush merged back a cell of it that was already in
      the table. */
  lemma CountIsExactUnlessRepeated(worlds: seq<World>, events: seq<Event>, n: nat, k: Key)
    requires IsRun(worlds, events) && n < |worlds|
    ensures At(Requests, k, worlds[n].table) + Held(Requests, k, worlds[n]) + AtAll(Requests, k, worlds[n].lost)
              == Requested(Requests, k, events, n)
            <==> forall i :: 0 <= i < n ==> !Repeats(worlds[i], events[i], k)
  {
    TrafficIsConserved(worlds, events, n, Requests, k);
    if forall i :: 0 <= i < n ==> !Repeats(worlds[i], events[i], k) {
      NoRepeatsNothingTwice(worlds, events, n, Requests, k);
    } else {
      var i :| 0 <= i < n && Repeats(worlds[i], events[i], k);
      RepeatAddsOne(worlds, events, i, k);
      RepeatCountsTwice(worlds, events, i, n, k);
    }
  }

  lemma ExtendRun(worlds: seq<World>, events: seq<Event>, e: Event) returns (ws: seq<World>, es: seq<Event>)
    requires IsRun(worlds, events) && Enabled(worlds[|events|], e)
    ensures IsRun(ws, es) && |es| == |events| + 1 && ws[|es|] == Step(worlds[|events|], e)
  {
    ws, es := worlds + [Step(worlds[|events|], e)], events + [e];
    forall i | 0 <= i < |es| ensures Enabled(ws[i], es[i]) && ws[i + 1] == Step(ws[i], es[i]) {
      if i < |events| {
        assert ws[i] == worlds[i] && ws[i + 1] == worlds[i + 1];
      }
    }
  }

  /** w' is w after replica r, its memory empty, has upserted the given keys of the cells it swapped out. */
  ghost predicate HasUpserted(w: World, w': World, r: ReplicaId, pending: Cells, done: set<Key>) {
    && r in w.replicas && w'.log == w.log
    && w'.table == Added(w.table, Only(pending, done))
    && w'.replicas == w.replicas[r := Replica(map[], Some(Flight(pending, pending.Keys - done)))]
  }

  lemma UpsertStep(w: World, r: ReplicaId, f: Flight, k: Key)
    requires r in w.replicas && w.replicas[r] == Replica(map[], Some(f)) && k in f.todo && k in f.pending
    ensures Enabled(w, Upsert(r, k))
    ensures Step(w, Upsert(r, k)) ==
            w.(table := Put(w.table, k, f.pending[k]),
               replicas := w.replicas[r := Replica(map[], Some(f.(todo := f.todo - {k})))])
  {
  }

  lemma UpsertNext(w: World, w': World, r: ReplicaId, pending: Cells, done: set<Key>, k: Key)
    requires HasUpserted(w, w', r, pending, done) && k in pending && k !in done
    ensures Enabled(w', Upsert(r, k)) && HasUpserted(w, Step(w', Upsert(r, k)), r, pending, done + {k})
  {
    var f := Flight(pending, pending.Keys - done);
    AddOne(w.table, pending, done, k);
    UpsertStep(w', r, f, k);
    assert f.todo - {k} == pending.Keys - (done + {k});
  }

  lemma {:induction false} UpsertRun(w: World, worlds: seq<World>, events: seq<Event>, r: ReplicaId, pending: Cells,
                                     order: seq<Key>)
    returns (ws: seq<World>, es: seq<Event>)
    requires IsRun(worlds, events) && HasUpserted(w, worlds[|events|], r, pending, {})
    requires KeysOf(order) <= pending.Keys && Distinct(order)
    ensures IsRun(ws, es) && HasUpserted(w, ws[|es|], r, pending, KeysOf(order))
    decreases |order|
  {
    if order == [] {
      ws, es := worlds, events;
      assert KeysOf(order) == {};
    } else {
      var last, rest := order[|order| - 1], order[..|order| - 1];
      assert order == rest + [last] && last in order && last in KeysOf(order);
      KeysOfAppend(rest, last);
      ws, es := UpsertRun(w, worlds, events, r, pending, rest);
      UpsertNext(w, ws[|es|], r, pending, KeysOf(rest), last);
      ws, es := ExtendRun(ws, es, Upsert(r, last));
    }
  }

  lemma SwapOut(w: World, r: ReplicaId)
    requires r in w.replicas && w.replicas[r].flight.None? && w.replicas[r].acc != map[]
    ensures HasUpserted(w, Step(w, Swap(r)), r, w.replicas[r].acc, {})
  {
    var acc := w.replicas[r].acc;
    assert acc.Keys - {} == acc.Keys;
    assert Added(w.table, Only(acc, {})) == w.table;
  }

  /** The replica that flushed: empty, or with its cells merged back. */
  ghost function FlushedReplica(acc: Cells, order: seq<Key>, fails: bool): Replica
    requires Lists(order, acc)
  {
    assert forall x :: x in order ==> x in KeysOf(order);
    Replica(if fails then Remerge(map[], acc, order).0 else map[], None)
  }

  lemma FlushEnds(w: World, w': World, r: ReplicaId, acc: Cells, done: set<Key>, order: seq<Key>, fails: bool)
    requires HasUpserted(w, w', r, acc, done) && Lists(order, acc) && (!fails ==> done == acc.Keys)
    ensures var e := if fails then Failed(r, order) else Complete(r);
            && Enabled(w', e) && Step(w', e).table == w'.table && Step(w', e).log == w.log
            && Step(w', e).replicas == w.replicas[r := FlushedReplica(acc, order, fails)]
  {
    if !fails {
      assert acc.Keys - done == {};
    }
  }

  /** A flush that nothing interleaves with, as FlushNow describes it, is a run of these steps: it swaps, upserts n
      keys, and completes, or fails and merges everything back. */
  lemma FlushIsARun(worlds: seq<World>, events: seq<Event>, r: ReplicaId, order: seq<Key>, n: nat, fails: bool)
    returns (ws: seq<World>, es: seq<Event>)
    requires IsRun(worlds, events) && r in worlds[|events|].replicas && worlds[|events|].replicas[r].flight.None?
    requires worlds[|events|].replicas[r].acc != map[] && Lists(order, worlds[|events|].replicas[r].acc)
    requires n <= |order| && (!fails ==> n == |order|)
    ensures IsRun(ws, es)
    ensures var w, w' := worlds[|events|], ws[|es|];
            var acc := w.replicas[r].acc;
            && w'.table == Added(w.table, Only(acc, KeysOf(order[..n]))) && w'.log == w.log
            && w'.replicas == w.replicas[r := FlushedReplica(acc, order, fails)]
  {
    var w, acc := worlds[|events|], worlds[|events|].replicas[r].acc;
    ws, es := ExtendRun(worlds, events, Swap(r));
    SwapOut(w, r);
    assert KeysOf(order[..n]) <= KeysOf(order);
    ws, es := UpsertRun(w, ws, es, r, acc, order[..n]);
    assert n == |order| ==> order[..n] == order;
    FlushEnds(w, ws[|es|], r, acc, KeysOf(order[..n]), order, fails);
    ws, es := ExtendRun(ws, es, if fails then Failed(r, order) else Complete(r));
  }

  /** Swap and upsert of the only key in memory. */
  lemma FlushOne(worlds: seq<World>, events: seq<Event>, k: Key, c: Cell) returns (ws: seq<World>, es: seq<Event>)
    requires IsRun(worlds, events) && 0 in worlds[|events|].replicas
    requires worlds[|events|].replicas[0] == Replica(map[k := c], None)
    ensures IsRun(ws, es)
    ensures var w, w' := worlds[|events|], ws[|es|];
            && w'.table == Put(w.table, k, c) && w'.log == w.log
            && w'.replicas.Keys == w.replicas.Keys && w'.replicas[0] == Replica(map[], Some(Flight(map[k := c], {})))
  {
    assert map[k := c].Keys == {k} && k in map[k := c];
    ws, es := ExtendRun(worlds, events, Swap(0));
    assert ws[|es|].replicas[0] == Replica(map[], Some(Flight(map[k := c], {k})));
    ws, es := ExtendRun(ws, es, Upsert(0, k));
    assert {k} - {k} == {};
  }

  /** The flush of the only key fails after its upsert was committed. */
  lemma FailOne(worlds: seq<World>, events: seq<Event>, k: Key, c: Cell) returns (ws: seq<World>, es: seq<Event>)
    requires IsRun(worlds, events) && 0 in worlds[|events|].replicas
    requires worlds[|events|].replicas[0] == Replica(map[], Some(Flight(map[k := c], {})))
    ensures IsRun(ws, es)
    ensures var w, w' := worlds[|events|], ws[|es|];
            && w'.table == w.table && w'.log == w.log
            && w'.replicas.Keys == w.replicas.Keys && w'.replicas[0] == Replica(map[k := c], None)
  {
    assert [k][0] in [k];
    assert [k][..0] == [];
    ws, es := ExtendRun(worlds, events, Failed(0, [k]));
    assert Remerge(map[], map[k := c], []) == (map[], {});
    assert Remerge(map[], map[k := c], [k]) == (Put(map[], k, c), {});
  }

  /** It does happen: one request, whose first flush fails after the commit, is counted twice in the table. */
  lemma CountedTwiceIsReachable(k: Key, d: int, t: int) returns (worlds: seq<World>, events: seq<Event>)
    ensures IsRun(worlds, events)
    ensures var w, c := worlds[|events|], RequestCell(d, t);
            w.log == [Entry(k, c)] && w.table == map[k := Merge(c, c)] && w.replicas == map[0 := Replica(map[], None)]
  {
    var c := RequestCell(d, t);
    worlds, events := ExtendRun([World(map[], map[], [], [], [])], [], Start(0));
    worlds, events := ExtendRun(worlds, events, Record(0, k, d, t, None));
    assert worlds[|events|].replicas[0] == Replica(map[k := c], None);
    worlds, events := FlushOne(worlds, events, k, c);
    worlds, events := FailOne(worlds, events, k, c);
    worlds, events := FlushOne(worlds, events, k, c);
    worlds, events := ExtendRun(worlds, events, Complete(0));
  }

  // ---- The maximum ----

  ghost predicate StoredSomewhere(w: World, k: Key, m: int) {
    || (k in w.table && w.table[k].durationMax == m)
    || exists r :: r in w.replicas && StoredIn(w.replicas[r], k, m)
  }

  predicate StoredIn(p: Replica, k: Key, m: int) {
    || (k in p.acc && p.acc[k].durationMax == m)
    || (k in InFlight(p) && InFlight(p)[k].durationMax == m)
  }

  /** The largest duration recorded under k is stored somewhere. */
  ghost predicate MaxStored(w: World, k: Key) {
    k in OneByOne(w.log) ==> StoredSomewhere(w, k, OneByOne(w.log)[k].durationMax)
  }

  /** The cells of key k after a record under another key that does not evict it, or under k. */
  lemma RecordedCell(p: Replica, k: Key, key: Key, c: Cell, victim: Option<Key>)
    requires Evicts(p.acc, key, victim) && victim != Some(k)
    ensures var acc := RecordIn(p.acc, key, c, victim);
            && (k in p.acc && k != key ==> k in acc && acc[k] == p.acc[k])
            && (k in p.acc && k == key ==> k in acc && acc[k] == Merge(p.acc[k], c))
            && (k !in p.acc && k == key ==> k in acc && acc[k] == c)
  {
  }

  /** A record leaves a maximum where it is, unless it brings a larger one. */
  lemma RecordKeepsStored(w: World, e: Event, k: Key, m: int)
    requires Enabled(w, e) && e.Record? && e.victim != Some(k) && StoredSomewhere(w, k, m)
    requires k == e.key ==> RequestCell(e.durationMs, e.tokens).durationMax <= m
    ensures StoredSomewhere(Step(w, e), k, m)
  {
    if !(k in w.table && w.table[k].durationMax == m) {
      var r :| r in w.replicas && StoredIn(w.replicas[r], k, m);
      RecordedCell(w.replicas[e.r], k, e.key, RequestCell(e.durationMs, e.tokens), e.victim);
      assert StoredIn(Step(w, e).replicas[r], k, m);
    }
  }

  lemma RecordStoresLargest(w: World, e: Event)
    requires Enabled(w, e) && e.Record? && e.victim != Some(e.key)
    requires var c, acc := RequestCell(e.durationMs, e.tokens), w.replicas[e.r].acc;
             e.key in acc ==> acc[e.key].durationMax <= c.durationMax
    ensures StoredSomewhere(Step(w, e), e.key, RequestCell(e.durationMs, e.tokens).durationMax)
  {
    var c := RequestCell(e.durationMs, e.tokens);
    RecordedCell(w.replicas[e.r], e.key, e.key, c, e.victim);
    assert StoredIn(Step(w, e).replicas[e.r], e.key, c.durationMax);
  }

  lemma RecordKeepsMax(w: World, e: Event, k: Key)
    requires Enabled(w, e) && WorldOk(w) && MaxStored(w, k) && e.Record? && !Loses(w, e, k)
    ensures MaxStored(Step(w, e), k)
  {
    var c, reference := RequestCell(e.durationMs, e.tokens), OneByOne(w.log);
    OneByOneAppend(w.log, Entry(e.key, c));
    assert ReplicaOk(w.replicas[e.r], reference);
    if k == e.key && (k !in reference || reference[k].durationMax <= c.durationMax) {
      RecordStoresLargest(w, e);
    } else if k in reference {
      RecordKeepsStored(w, e, k, reference[k].durationMax);
    }
  }

  /** Where a maximum is stored after a flush failed: merged back with its cell, unless that was dropped. */
  lemma FailedKeepsStored(w: World, e: Event, k: Key, m: int)
    requires Enabled(w, e) && WorldOk(w) && e.Failed? && !Loses(w, e, k) && k in OneByOne(w.log)
    requires m == OneByOne(w.log)[k].durationMax && StoredIn(w.replicas[e.r], k, m)
    ensures StoredIn(Step(w, e).replicas[e.r], k, m)
  {
    var p := w.replicas[e.r];
    assert ReplicaOk(p, OneByOne(w.log));
    assert forall x :: x in e.order <==> x in p.flight.value.pending.Keys;
    RemergeAt(p.acc, p.flight.value.pending, e.order, k);
  }

  lemma FailedKeepsMax(w: World, e: Event, k: Key)
    requires Enabled(w, e) && WorldOk(w) && MaxStored(w, k) && e.Failed? && !Loses(w, e, k)
    ensures MaxStored(Step(w, e), k)
  {
    if k in OneByOne(w.log) {
      var m := OneByOne(w.log)[k].durationMax;
      if !(k in w.table && w.table[k].durationMax == m) {
        var r :| r in w.replicas && StoredIn(w.replicas[r], k, m);
        if r == e.r {
          FailedKeepsStored(w, e, k, m);
        }
        assert StoredIn(Step(w, e).replicas[r], k, m);
      }
    }
  }

  /** A flush moves cells along without changing which of them is the largest. */
  lemma FlightKeepsMax(w: World, e: Event, k: Key)
    requires Enabled(w, e) && MaxStored(w, k) && (e.Swap? || e.Complete?)
    ensures MaxStored(Step(w, e), k)
  {
    var w' := Step(w, e);
    if k in OneByOne(w.log) {
      var m := OneByOne(w.log)[k].durationMax;
      if !(k in w.table && w.table[k].durationMax == m) {
        var r :| r in w.replicas && StoredIn(w.replicas[r], k, m);
        assert StoredIn(w'.replicas[r], k, m);
      }
    }
  }

  lemma UpsertKeepsMax(w: World, e: Event, k: Key)
    requires Enabled(w, e) && MaxStored(w, k) && e.Upsert? && CellsOk(w.table, OneByOne(w.log))
    requires CellsOk(w.replicas[e.r].flight.value.pending, OneByOne(w.log))
    ensures MaxStored(Step(w, e), k)
  {
    var w' := Step(w, e);
    if k in OneByOne(w.log) {
      var m := OneByOne(w.log)[k].durationMax;
      if !(k in w.table && w.table[k].durationMax == m) {
        var r :| r in w.replicas && StoredIn(w.replicas[r], k, m);
        if k != e.key || r != e.r {
          assert StoredIn(w'.replicas[r], k, m);
        } else if k in w.replicas[r].acc && w.replicas[r].acc[k].durationMax == m {
          assert StoredIn(w'.replicas[r], k, m);
        } else {
          assert w'.table[k].durationMax == m;
        }
      }
    }
  }

  lemma OtherKeepsMax(w: World, e: Event, k: Key)
    requires Enabled(w, e) && MaxStored(w, k) && (e.Start? || e.Crash? || e.Purge?) && !Loses(w, e, k)
    ensures MaxStored(Step(w, e), k)
  {
    var w' := Step(w, e);
    if k in OneByOne(w.log) {
      var m := OneByOne(w.log)[k].durationMax;
      if k in w.table && w.table[k].durationMax == m {
        assert k in w'.table;
      } else {
        var r :| r in w.replicas && StoredIn(w.replicas[r], k, m);
        assert StoredIn(w'.replicas[r], k, m);
      }
    }
  }

  /** Unless a cell of the key was given up, the largest duration recorded under it is stored somewhere. */
  lemma {:induction false} RunKeepsMax(worlds: seq<World>, events: seq<Event>, n: nat, k: Key)
    requires IsRun(worlds, events) && n < |worlds|
    requires forall i :: 0 <= i < n ==> !Loses(worlds[i], events[i], k)
    ensures MaxStored(worlds[n], k)
  {
    if n > 0 {
      var w, e := worlds[n - 1], events[n - 1];
      RunKeepsMax(worlds, events, n - 1, k);
      RunKeepsCells(worlds, events, n - 1);
      match e
      case Record(_, _, _, _, _) => RecordKeepsMax(w, e, k);
      case Failed(_, _) => FailedKeepsMax(w, e, k);
      case Swap(_) => FlightKeepsMax(w, e, k);
      case Upsert(r, _) =>
        assert ReplicaOk(w.replicas[r], OneByOne(w.log));
        UpsertKeepsMax(w, e, k);
      case Complete(_) => FlightKeepsMax(w, e, k);
      case _ => OtherKeepsMax(w, e, k);
    }
  }

  // ---- Agreement with one upsert per request ----

  /** Nothing of key k is waiting in memory or in flight. */
  ghost predicate Flushed(w: World, k: Key) {
    forall r :: r in w.replicas ==> k !in w.replicas[r].acc && k !in InFlight(w.replicas[r])
  }

  lemma {:induction false} OneByOneTotals(log: seq<Entry>, q: Quantity, k: Key)
    ensures At(q, k, OneByOne(log)) == Recorded(q, k, log)
  {
    if log != [] {
      OneByOneTotals(log[..|log| - 1], q, k);
    }
  }

  lemma FlushedHoldsNothing(w: World, q: Quantity, k: Key)
    requires Flushed(w, k)
    ensures Held(q, k, w) == 0
  {
    SumEqual(w.replicas.Keys, r => HeldBy(q, k, w, r), r => 0);
    SumOfZeros(w.replicas.Keys);
  }

  lemma {:induction false} SumOfZeros(s: set<ReplicaId>)
    ensures Sum(s, r => 0) == 0
  {
    if s != {} {
      SumOfZeros(s - {Pick(s)});
      SumEqual(s - {Pick(s)}, r => 0, r => 0);
    }
  }

  /** A flushed key that lost nothing has the exact maximum in the table, whatever flushes failed on the way. */
  lemma MaximumIsExact(worlds: seq<World>, events: seq<Event>, n: nat, k: Key)
    requires IsRun(worlds, events) && n < |worlds| && Flushed(worlds[n], k)
    requires forall i :: 0 <= i < n ==> !Loses(worlds[i], events[i], k)
    ensures k in worlds[n].table <==> k in OneByOne(worlds[n].log)
    ensures k in worlds[n].table ==> worlds[n].table[k].durationMax == OneByOne(worlds[n].log)[k].durationMax
    ensures k in worlds[n].table <==> exists i :: 0 <= i < n && Records(events[i], k)
    ensures k in worlds[n].table ==> IsLargest(events, n, k, worlds[n].table[k].durationMax)
  {
    RunKeepsMax(worlds, events, n, k);
    RunKeepsCells(worlds, events, n);
    LogIsEntries(worlds, events, n);
    EntriesAreLargest(events, n, k);
  }

  /** A flushed key that lost nothing and that no failed flush repeated reads exactly as if every request
      of every replica had been upserted by itself. */
  lemma FlushedEqualsOneByOne(worlds: seq<World>, events: seq<Event>, n: nat, k: Key)
    requires IsRun(worlds, events) && n < |worlds| && Flushed(worlds[n], k)
    requires forall i :: 0 <= i < n ==> !Loses(worlds[i], events[i], k)
    requires forall i :: 0 <= i < n ==> !Repeats(worlds[i], events[i], k)
    ensures k in worlds[n].table <==> k in OneByOne(worlds[n].log)
    ensures k in worlds[n].table ==> worlds[n].table[k] == OneByOne(worlds[n].log)[k]
  {
    var w := worlds[n];
    MaximumIsExact(worlds, events, n, k);
    forall q: Quantity ensures At(q, k, w.table) == At(q, k, OneByOne(w.log)) {
      RunBalances(worlds, events, n, q, k);
      NoRepeatsNothingTwice(worlds, events, n, q, k);
      FlushedHoldsNothing(w, q, k);
      NothingLost(worlds, events, n, q, k);
      OneByOneTotals(w.log, q, k);
    }
    assert At(Requests, k, w.table) == At(Requests, k, OneByOne(w.log));
    assert At(Duration, k, w.table) == At(Duration, k, OneByOne(w.log));
    assert At(Tokens, k, w.table) == At(Tokens, k, OneByOne(w.log));
  }

  /** The row of such a key counts exactly its requests: their number, durations, largest duration and tokens. */
  lemma FlushedCountsRequests(worlds: seq<World>, events: seq<Event>, n: nat, k: Key)
    requires IsRun(worlds, events) && n < |worlds| && Flushed(worlds[n], k)
    requires forall i :: 0 <= i < n ==> !Loses(worlds[i], events[i], k)
    requires forall i :: 0 <= i < n ==> !Repeats(worlds[i], events[i], k)
    ensures k in worlds[n].table <==> exists i :: 0 <= i < n && Records(events[i], k)
    ensures k in worlds[n].table ==>
              var row := worlds[n].table[k];
              && row.count == Requested(Requests, k, events, n) && row.durationSum == Requested(Duration, k, events, n)
              && row.tokens == Requested(Tokens, k, events, n) && IsLargest(events, n, k, row.durationMax)
  {
    MaximumIsExact(worlds, events, n, k);
    forall q: Quantity ensures At(q, k, worlds[n].table) == Requested(q, k, events, n) {
      TrafficIsConserved(worlds, events, n, q, k);
      NoRepeatsNothingTwice(worlds, events, n, q, k);
      FlushedHoldsNothing(worlds[n], q, k);
      NothingLost(worlds, events, n, q, k);
    }
    assert At(Requests, k, worlds[n].table) == Requested(Requests, k, events, n);
    assert At(Duration, k, worlds[n].table) == Requested(Duration, k, events, n);
    assert At(Tokens, k, worlds[n].table) == Requested(Tokens, k, events, n);
  }

  lemma PutsCommute(m: Cells, a: Entry, b: Entry)
    ensures Put(Put(m, a.key, a.cell), b.key, b.cell) == Put(Put(m, b.key, b.cell), a.key, a.cell)
  {
  }

  lemma {:induction false} LastCanComeEarlier(a: seq<Entry>, e: Entry, b: seq<Entry>)
    ensures OneByOne(a + [e] + b) == Put(OneByOne(a + b), e.key, e.cell)
  {
    if b == [] {
      OneByOneAppend(a, e);
      assert a + [e] + b == a + [e] && a + b == a;
    } else {
      var init, last := b[..|b| - 1], b[|b| - 1];
      LastCanComeEarlier(a, e, init);
      assert a + [e] + b == (a + [e] + init) + [last] && a + b == (a + init) + [last];
      OneByOneAppend(a + [e] + init, last);
      OneByOneAppend(a + init, last);
      PutsCommute(OneByOne(a + init), e, last);
    }
  }

  /** The reference does not depend on the order in which the requests came in. */
  lemma {:induction false} RequestOrderIsIrrelevant(a: seq<Entry>, b: seq<Entry>)
    requires multiset(a) == multiset(b)
    ensures OneByOne(a) == OneByOne(b)
    decreases |b|
  {
    if b == [] {
      assert |multiset(a)| == |a|;
    } else {
      var init, last := b[..|b| - 1], b[|b| - 1];
      assert b == init + [last];
      assert last in multiset(a);
      var i :| 0 <= i < |a| && a[i] == last;
      var rest := a[..i] + a[i + 1..];
      assert a == a[..i] + [last] + a[i + 1..];
      assert multiset(rest) == multiset(a) - multiset{last};
      assert multiset(init) == multiset(b) - multiset{last};
      LastCanComeEarlier(a[..i], last, a[i + 1..]);
      RequestOrderIsIrrelevant(rest, init);
      OneByOneAppend(init, last);
    }
  }

  /** With everything flushed, nothing lost and nothing repeated, the whole table is what one upsert per request
      would have made of the same requests, taken in any order. */
  lemma TableAgreesWithRequests(worlds: seq<World>, events: seq<Event>, n: nat, requests: seq<Entry>)
    requires IsRun(worlds, events) && n < |worlds|
    requires forall k :: Flushed(worlds[n], k)
    requires forall i, k :: 0 <= i < n ==> !Loses(worlds[i], events[i], k) && !Repeats(worlds[i], events[i], k)
    requires multiset(requests) == multiset(worlds[n].log)
    ensures worlds[n].table == OneByOne(requests)
  {
    forall k ensures k in worlds[n].table <==> k in OneByOne(worlds[n].log)
             ensures k in worlds[n].table ==> worlds[n].table[k] == OneByOne(worlds[n].log)[k]
    {
      FlushedEqualsOneByOne(worlds, events, n, k);
    }
    RequestOrderIsIrrelevant(requests, worlds[n].log);
  }
}
