/** Propagation of configuration edits to one pod, every step that others can interleave with kept apart.

    An administrator's transaction changes one override and raises the generation, atomically. The pod reads the
    generation, then the overrides, in two separate statements; it applies the overrides key by key; only then
    does it record the generation it read first. Reloads are made by one thread (start-up, then the sync loop). */
module ConfigSync {
  import opened Common
  import opened RuntimeConfig

  /** generation is None while config_state has no row. */
  datatype Database = Database(generation: Option<int>, table: Table)

  /** Where the reloading thread stands. In Applying, source is the database at the time the rows were read. */
  datatype Progress =
    | Idle
    | Noticed
    | GenerationRead(gen: Option<int>)
    | Applying(gen: Option<int>, source: Database, todo: set<Key>)

  datatype World = World(db: Database, pod: Pod, at: Progress)

  datatype Event =
    | AdminSet(key: Key, row: Row)
    | AdminReset(key: Key)
    | SchemaApplied
    | Snapshot
    | Poll
    | BootReload
    | ReadGeneration
    | ReadRows
    | ApplyOne(key: Key)
    | Record
    | Fail

  datatype Setup = Setup(text: Text, registry: Registry)

  predicate IsAdmin(e: Event) {
    e.AdminSet? || e.AdminReset? || e.SchemaApplied?
  }

  predicate Enabled(u: Setup, w: World, e: Event) {
    match e
    case AdminSet(_, _) => w.db.generation.Some?
    case AdminReset(_) => w.db.generation.Some?
    case SchemaApplied => w.db.generation.None?
    case Snapshot => w.at.Idle? && Capturable(u.text, u.registry, w.pod.env, w.pod.settings)
    case Poll => w.at.Idle? && w.pod.baselineReady
    case BootReload => w.at.Idle? && w.pod.baselineReady && w.pod.applied == -1
    case ReadGeneration => w.at.Noticed?
    case ReadRows => w.at.GenerationRead?
    case ApplyOne(k) =>
      && w.at.Applying? && k in w.at.todo && k in u.registry
      && Settable(EnvValue(u.text, u.registry, w.pod.baseline, w.pod.overrides, k))
    case Record => w.at.Applying? && w.at.todo == {}
    case Fail => !w.at.Idle?
  }

  function Step(u: Setup, w: World, e: Event): World
    requires Enabled(u, w, e)
  {
    match e
    case AdminSet(k, row) => w.(db := Database(Some(w.db.generation.value + 1), w.db.table[k := row]))
    case AdminReset(k) => w.(db := Database(Some(w.db.generation.value + 1), w.db.table - {k}))
    case SchemaApplied => w.(db := w.db.(generation := Some(1)))
    case Snapshot => w.(pod := SnapshotIn(u.text, u.registry, w.pod))
    case Poll => if w.db.generation.Some? && w.db.generation.value != w.pod.applied then w.(at := Noticed) else w
    case BootReload => w.(at := Noticed)
    case ReadGeneration => w.(at := GenerationRead(w.db.generation))
    case ReadRows =>
      w.(at := Applying(w.at.gen, w.db, u.registry.Keys),
         pod := w.pod.(overrides := Decoded(u.text, u.registry, w.db.table)))
    case ApplyOne(k) =>
      w.(at := w.at.(todo := w.at.todo - {k}), pod := ApplyKey(u.text, u.registry, w.pod, w.pod.overrides, k))
    case Record =>
      w.(at := Idle,
         pod := w.pod.(applied := if w.at.gen.Some? then w.at.gen.value else w.pod.applied, configReady := true))
    case Fail => w.(at := Idle)
  }

  /** A pod starts with nothing captured and nothing applied. */
  predicate Initial(w: World) {
    && w.at.Idle?
    && w.pod == Pod(w.pod.env, w.pod.settings, map[], false, map[], -1, false)
    && (w.db.generation.Some? ==> w.db.generation.value >= 1)
  }

  ghost predicate IsRun(u: Setup, worlds: seq<World>, events: seq<Event>) {
    && |worlds| == |events| + 1
    && Initial(worlds[0])
    && forall i :: 0 <= i < |events| ==>
         Enabled(u, worlds[i], events[i]) && worlds[i + 1] == Step(u, worlds[i], events[i])
  }

  // ---- The invariant ----

  predicate AtMost(a: Option<int>, b: Option<int>) {
    a.Some? ==> b.Some? && a.value <= b.value
  }

  /** The recorded generation is older than the database's. */
  predicate Behind(w: World) {
    if w.db.generation.Some? then w.pod.applied < w.db.generation.value else w.pod.applied == -1
  }

  /** A past database: no younger than the present one, and equal to it unless an edit came between. */
  predicate Past(old_: Database, now: Database) {
    && AtMost(old_.generation, now.generation)
    && (old_.generation.Some? && old_.generation == now.generation ==> old_.table == now.table)
  }

  /** Key k shows the overrides, which could be put in the environment. */
  predicate IsApplied(u: Setup, pod: Pod, overrides: map<Key, Value>, k: Key)
    requires k in u.registry
  {
    && Shows(u.text, u.registry, pod, overrides, k)
    && Settable(EnvValue(u.text, u.registry, pod.baseline, overrides, k))
  }

  ghost predicate Inv(u: Setup, w: World) {
    && (w.db.generation.Some? ==> w.db.generation.value >= 1)
    && w.pod.applied >= -1
    && (!w.pod.baselineReady ==> w.pod.applied == -1 && w.at.Idle?)
    && (w.pod.applied >= 0 ==> AtMost(Some(w.pod.applied), w.db.generation))
    && (!w.at.Idle? ==> Behind(w))
    && (w.at.GenerationRead? ==> AtMost(Some(1), w.at.gen) || w.at.gen.None?)
    && (w.at.GenerationRead? ==> AtMost(w.at.gen, w.db.generation))
    && (w.at.Applying? ==>
          && (AtMost(Some(1), w.at.gen) || w.at.gen.None?)
          && AtMost(w.at.gen, w.at.source.generation)
          && Past(w.at.source, w.db)
          && w.pod.overrides == Decoded(u.text, u.registry, w.at.source.table)
          && w.at.todo <= u.registry.Keys
          && forall k :: k in u.registry && k !in w.at.todo ==> IsApplied(u, w.pod, w.pod.overrides, k))
    && (w.db.generation == Some(w.pod.applied) ==>
          forall k :: k in u.registry ==> IsApplied(u, w.pod, Decoded(u.text, u.registry, w.db.table), k))
  }

  lemma AdminKeepsInv(u: Setup, w: World, e: Event)
    requires Inv(u, w) && Enabled(u, w, e) && IsAdmin(e)
    ensures Inv(u, Step(u, w, e))
  {
  }

  lemma ApplyOneKeepsInv(u: Setup, w: World, k: Key)
    requires Inv(u, w) && Enabled(u, w, ApplyOne(k))
    ensures Inv(u, Step(u, w, ApplyOne(k)))
  {
    var w' := Step(u, w, ApplyOne(k));
    forall n | n in u.registry && n !in w'.at.todo ensures IsApplied(u, w'.pod, w'.pod.overrides, n) {
      assert n != k ==> IsApplied(u, w.pod, w.pod.overrides, n);
    }
  }

  lemma RecordKeepsInv(u: Setup, w: World)
    requires Inv(u, w) && Enabled(u, w, Record)
    ensures Inv(u, Step(u, w, Record))
  {
    var w' := Step(u, w, Record);
    if w'.db.generation == Some(w'.pod.applied) {
      assert w.at.source.table == w.db.table;
      forall k | k in u.registry ensures IsApplied(u, w'.pod, Decoded(u.text, u.registry, w.db.table), k) {
        assert IsApplied(u, w.pod, w.pod.overrides, k);
      }
    }
  }

  lemma StepKeepsInv(u: Setup, w: World, e: Event)
    requires Inv(u, w) && Enabled(u, w, e)
    ensures Inv(u, Step(u, w, e))
  {
    if IsAdmin(e) {
      AdminKeepsInv(u, w, e);
    } else if e.ApplyOne? {
      ApplyOneKeepsInv(u, w, e.key);
    } else if e.Record? {
      RecordKeepsInv(u, w);
    }
  }

  lemma {:induction false} RunKeepsInv(u: Setup, worlds: seq<World>, events: seq<Event>, n: nat)
    requires IsRun(u, worlds, events) && n < |worlds|
    ensures Inv(u, worlds[n])
  {
    if n > 0 {
      RunKeepsInv(u, worlds, events, n - 1);
      StepKeepsInv(u, worlds[n - 1], events[n - 1]);
    }
  }

  lemma AppliedIsShown(u: Setup, pod: Pod, overrides: map<Key, Value>)
    requires forall k :: k in u.registry ==> IsApplied(u, pod, overrides, k)
    ensures ShowsAll(u.text, u.registry, pod, overrides)
    ensures Applicable(u.text, u.registry, pod.baseline, overrides)
  {
    forall k | k in u.registry
      ensures Shows(u.text, u.registry, pod, overrides, k)
      ensures Settable(EnvValue(u.text, u.registry, pod.baseline, overrides, k))
    {
      assert IsApplied(u, pod, overrides, k);
    }
  }

  // ---- What a recorded generation guarantees ----

  /** Whenever the recorded generation equals the database's, the environment and settings are exactly the baseline
      overlaid with the overrides now in the table, in every interleaving of edits, reads, application and failures. */
  lemma RecordedMeansCurrent(u: Setup, worlds: seq<World>, events: seq<Event>, n: nat)
    requires IsRun(u, worlds, events) && n < |worlds|
    requires worlds[n].db.generation == Some(worlds[n].pod.applied)
    ensures ShowsAll(u.text, u.registry, worlds[n].pod, Decoded(u.text, u.registry, worlds[n].db.table))
    ensures Applicable(u.text, u.registry, worlds[n].pod.baseline, Decoded(u.text, u.registry, worlds[n].db.table))
  {
    RunKeepsInv(u, worlds, events, n);
    AppliedIsShown(u, worlds[n].pod, Decoded(u.text, u.registry, worlds[n].db.table));
  }

  /** The rows being applied are the whole table as it was at one earlier moment. */
  lemma {:induction false} RowsComeFromOneMoment(u: Setup, worlds: seq<World>, events: seq<Event>, n: nat)
    returns (i: nat)
    requires IsRun(u, worlds, events) && n < |worlds| && worlds[n].at.Applying?
    ensures i <= n && worlds[i].db == worlds[n].at.source
  {
    if events[n - 1].ReadRows? {
      i := n - 1;
    } else {
      i := RowsComeFromOneMoment(u, worlds, events, n - 1);
    }
  }

  /** A recorded generation is never newer than the table that was applied, and that table is entirely in effect. */
  lemma RecordedIsNeverNewer(u: Setup, worlds: seq<World>, events: seq<Event>, n: nat) returns (i: nat)
    requires IsRun(u, worlds, events) && n < |events| && events[n].Record?
    ensures i <= n
    ensures worlds[n].at.gen.Some? ==>
              && worlds[n + 1].pod.applied == worlds[n].at.gen.value
              && AtMost(Some(worlds[n + 1].pod.applied), worlds[i].db.generation)
    ensures worlds[n].at.gen.None? ==> worlds[n + 1].pod.applied == worlds[n].pod.applied
    ensures ShowsAll(u.text, u.registry, worlds[n + 1].pod, Decoded(u.text, u.registry, worlds[i].db.table))
  {
    RunKeepsInv(u, worlds, events, n);
    i := RowsComeFromOneMoment(u, worlds, events, n);
    AppliedIsShown(u, worlds[n].pod, worlds[n].pod.overrides);
  }

  // ---- The baseline ----

  /** pod descends from first: until the capture nothing has changed; after it, the baseline is the one of the
      environment at start-up; and outside the registry everything is as it was. */
  ghost predicate FromOrigin(u: Setup, first: Pod, pod: Pod) {
    && (!pod.baselineReady ==> pod == first) && first.baseline == map[]
    && (pod.baselineReady ==>
          && Capturable(u.text, u.registry, first.env, first.settings)
          && pod.baseline == BaselineOf(u.text, u.registry, first.env, first.settings))
    && SameElsewhere(u.registry, first, pod)
  }

  lemma ApplyKeepsOrigin(u: Setup, first: Pod, pod: Pod, overrides: map<Key, Value>, k: Key)
    requires FromOrigin(u, first, pod) && pod.baselineReady && k in u.registry
    ensures FromOrigin(u, first, ApplyKey(u.text, u.registry, pod, overrides, k))
  {
    ApplyKeyKeeps(u.text, u.registry, first, pod, overrides, k, u.registry.Keys);
  }

  /** The origin does not depend on what was read or recorded. */
  lemma RecordsKeepOrigin(u: Setup, first: Pod, pod: Pod, pod': Pod)
    requires FromOrigin(u, first, pod) && (pod.baselineReady || pod' == pod)
    requires pod'.env == pod.env && pod'.settings == pod.settings
    requires pod'.baseline == pod.baseline && pod'.baselineReady == pod.baselineReady
    ensures FromOrigin(u, first, pod')
  {
  }

  lemma StepKeepsOrigin(u: Setup, first: Pod, w: World, e: Event)
    requires Inv(u, w) && Enabled(u, w, e) && FromOrigin(u, first, w.pod)
    ensures FromOrigin(u, first, Step(u, w, e).pod)
  {
    if e.ApplyOne? {
      ApplyKeepsOrigin(u, first, w.pod, w.pod.overrides, e.key);
    } else if !e.Snapshot? {
      RecordsKeepOrigin(u, first, w.pod, Step(u, w, e).pod);
    }
  }

  /** However many overrides have been applied and removed, the baseline stays that of the starting environment. */
  lemma {:induction false} BaselineIsNeverContaminated(u: Setup, worlds: seq<World>, events: seq<Event>, n: nat)
    requires IsRun(u, worlds, events) && n < |worlds|
    ensures FromOrigin(u, worlds[0].pod, worlds[n].pod)
  {
    if n > 0 {
      BaselineIsNeverContaminated(u, worlds, events, n - 1);
      RunKeepsInv(u, worlds, events, n - 1);
      StepKeepsOrigin(u, worlds[0].pod, worlds[n - 1], events[n - 1]);
    }
  }

  // ---- Convergence ----

  /** Nothing left to do: the pod has recorded the database's generation. */
  predicate Settled(w: World) {
    w.at.Idle? && w.pod.baselineReady && w.db.generation == Some(w.pod.applied)
  }

  /** Steps m + 1 .. n - 1 are those of one reload: rows read, keys applied, recorded; no edit, no failure. */
  ghost predicate Uninterrupted(events: seq<Event>, m: nat, n: nat)
    requires n <= |events|
  {
    forall i :: m < i < n ==> events[i].ReadRows? || events[i].ApplyOne? || events[i].Record?
  }

  lemma {:induction false} ReloadHoldsGeneration(u: Setup, worlds: seq<World>, events: seq<Event>, m: nat, n: nat)
    requires IsRun(u, worlds, events) && m < n < |worlds|
    requires events[m].ReadGeneration? && worlds[m].db.generation.Some? && Uninterrupted(events, m, n)
    ensures worlds[n].db == worlds[m].db
    ensures worlds[n].at.GenerationRead? || worlds[n].at.Applying? ==> worlds[n].at.gen == worlds[n].db.generation
    ensures !worlds[n].at.Noticed?
    ensures worlds[n].at.Idle? ==> worlds[n].db.generation == Some(worlds[n].pod.applied)
  {
    assert worlds[n] == Step(u, worlds[n - 1], events[n - 1]);
    if m + 1 < n {
      ReloadHoldsGeneration(u, worlds, events, m, n - 1);
    }
  }

  /** Once edits stop, a reload that completes leaves the pod settled on the final table. */
  lemma OneReloadSettles(u: Setup, worlds: seq<World>, events: seq<Event>, m: nat, n: nat)
    requires IsRun(u, worlds, events) && m + 1 < n < |worlds|
    requires events[m].ReadGeneration? && worlds[m].db.generation.Some?
    requires Uninterrupted(events, m, n) && events[n - 1].Record?
    ensures Settled(worlds[n])
    ensures ShowsAll(u.text, u.registry, worlds[n].pod, Decoded(u.text, u.registry, worlds[m].db.table))
  {
    ReloadHoldsGeneration(u, worlds, events, m, n);
    RecordedMeansCurrent(u, worlds, events, n);
    RunKeepsInv(u, worlds, events, n - 1);
  }

  /** From then on no step of the pod changes anything, until the next edit. */
  lemma {:induction false} SettledStays(u: Setup, worlds: seq<World>, events: seq<Event>, i: nat, n: nat)
    requires IsRun(u, worlds, events) && i <= n < |worlds| && Settled(worlds[i])
    requires forall j :: i <= j < n ==> !IsAdmin(events[j])
    ensures worlds[n] == worlds[i]
  {
    if i < n {
      SettledStays(u, worlds, events, i, n - 1);
      RunKeepsInv(u, worlds, events, n - 1);
      assert worlds[n] == Step(u, worlds[n - 1], events[n - 1]);
    }
  }

  /** The stale state is noticed: a poll of a pod that is not settled starts a reload. */
  lemma PollNoticesEdits(u: Setup, w: World)
    requires Inv(u, w) && Enabled(u, w, Poll) && w.db.generation.Some?
    ensures Step(u, w, Poll).at.Noticed? <==> !Settled(w)
    ensures !ShowsAll(u.text, u.registry, w.pod, Decoded(u.text, u.registry, w.db.table)) ==>
              Step(u, w, Poll).at.Noticed?
  {
    if w.db.generation == Some(w.pod.applied) {
      AppliedIsShown(u, w.pod, Decoded(u.text, u.registry, w.db.table));
    }
  }

  // ---- From an administrator's edit to the environment ----

  function EditedKey(e: Event): Option<Key> {
    match e
    case AdminSet(k, _) => Some(k)
    case AdminReset(k) => Some(k)
    case _ => None
  }

  function RowOf(w: World, k: Key): Option<Row> {
    if k in w.db.table then Some(w.db.table[k]) else None
  }

  /** An edit unsettles every pod: the generation now in the database is newer than the one the pod recorded, and no
      row but the one edited has changed. */
  lemma EditsUnsettle(u: Setup, worlds: seq<World>, events: seq<Event>, n: nat)
    requires IsRun(u, worlds, events) && n < |events| && IsAdmin(events[n])
    ensures !Settled(worlds[n + 1])
    ensures worlds[n + 1].db.generation.Some? && worlds[n + 1].pod.applied < worlds[n + 1].db.generation.value
    ensures forall k :: EditedKey(events[n]) != Some(k) ==> RowOf(worlds[n + 1], k) == RowOf(worlds[n], k)
  {
    RunKeepsInv(u, worlds, events, n);
  }

  lemma {:induction false} RowStays(u: Setup, worlds: seq<World>, events: seq<Event>, i: nat, n: nat, k: Key)
    requires IsRun(u, worlds, events) && i <= n < |worlds|
    requires forall j :: i <= j < n ==> EditedKey(events[j]) != Some(k)
    ensures RowOf(worlds[n], k) == RowOf(worlds[i], k)
  {
    if i < n {
      RowStays(u, worlds, events, i, n - 1, k);
      assert worlds[n] == Step(u, worlds[n - 1], events[n - 1]);
    }
  }

  /** A value that an administrator set for a key, and nobody edited since, is the one in the environment and the
      settings of every pod that has recorded the database's generation, whatever else was edited in between. */
  lemma SetValueIsServed(u: Setup, worlds: seq<World>, events: seq<Event>, i: nat, n: nat, k: Key, input: Value)
    requires RoundTrips(u.text) && (input.FloatValue? ==> u.text.isFloat(input.r)) && input != NoValue
    requires k in u.registry && (u.registry[k].sensitive ==> u.registry[k].valueType.StrType?)
    requires CoerceInput(u.text, u.registry[k], input).Some?
    requires IsRun(u, worlds, events) && i < n < |worlds|
    requires events[i] == AdminSet(k, StoredRow(u.text, u.registry[k], CoerceInput(u.text, u.registry[k], input).value))
    requires forall j :: i < j < n ==> EditedKey(events[j]) != Some(k)
    requires worlds[n].db.generation == Some(worlds[n].pod.applied)
    ensures var v := CoerceInput(u.text, u.registry[k], input).value;
            && k in worlds[n].pod.env && worlds[n].pod.env[k] == Render(u.text, v, u.registry[k].valueType)
            && (u.registry[k].hasField ==> k in worlds[n].pod.settings && worlds[n].pod.settings[k] == v)
  {
    var v := CoerceInput(u.text, u.registry[k], input).value;
    assert worlds[i + 1] == Step(u, worlds[i], events[i]);
    RowStays(u, worlds, events, i + 1, n, k);
    SetThenDecode(u.text, u.registry[k], input);
    RecordedMeansCurrent(u, worlds, events, n);
    var overrides := Decoded(u.text, u.registry, worlds[n].db.table);
    assert k in overrides && overrides[k] == v;
    assert Shows(u.text, u.registry, worlds[n].pod, overrides, k);
  }

  /** A key without an override that decodes is back at what the deployment had set, in the environment and the
      settings of every pod that has recorded the database's generation, whatever was set before. */
  lemma DeployedValueIsServed(u: Setup, worlds: seq<World>, events: seq<Event>, n: nat, k: Key)
    requires IsRun(u, worlds, events) && n < |worlds| && worlds[n].db.generation == Some(worlds[n].pod.applied)
    requires k in u.registry && (k in worlds[n].db.table ==> DecodeRow(u.text, worlds[n].db.table[k]).None?)
    ensures var v := BaselineValue(u.text, u.registry[k], worlds[0].pod.env, worlds[0].pod.settings, k);
            && v.Some?
            && k in worlds[n].pod.env && worlds[n].pod.env[k] == Render(u.text, v.value, u.registry[k].valueType)
            && (u.registry[k].hasField ==> k in worlds[n].pod.settings && worlds[n].pod.settings[k] == v.value)
  {
    RunKeepsInv(u, worlds, events, n);
    RecordedMeansCurrent(u, worlds, events, n);
    BaselineIsNeverContaminated(u, worlds, events, n);
    assert Shows(u.text, u.registry, worlds[n].pod, Decoded(u.text, u.registry, worlds[n].db.table), k);
  }

  /** Whatever had been set for a key that is not mirrored, a reset brings the deployed text back. */
  lemma ResetRestores(u: Setup, worlds: seq<World>, events: seq<Event>, i: nat, n: nat, k: Key)
    requires IsRun(u, worlds, events) && i < n < |worlds| && events[i] == AdminReset(k)
    requires forall j :: i < j < n ==> EditedKey(events[j]) != Some(k)
    requires worlds[n].db.generation == Some(worlds[n].pod.applied)
    requires k in u.registry && u.registry[k].valueType.StrType? && !u.registry[k].hasField
    ensures k in worlds[n].pod.env
    ensures worlds[n].pod.env[k] == if k in worlds[0].pod.env then worlds[0].pod.env[k] else ""
  {
    assert worlds[i + 1] == Step(u, worlds[i], events[i]);
    RowStays(u, worlds, events, i + 1, n, k);
    DeployedValueIsServed(u, worlds, events, n, k);
    BaselineIsDeployed(u.text, u.registry[k], worlds[0].pod.env, worlds[0].pod.settings, k);
  }

  // ---- Values that cannot be put in the environment ----

  /** The reload under way goes on to its end, with no failure and nobody interfering. */
  ghost predicate Completes(u: Setup, worlds: seq<World>, events: seq<Event>, ws: seq<World>, es: seq<Event>) {
    && IsRun(u, ws, es) && |events| < |es| && worlds <= ws && events <= es
    && es[|es| - 1].Record? && forall i :: |events| <= i < |es| - 1 ==> es[i].ApplyOne?
  }

  lemma ExtendRun(u: Setup, worlds: seq<World>, events: seq<Event>, e: Event) returns (ws: seq<World>, es: seq<Event>)
    requires IsRun(u, worlds, events) && Enabled(u, worlds[|events|], e)
    ensures IsRun(u, ws, es) && ws == worlds + [Step(u, worlds[|events|], e)] && es == events + [e]
  {
    ws, es := worlds + [Step(u, worlds[|events|], e)], events + [e];
    forall i | 0 <= i < |es| ensures Enabled(u, ws[i], es[i]) && ws[i + 1] == Step(u, ws[i], es[i]) {
      if i < |events| {
        assert ws[i] == worlds[i] && ws[i + 1] == worlds[i + 1];
      }
    }
  }

  lemma {:induction false} ApplicableCompletes(u: Setup, worlds: seq<World>, events: seq<Event>)
    returns (ws: seq<World>, es: seq<Event>)
    requires IsRun(u, worlds, events) && worlds[|events|].at.Applying?
    requires worlds[|events|].at.todo <= u.registry.Keys
    requires var pod := worlds[|events|].pod; Applicable(u.text, u.registry, pod.baseline, pod.overrides)
    ensures Completes(u, worlds, events, ws, es)
    decreases |worlds[|events|].at.todo|
  {
    var w := worlds[|events|];
    if w.at.todo == {} {
      ws, es := ExtendRun(u, worlds, events, Record);
    } else {
      var k :| k in w.at.todo;
      ws, es := ExtendRun(u, worlds, events, ApplyOne(k));
      ws, es := ApplicableCompletes(u, ws, es);
    }
  }

  /** Applying keys changes neither the baseline nor the overrides. */
  lemma {:induction false} ApplyingKeeps(u: Setup, worlds: seq<World>, events: seq<Event>, m: nat, n: nat)
    requires IsRun(u, worlds, events) && m <= n < |worlds| && worlds[m].at.Applying?
    requires forall i :: m <= i < n ==> events[i].ApplyOne?
    ensures worlds[n].at.Applying?
    ensures worlds[n].pod.baseline == worlds[m].pod.baseline && worlds[n].pod.overrides == worlds[m].pod.overrides
  {
    if m < n {
      ApplyingKeeps(u, worlds, events, m, n - 1);
      assert worlds[n] == Step(u, worlds[n - 1], events[n - 1]);
    }
  }

  lemma CompletedIsApplicable(u: Setup, worlds: seq<World>, events: seq<Event>, ws: seq<World>, es: seq<Event>)
    requires Completes(u, worlds, events, ws, es) && |worlds| == |events| + 1 && worlds[|events|].at.Applying?
    ensures var pod := worlds[|events|].pod; Applicable(u.text, u.registry, pod.baseline, pod.overrides)
  {
    var n := |es| - 1;
    assert ws[|events|] == worlds[|events|];
    ApplyingKeeps(u, ws, es, |events|, n);
    RunKeepsInv(u, ws, es, n);
    AppliedIsShown(u, ws[n].pod, ws[n].pod.overrides);
  }

  /** A reload can complete if and only if no value it has to put in the environment holds a NUL. */
  lemma ReloadCompletesIffApplicable(u: Setup, worlds: seq<World>, events: seq<Event>)
    requires IsRun(u, worlds, events) && worlds[|events|].at.Applying?
    ensures (exists ws, es :: Completes(u, worlds, events, ws, es)) <==>
            var pod := worlds[|events|].pod; Applicable(u.text, u.registry, pod.baseline, pod.overrides)
  {
    forall ws, es | Completes(u, worlds, events, ws, es)
      ensures var pod := worlds[|events|].pod; Applicable(u.text, u.registry, pod.baseline, pod.overrides)
    {
      CompletedIsApplicable(u, worlds, events, ws, es);
    }
    if Applicable(u.text, u.registry, worlds[|events|].pod.baseline, worlds[|events|].pod.overrides) {
      RunKeepsInv(u, worlds, events, |events|);
      var ws, es := ApplicableCompletes(u, worlds, events);
    }
  }

  /** The row decodes to a value that holds a NUL where the environment should hold it. */
  predicate Poisons(u: Setup, k: Key, row: Row) {
    && k in u.registry && DecodeRow(u.text, row).Some?
    && !Settable(Render(u.text, DecodeRow(u.text, row).value, u.registry[k].valueType))
  }

  lemma ApplicableIsClean(u: Setup, k: Key, table: Table, baseline: map<Key, Value>)
    requires k in table && Applicable(u.text, u.registry, baseline, Decoded(u.text, u.registry, table))
    ensures !Poisons(u, k, table[k])
  {
    if k in u.registry && DecodeRow(u.text, table[k]).Some? {
      var overrides := Decoded(u.text, u.registry, table);
      assert overrides[k] == DecodeRow(u.text, table[k]).value;
      assert Settable(EnvValue(u.text, u.registry, baseline, overrides, k));
    }
  }

  /** Since generation g the database has held this row; what the pod applies is older, or holds it too. */
  ghost predicate Stuck(w: World, g: int, k: Key, row: Row) {
    && AtMost(Some(g), w.db.generation) && RowOf(w, k) == Some(row) && w.pod.applied < g
    && (w.at.Applying? && AtMost(Some(g), w.at.source.generation) ==>
          k in w.at.source.table && w.at.source.table[k] == row)
  }

  lemma StuckStarts(u: Setup, w: World, k: Key, row: Row)
    requires Inv(u, w) && w.db.generation.Some?
    ensures Stuck(Step(u, w, AdminSet(k, row)), w.db.generation.value + 1, k, row)
  {
  }

  lemma StuckStays(u: Setup, w: World, e: Event, g: int, k: Key, row: Row)
    requires Inv(u, w) && Enabled(u, w, e) && Stuck(w, g, k, row) && Poisons(u, k, row) && EditedKey(e) != Some(k)
    ensures Stuck(Step(u, w, e), g, k, row)
  {
    if e.Record? {
      AppliedIsShown(u, w.pod, w.pod.overrides);
      if k in w.at.source.table {
        ApplicableIsClean(u, k, w.at.source.table, w.pod.baseline);
      }
    }
  }

  lemma StuckNext(u: Setup, worlds: seq<World>, events: seq<Event>, n: nat, g: int, k: Key, row: Row)
    requires IsRun(u, worlds, events) && n < |events| && Stuck(worlds[n], g, k, row) && Poisons(u, k, row)
    requires EditedKey(events[n]) != Some(k)
    ensures Stuck(worlds[n + 1], g, k, row)
  {
    RunKeepsInv(u, worlds, events, n);
    StuckStays(u, worlds[n], events[n], g, k, row);
  }

  lemma {:induction false} StuckAlong(u: Setup, worlds: seq<World>, events: seq<Event>, i: nat, n: nat, g: int, k: Key,
                                      row: Row)
    requires IsRun(u, worlds, events) && i <= n < |worlds| && Stuck(worlds[i], g, k, row) && Poisons(u, k, row)
    requires forall j :: i <= j < n ==> EditedKey(events[j]) != Some(k)
    ensures Stuck(worlds[n], g, k, row)
  {
    if i < n {
      StuckAlong(u, worlds, events, i, n - 1, g, k, row);
      StuckNext(u, worlds, events, n - 1, g, k, row);
    }
  }

  /** While a row that holds a NUL stands, no pod records its generation or any later one, so none settles, whatever
      else is edited. */
  lemma PoisonBlocksPropagation(u: Setup, worlds: seq<World>, events: seq<Event>, i: nat, n: nat, k: Key)
    requires IsRun(u, worlds, events) && i < n < |worlds|
    requires events[i].AdminSet? && events[i].key == k && Poisons(u, k, events[i].row)
    requires forall j :: i < j < n ==> EditedKey(events[j]) != Some(k)
    ensures var g := worlds[i + 1].db.generation; g.Some? && worlds[n].pod.applied < g.value
    ensures !Settled(worlds[n])
  {
    var w, row := worlds[i], events[i].row;
    RunKeepsInv(u, worlds, events, i);
    StuckStarts(u, w, k, row);
    assert worlds[i + 1] == Step(u, w, AdminSet(k, row));
    StuckAlong(u, worlds, events, i + 1, n, w.db.generation.value + 1, k, row);
  }
}
