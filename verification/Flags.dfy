/** Resolution of the feature flags served to one device: template toggles, overlaid by the values the catalogue forces,
    overlaid by the overrides of the device's cohorts. */
module Flags {
  import opened Common
  import opened Ordering
  import opened Rollout

  /** A row of feature_flags; forced is the tri-state default_value (None: transparent). */
  datatype Flag = Flag(name: string, slug: string, forced: Option<bool>, deprecated: bool, minVersion: Option<string>)

  /** A row of the join of feature_flag_overrides with feature_flags. */
  datatype OverrideRow = OverrideRow(flag: Flag, cohort: int, value: bool, minVersion: Option<string>)

  /** A toggle as it stands in a template: usually a boolean, but any JSON value is passed through. */
  datatype Toggle = Bool(value: bool) | Json(text: string)

  /** What a template section has under featureToggles. */
  datatype Toggles = Absent | NotAnObject | Object(entries: map<string, Toggle>)

  /** The request: the plugin version sent, if any, and how Python's int() reads its segments. */
  datatype Client = Client(version: string, slug: string, cohorts: set<int>, parseInt: string -> Option<int>)

  // ---- Version gates ----

  /** The gate blocks: the plugin version is unknown, or older than the minimum. */
  predicate Gated(minimum: Option<string>, c: Client) {
    && minimum.Some? && minimum.value != ""
    && (c.version == "" || Less(ParseVersion(c.version, c.parseInt), ParseVersion(minimum.value, c.parseInt)))
  }

  /** The version reaches the minimum: there is none, or the version is known and does not come first of the two. */
  ghost predicate Reaches(minimum: Option<string>, c: Client) {
    || minimum == None || minimum == Some("")
    || (c.version != "" &&
        forall i: nat :: !FirstAt(ParseVersion(c.version, c.parseInt), ParseVersion(minimum.value, c.parseInt), i))
  }

  lemma GatedIffNotReached(minimum: Option<string>, c: Client)
    ensures Gated(minimum, c) <==> !Reaches(minimum, c)
  {
    if minimum.Some? {
      LessIsByFirstDifference(ParseVersion(c.version, c.parseInt), ParseVersion(minimum.value, c.parseInt));
    }
  }

  /** A later version passes every gate an earlier one passed. */
  lemma GatesOpenWithVersions(minimum: Option<string>, a: Client, b: Client)
    requires b == a.(version := b.version) && a.version != "" && b.version != ""
    requires !Less(ParseVersion(b.version, b.parseInt), ParseVersion(a.version, a.parseInt))
    ensures Gated(minimum, b) ==> Gated(minimum, a)
  {
    if Gated(minimum, b) {
      var va, vb := ParseVersion(a.version, a.parseInt), ParseVersion(b.version, a.parseInt);
      var m := ParseVersion(minimum.value, a.parseInt);
      LessIsTotal(va, vb);
      if Less(va, vb) {
        LessIsTransitive(va, vb, m);
      }
    }
  }

  // ---- Cohort overrides ----

  /** The WHERE clause of the cohort query. */
  predicate Concerns(row: OverrideRow, c: Client) {
    row.cohort in c.cohorts && !row.flag.deprecated && (row.flag.slug == "" || row.flag.slug == c.slug)
  }

  predicate Counts(row: OverrideRow, c: Client) {
    Concerns(row, c) && !Gated(row.flag.minVersion, c) && !Gated(row.minVersion, c)
  }

  /** A cohort row counts exactly for clients of its cohort and of its plugin, if any, while its flag is not deprecated
      and the client's version reaches both minima. */
  lemma CountsIff(row: OverrideRow, c: Client)
    ensures Counts(row, c) <==>
            && row.cohort in c.cohorts && !row.flag.deprecated && row.flag.slug in ["", c.slug]
            && Reaches(row.flag.minVersion, c) && Reaches(row.minVersion, c)
  {
    GatedIffNotReached(row.flag.minVersion, c);
    GatedIffNotReached(row.minVersion, c);
  }

  /** The pointwise meaning: a flag is overridden when some row counts for it, to the conjunction of those rows. */
  ghost predicate CohortSpec(rows: seq<OverrideRow>, c: Client, flags: map<string, bool>) {
    forall name ::
      && (name in flags <==> exists row :: row in rows && Counts(row, c) && row.flag.name == name)
      && (name in flags ==>
            (flags[name] <==> forall row :: row in rows && Counts(row, c) && row.flag.name == name ==> row.value))
  }

  function Cohort(rows: seq<OverrideRow>, c: Client): (flags: map<string, bool>)
    ensures CohortSpec(rows, c, flags)
  {
    if rows == [] then map[]
    else
      var init, row := rows[..|rows| - 1], rows[|rows| - 1];
      var flags := Cohort(init, c);
      assert forall r :: r in rows <==> r in init || r == row;
      if Counts(row, c) then
        flags[row.flag.name := (row.flag.name !in flags || flags[row.flag.name]) && row.value]
      else flags
  }

  method ResolveFeatureFlags(rows: seq<OverrideRow>, c: Client) returns (flags: map<string, bool>)
    ensures flags == Cohort(rows, c)
  {
    flags := map[];
    for i := 0 to |rows|
      invariant flags == Cohort(rows[..i], c)
    {
      var row := rows[i];
      assert rows[..i + 1][..i] == rows[..i];
      if !Concerns(row, c) || Gated(row.flag.minVersion, c) || Gated(row.minVersion, c) {
        continue;
      }
      flags := flags[row.flag.name := (if row.flag.name in flags then flags[row.flag.name] else true) && row.value];
    }
    assert rows[..|rows|] == rows;
  }

  /** The order in which the database returns the rows does not matter, nor do repetitions. */
  lemma CohortIgnoresOrder(a: seq<OverrideRow>, b: seq<OverrideRow>, c: Client)
    requires forall row :: row in a <==> row in b
    ensures Cohort(a, c) == Cohort(b, c)
  {
    var x, y := Cohort(a, c), Cohort(b, c);
    forall name ensures name in x <==> name in y {}
    forall name | name in x ensures x[name] == y[name] {}
  }

  /** Raising a known plugin version only adds overridden names and only lowers overridden values. */
  lemma RaisingTheVersion(rows: seq<OverrideRow>, a: Client, b: Client)
    requires b == a.(version := b.version) && a.version != "" && b.version != ""
    requires !Less(ParseVersion(b.version, b.parseInt), ParseVersion(a.version, a.parseInt))
    ensures Cohort(rows, a).Keys <= Cohort(rows, b).Keys
    ensures forall name :: name in Cohort(rows, a) && Cohort(rows, b)[name] ==> Cohort(rows, a)[name]
  {
    var x, y := Cohort(rows, a), Cohort(rows, b);
    forall row | row in rows && Counts(row, a) ensures Counts(row, b) {
      GatesOpenWithVersions(row.flag.minVersion, a, b);
      GatesOpenWithVersions(row.minVersion, a, b);
    }
    forall name | name in x ensures name in y && (y[name] ==> x[name]) {
      var row :| row in rows && Counts(row, a) && row.flag.name == name;
      assert Counts(row, b);
    }
  }

  // ---- Forced values ----

  predicate Forces(f: Flag, c: Client) {
    f.forced.Some? && !f.deprecated && (f.slug == "" || f.slug == c.slug) && !Gated(f.minVersion, c)
  }

  /** A flag forces its value exactly on clients of its plugin, if any, while it is not deprecated and the client's
      version reaches its minimum. */
  lemma ForcesIff(f: Flag, c: Client)
    ensures Forces(f, c) <==>
            f.forced != None && !f.deprecated && f.slug in ["", c.slug] && Reaches(f.minVersion, c)
  {
    GatedIffNotReached(f.minVersion, c);
  }

  /** A dotted version whose numbers come before those of the minimum does not reach it. */
  lemma OlderDoesNotReach(parts: seq<string>, numbers: seq<int>, minParts: seq<string>, minNumbers: seq<int>, i: nat,
                          c: Client)
    requires parts != [] && |parts| == |numbers| && minParts != [] && |minParts| == |minNumbers|
    requires forall j :: 0 <= j < |parts| ==> '.' !in parts[j] && c.parseInt(parts[j]) == Some(numbers[j])
    requires forall j :: 0 <= j < |minParts| ==> '.' !in minParts[j] && c.parseInt(minParts[j]) == Some(minNumbers[j])
    requires c.version == Join(parts, '.') && Join(minParts, '.') != "" && FirstAt(numbers, minNumbers, i)
    ensures !Reaches(Some(Join(minParts, '.')), c)
  {
    VersionIsItsNumbers(parts, numbers, c.parseInt);
    VersionIsItsNumbers(minParts, minNumbers, c.parseInt);
  }

  /** A client of version 1.0.0 gets nothing that asks for 2.0.0. */
  lemma FirstMajorGetsNothingOfTheSecond(row: OverrideRow, f: Flag, c: Client)
    requires c.version == "1.0.0"
    requires c.parseInt("0") == Some(0) && c.parseInt("1") == Some(1) && c.parseInt("2") == Some(2)
    ensures row.minVersion == Some("2.0.0") || row.flag.minVersion == Some("2.0.0") ==> !Counts(row, c)
    ensures f.minVersion == Some("2.0.0") ==> !Forces(f, c)
  {
    var a, b := ["1", "0", "0"], ["2", "0", "0"];
    JoinThree("1", "0", "0", '.');
    JoinThree("2", "0", "0", '.');
    assert "1" + ['.'] + "0" + ['.'] + "0" == "1.0.0" && "2" + ['.'] + "0" + ['.'] + "0" == "2.0.0";
    assert FirstAt([1, 0, 0], [2, 0, 0], 0);
    OlderDoesNotReach(a, [1, 0, 0], b, [2, 0, 0], 0, c);
    CountsIff(row, c);
    ForcesIff(f, c);
  }

  /** Rows are taken in the order the database returns them; a later row replaces an earlier one of the same name. */
  function Forced(rows: seq<Flag>, c: Client): map<string, bool> {
    if rows == [] then map[]
    else
      var f := rows[|rows| - 1];
      var out := Forced(rows[..|rows| - 1], c);
      if Forces(f, c) then out[f.name := f.forced.value] else out
  }

  method ResolveForcedFlags(rows: seq<Flag>, c: Client) returns (out: map<string, bool>)
    ensures out == Forced(rows, c)
  {
    out := map[];
    for i := 0 to |rows|
      invariant out == Forced(rows[..i], c)
    {
      assert rows[..i + 1][..i] == rows[..i];
      if Forces(rows[i], c) {
        out := out[rows[i].name := rows[i].forced.value];
      }
    }
    assert rows[..|rows|] == rows;
  }

  /** No two rows force one name to different values. */
  ghost predicate Consistent(rows: seq<Flag>, c: Client) {
    forall f, g :: f in rows && g in rows && Forces(f, c) && Forces(g, c) && f.name == g.name ==> f.forced == g.forced
  }

  /** Always: a name is forced when some row forces it, and to a value some row gives it. */
  lemma {:induction false} ForcedComesFromARow(rows: seq<Flag>, c: Client, name: string)
    ensures name in Forced(rows, c) <==> exists f :: f in rows && Forces(f, c) && f.name == name
    ensures name in Forced(rows, c) ==>
              exists f :: f in rows && Forces(f, c) && f.name == name && f.forced == Some(Forced(rows, c)[name])
  {
    if rows != [] {
      var init, last := rows[..|rows| - 1], rows[|rows| - 1];
      ForcedComesFromARow(init, c, name);
      assert forall f :: f in rows <==> f in init || f == last;
    }
  }

  /** With consistent rows the forced value is the one every row of that name gives. */
  lemma ForcedIsPointwise(rows: seq<Flag>, c: Client, f: Flag)
    requires Consistent(rows, c) && f in rows && Forces(f, c)
    ensures f.name in Forced(rows, c) && Some(Forced(rows, c)[f.name]) == f.forced
  {
    ForcedComesFromARow(rows, c, f.name);
  }

  lemma ConsistentIgnoresOrder(a: seq<Flag>, b: seq<Flag>, c: Client)
    requires multiset(a) == multiset(b) && Consistent(a, c)
    ensures Forced(a, c) == Forced(b, c)
  {
    SameMembers(a, b);
    forall name ensures name in Forced(a, c) <==> name in Forced(b, c)
                ensures name in Forced(a, c) ==> Forced(a, c)[name] == Forced(b, c)[name]
    {
      ForcedComesFromARow(a, c, name);
      ForcedComesFromARow(b, c, name);
    }
  }

  lemma SameMembers(a: seq<Flag>, b: seq<Flag>)
    requires multiset(a) == multiset(b)
    ensures forall f :: f in a <==> f in b
  {
    assert forall f :: f in a <==> f in multiset(a);
    assert forall f :: f in b <==> f in multiset(b);
  }

  /** Moving two rows to the end, in either order, is a permutation. */
  lemma TwoLast(rows: seq<Flag>, i: nat, j: nat) returns (rest: seq<Flag>)
    requires i < j < |rows|
    ensures multiset(rest + [rows[i]] + [rows[j]]) == multiset(rows) == multiset(rest + [rows[j]] + [rows[i]])
  {
    var x, y, z := rows[..i], rows[i + 1..j], rows[j + 1..];
    rest := x + y + z;
    assert rows == x + [rows[i]] + y + [rows[j]] + z;
  }

  lemma LastWins(rest: seq<Flag>, f: Flag, c: Client)
    requires Forces(f, c)
    ensures f.name in Forced(rest + [f], c) && Some(Forced(rest + [f], c)[f.name]) == f.forced
  {
    assert (rest + [f])[..|rest|] == rest;
  }

  /** Two conflicting rows can be returned in either order, and the last one wins. */
  lemma ConflictDependsOnOrder(rows: seq<Flag>, c: Client, i: nat, j: nat) returns (a: seq<Flag>, b: seq<Flag>)
    requires i < j < |rows| && Forces(rows[i], c) && Forces(rows[j], c)
    requires rows[i].name == rows[j].name && rows[i].forced != rows[j].forced
    ensures multiset(a) == multiset(rows) && multiset(b) == multiset(rows) && Forced(a, c) != Forced(b, c)
  {
    var rest := TwoLast(rows, i, j);
    a, b := rest + [rows[i]] + [rows[j]], rest + [rows[j]] + [rows[i]];
    LastWins(rest + [rows[i]], rows[j], c);
    LastWins(rest + [rows[j]], rows[i], c);
  }

  /** The forced values are independent of the row order if and only if no name is forced both ways. */
  lemma OrderMattersIffInconsistent(rows: seq<Flag>, c: Client)
    ensures (forall other :: multiset(other) == multiset(rows) ==> Forced(other, c) == Forced(rows, c))
            <==> Consistent(rows, c)
  {
    if Consistent(rows, c) {
      forall other | multiset(other) == multiset(rows) ensures Forced(other, c) == Forced(rows, c) {
        ConsistentIgnoresOrder(rows, other, c);
      }
    } else {
      var f, g :| f in rows && g in rows && Forces(f, c) && Forces(g, c) && f.name == g.name && f.forced != g.forced;
      var i :| 0 <= i < |rows| && rows[i] == f;
      var j :| 0 <= j < |rows| && rows[j] == g;
      var a, b := ConflictDependsOnOrder(rows, c, Min(i, j), Max(i, j));
    }
  }

  /** The unique index on (plugin_slug, name). */
  ghost predicate Indexed(rows: seq<Flag>) {
    forall i, j :: 0 <= i < j < |rows| ==> rows[i].slug != rows[j].slug || rows[i].name != rows[j].name
  }

  /** A global row and a row of the client's slug that force one name both ways. */
  predicate Clash(f: Flag, g: Flag, c: Client) {
    Forces(f, c) && Forces(g, c) && f.name == g.name && f.slug == "" && g.slug != "" && f.forced != g.forced
  }

  /** Under the index the only conflicts left are between a global row and one of the client's slug; none of them means
      that the order of the rows is irrelevant. */
  lemma ConsistentIffNoClash(rows: seq<Flag>, c: Client)
    requires Indexed(rows)
    ensures Consistent(rows, c) <==> !exists f, g :: f in rows && g in rows && Clash(f, g, c)
  {
    if !Consistent(rows, c) {
      var f, g :| f in rows && g in rows && Forces(f, c) && Forces(g, c) && f.name == g.name && f.forced != g.forced;
      var i :| 0 <= i < |rows| && rows[i] == f;
      var j :| 0 <= j < |rows| && rows[j] == g;
      assert f.slug != g.slug by {
        assert i < j || j < i;
      }
      assert Clash(f, g, c) || Clash(g, f, c);
    }
  }

  /** The index does allow such a clash, for every client with a slug. */
  lemma IndexAllowsAClash(c: Client, name: string) returns (rows: seq<Flag>, other: seq<Flag>)
    requires c.slug != ""
    ensures Indexed(rows) && multiset(other) == multiset(rows) && Forced(other, c) != Forced(rows, c)
  {
    var f, g := Flag(name, "", Some(true), false, None), Flag(name, c.slug, Some(false), false, None);
    rows, other := [f] + [g], [g] + [f];
    LastWins([f], g, c);
    LastWins([g], f, c);
  }

  // ---- The served features ----

  /** default overlaid by the profile section; None: the profile section is not an object. */
  function MergedToggles(default: Toggles, profile: Option<Toggles>): Toggles {
    match profile
    case None => default
    case Some(Absent) => default
    case Some(NotAnObject) => NotAnObject
    case Some(Object(p)) => if default.Object? then Object(default.entries + p) else Object(p)
  }

  function TemplateToggles(t: Toggles): map<string, Toggle> {
    if t.Object? then t.entries else map[]
  }

  function AsToggles(m: map<string, bool>): map<string, Toggle> {
    map name | name in m :: Bool(m[name])
  }

  function Features(default: Toggles, profile: Option<Toggles>, flags: seq<Flag>, rows: seq<OverrideRow>,
                    c: Client): map<string, Toggle> {
    TemplateToggles(MergedToggles(default, profile)) + AsToggles(Forced(flags, c)) + AsToggles(Cohort(rows, c))
  }

  lemma FeaturesOverlay(default: Toggles, profile: Option<Toggles>, flags: seq<Flag>, rows: seq<OverrideRow>, c: Client,
                        name: string)
    ensures var served := Features(default, profile, flags, rows, c);
            var cohort, forced := Cohort(rows, c), Forced(flags, c);
            var toggles := TemplateToggles(MergedToggles(default, profile));
            && (name in served <==> name in cohort || name in forced || name in toggles)
            && (name in served ==>
                  served[name] == if name in cohort then Bool(cohort[name])
                                  else if name in forced then Bool(forced[name]) else toggles[name])
  {
  }

  lemma TogglesOverlay(default: Toggles, profile: Option<Toggles>, name: string)
    ensures var toggles := TemplateToggles(MergedToggles(default, profile));
            if profile.Some? && profile.value.Object? && name in profile.value.entries then
              name in toggles && toggles[name] == profile.value.entries[name]
            else if default.Object? && name in default.entries && profile != Some(NotAnObject) then
              name in toggles && toggles[name] == default.entries[name]
            else name !in toggles
  {
  }

  /** The precedence, name by name: the cohorts' conjunction, else the forced value, else the profile's toggle, else the
      default's; a profile whose featureToggles is not an object hides the default's. */
  lemma FeaturesArePointwise(default: Toggles, profile: Option<Toggles>, flags: seq<Flag>, rows: seq<OverrideRow>,
                             c: Client, name: string)
    requires Consistent(flags, c)
    ensures var served := Features(default, profile, flags, rows, c);
            if exists row :: row in rows && Counts(row, c) && row.flag.name == name then
              && name in served
              && served[name]
                 == Bool(forall row :: row in rows && Counts(row, c) && row.flag.name == name ==> row.value)
            else if exists f :: f in flags && Forces(f, c) && f.name == name then
              && name in served
              && forall f :: f in flags && Forces(f, c) && f.name == name ==> served[name] == Bool(f.forced.value)
            else if profile.Some? && profile.value.Object? && name in profile.value.entries then
              name in served && served[name] == profile.value.entries[name]
            else if default.Object? && name in default.entries && profile != Some(NotAnObject) then
              name in served && served[name] == default.entries[name]
            else name !in served
  {
    FeaturesOverlay(default, profile, flags, rows, c, name);
    TogglesOverlay(default, profile, name);
    ForcedComesFromARow(flags, c, name);
    forall f | f in flags && Forces(f, c) && f.name == name ensures Some(Forced(flags, c)[name]) == f.forced {
      ForcedIsPointwise(flags, c, f);
    }
  }
}
