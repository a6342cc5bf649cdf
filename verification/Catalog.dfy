/** The catalogue of feature flags, reconciled with a plugin's configuration template at every import. */
module Catalog {
  import opened Common
  import opened Ordering
  import opened Flags

  /** The unique key of feature_flags. */
  datatype Id = Id(slug: string, name: string)

  datatype Entry = Entry(forced: Option<bool>, deprecated: bool, minVersion: Option<string>)

  type Table = map<Id, Entry>

  /** A template: its sections by name; None stands for a value that is not an object. */
  type Template = map<string, Option<Toggles>>

  function TogglesOf(section: Option<Toggles>): set<string> {
    if section.Some? && section.value.Object? then section.value.entries.Keys else {}
  }

  /** The union of the toggles over all sections. */
  function Names(template: Template): set<string> {
    set s, n | s in template && n in TogglesOf(template[s]) :: n
  }

  /** Rows of a slug, by their deprecation. */
  function Known(t: Table, slug: string, deprecated: bool): set<string> {
    set id | id in t && id.slug == slug && t[id].deprecated == deprecated :: id.name
  }

  function Row(t: Table, slug: string, name: string): Entry {
    if Id(slug, name) in t then t[Id(slug, name)].(deprecated := false) else Entry(None, false, None)
  }

  /** The upserts of an import. */
  function Upserted(t: Table, slug: string, names: set<string>): Table {
    t + map n | n in names :: Id(slug, n) := Row(t, slug, n)
  }

  function MarkIn(t: Table, slug: string, orphans: set<string>): Table {
    map id | id in t :: if id.slug == slug && id.name in orphans then t[id].(deprecated := true) else t[id]
  }

  /** The whole import: rows of the slug that the template does not name end up deprecated. */
  function ImportIn(t: Table, slug: string, names: set<string>): Table {
    var u := Upserted(t, slug, names);
    map id | id in u :: if id.slug == slug && id.name !in names then u[id].(deprecated := true) else u[id]
  }

  datatype Report = Report(added: seq<string>, kept: seq<string>, reactivated: seq<string>, orphaned: seq<string>,
                           alreadyDeprecated: seq<string>)

  ghost predicate ReportOk(r: Report, t: Table, slug: string, names: set<string>) {
    && Sorts(r.added, names - Known(t, slug, true) - Known(t, slug, false))
    && Sorts(r.kept, names * Known(t, slug, false))
    && Sorts(r.reactivated, names * Known(t, slug, true))
    && Sorts(r.orphaned, Known(t, slug, false) - names)
    && Sorts(r.alreadyDeprecated, Known(t, slug, true) - names)
  }

  lemma SortsAppend(l: seq<string>, s: set<string>, x: string)
    requires Sorts(l, s) && forall y :: y in s ==> StringLess(y, x)
    ensures Sorts(l + [x], s + {x})
  {
    assert forall i :: 0 <= i < |l| ==> l[i] in s;
  }

  lemma KnownIsExclusive(t: Table, slug: string)
    ensures Known(t, slug, true) !! Known(t, slug, false)
    ensures forall name :: name in Known(t, slug, true) + Known(t, slug, false) <==> Id(slug, name) in t
  {
    forall name ensures name in Known(t, slug, true) <==> Id(slug, name) in t && t[Id(slug, name)].deprecated
                ensures name in Known(t, slug, false) <==> Id(slug, name) in t && !t[Id(slug, name)].deprecated {}
  }

  /** The lists built so far by the loop over the names, given the names seen so far. */
  ghost predicate Classified(added: seq<string>, kept: seq<string>, reactivated: seq<string>,
                             seen: set<string>, stale: set<string>, active: set<string>) {
    Sorts(added, seen - stale - active) && Sorts(kept, seen * active) && Sorts(reactivated, seen * stale)
  }

  lemma ClassifyNext(added: seq<string>, kept: seq<string>, reactivated: seq<string>,
                     seen: set<string>, stale: set<string>, active: set<string>, name: string)
    requires Classified(added, kept, reactivated, seen, stale, active) && stale !! active
    requires forall y :: y in seen ==> StringLess(y, name)
    ensures name !in stale && name !in active ==>
              Classified(added + [name], kept, reactivated, seen + {name}, stale, active)
    ensures name in active ==> Classified(added, kept + [name], reactivated, seen + {name}, stale, active)
    ensures name in stale ==> Classified(added, kept, reactivated + [name], seen + {name}, stale, active)
  {
    var more := seen + {name};
    if name in stale {
      SortsAppend(reactivated, seen * stale, name);
      assert more - stale - active == seen - stale - active;
      assert more * active == seen * active && more * stale == seen * stale + {name};
    } else if name in active {
      SortsAppend(kept, seen * active, name);
      assert more - stale - active == seen - stale - active;
      assert more * active == seen * active + {name} && more * stale == seen * stale;
    } else {
      SortsAppend(added, seen - stale - active, name);
      assert more - stale - active == seen - stale - active + {name};
      assert more * active == seen * active && more * stale == seen * stale;
    }
  }

  ghost function Taken(order: seq<string>, n: nat): set<string>
    requires n <= |order|
  {
    set x | x in order[..n]
  }

  lemma TakenNext(order: seq<string>, names: set<string>, n: nat)
    requires Sorts(order, names) && n < |order|
    ensures Taken(order, n + 1) == Taken(order, n) + {order[n]}
    ensures forall y :: y in Taken(order, n) ==> StringLess(y, order[n])
  {
    assert order[..n + 1] == order[..n] + [order[n]];
    forall y | y in Taken(order, n) ensures StringLess(y, order[n]) {
      var j :| 0 <= j < n && order[j] == y;
    }
  }

  lemma TakenAll(order: seq<string>, names: set<string>)
    requires Sorts(order, names)
    ensures Taken(order, |order|) == names
  {
    assert order[..|order|] == order;
    SortsMembers(order, names);
  }

  class FlagCatalog {
    var table: Table

    constructor ()
      ensures table == map[]
    {
      table := map[];
    }

    method CollectNames(template: Template) returns (names: set<string>)
      ensures names == Names(template)
      ensures forall n :: n in names <==>
                exists s ::
                  s in template && template[s].Some? && template[s].value.Object? && n in template[s].value.entries
    {
      names := {};
      var todo := template.Keys;
      while todo != {}
        invariant todo <= template.Keys
        invariant names == set s, n | s in template && s !in todo && n in TogglesOf(template[s]) :: n
        decreases todo
      {
        var s :| s in todo;
        names := names + TogglesOf(template[s]);
        todo := todo - {s};
      }
      forall n | n in names
        ensures exists s ::
                  s in template && template[s].Some? && template[s].value.Object? && n in template[s].value.entries
      {
        var s :| s in template && n in TogglesOf(template[s]);
      }
      forall s, n | s in template && template[s].Some? && template[s].value.Object? && n in template[s].value.entries
        ensures n in names
      {
        assert n in TogglesOf(template[s]);
      }
    }

    /** The loop over the sorted names: each is classified by what the table held before, then upserted. */
    method Upsert(slug: string, names: set<string>)
      returns (added: seq<string>, kept: seq<string>, reactivated: seq<string>)
      modifies this
      ensures table == Upserted(old(table), slug, names)
      ensures Sorts(added, names - Known(old(table), slug, true) - Known(old(table), slug, false))
      ensures Sorts(kept, names * Known(old(table), slug, false))
      ensures Sorts(reactivated, names * Known(old(table), slug, true))
    {
      var stale, active := Known(table, slug, true), Known(table, slug, false);
      KnownIsExclusive(table, slug);
      var order := Sort(names);
      added, kept, reactivated := [], [], [];
      ghost var seen: set<string> := {};
      for i := 0 to |order|
        invariant seen == Taken(order, i)
        invariant table == Upserted(old(table), slug, seen)
        invariant Classified(added, kept, reactivated, seen, stale, active)
      {
        var name := order[i];
        TakenNext(order, names, i);
        ClassifyNext(added, kept, reactivated, seen, stale, active, name);
        if name !in stale && name !in active {
          added := added + [name];
        } else if name in stale {
          reactivated := reactivated + [name];
        } else {
          kept := kept + [name];
        }
        UpsertOne(old(table), slug, seen, name);
        table := table[Id(slug, name) := Row(table, slug, name)];
        seen := seen + {name};
      }
      TakenAll(order, names);
    }

    method Reconcile(slug: string, template: Template) returns (r: Report)
      modifies this
      ensures table == ImportIn(old(table), slug, Names(template))
      ensures ReportOk(r, old(table), slug, Names(template))
    {
      var names := CollectNames(template);
      var stale, active := Known(table, slug, true), Known(table, slug, false);
      KnownIsExclusive(table, slug);
      var added, kept, reactivated := Upsert(slug, names);
      var orphaned := Sort(active - names);
      var already := Sort(stale - names);
      MarkedIsImported(old(table), slug, names);
      table := MarkIn(table, slug, active - names);
      r := Report(added, kept, reactivated, orphaned, already);
    }
  }

  lemma UpsertOne(t: Table, slug: string, seen: set<string>, name: string)
    ensures var u := Upserted(t, slug, seen);
            u[Id(slug, name) := Row(u, slug, name)] == Upserted(t, slug, seen + {name})
  {
  }

  /** Marking the active rows that are not named marks all rows that are not named: the others are marked already. */
  lemma MarkedIsImported(t: Table, slug: string, names: set<string>)
    ensures MarkIn(Upserted(t, slug, names), slug, Known(t, slug, false) - names) == ImportIn(t, slug, names)
  {
    KnownIsExclusive(t, slug);
  }

  // ---- What an import does ----

  /** Afterwards the active flags of the slug are exactly the template's; what an administrator forced is kept, in this
      slug and in every other, and no row disappears. */
  lemma ImportActivatesTheTemplate(t: Table, slug: string, names: set<string>)
    ensures Known(ImportIn(t, slug, names), slug, false) == names
    ensures forall id :: id in t ==>
              && id in ImportIn(t, slug, names)
              && ImportIn(t, slug, names)[id] == t[id].(deprecated := ImportIn(t, slug, names)[id].deprecated)
    ensures forall id :: id in ImportIn(t, slug, names) && id !in t ==>
              id.slug == slug && id.name in names && ImportIn(t, slug, names)[id] == Entry(None, false, None)
    ensures forall id: Id :: id.slug != slug ==>
              && (id in ImportIn(t, slug, names) <==> id in t)
              && (id in t ==> ImportIn(t, slug, names)[id] == t[id])
  {
    var t' := ImportIn(t, slug, names);
    KnownIsExclusive(t', slug);
    forall n ensures n in Known(t', slug, false) <==> n in names {
      if n in names {
        assert Id(slug, n) in t' && !t'[Id(slug, n)].deprecated;
      }
    }
  }

  /** The five lists are disjoint and together name the template's flags and the slug's rows. */
  lemma ReportPartitions(r: Report, t: Table, slug: string, names: set<string>)
    requires ReportOk(r, t, slug, names)
    ensures forall n :: n in names <==> n in r.added || n in r.kept || n in r.reactivated
    ensures forall n :: Id(slug, n) in t <==>
              n in r.kept || n in r.reactivated || n in r.orphaned || n in r.alreadyDeprecated
    ensures forall n ::
              && (n in r.added ==> n !in r.kept && n !in r.reactivated && n !in r.orphaned && n !in r.alreadyDeprecated)
              && (n in r.kept ==> n !in r.reactivated && n !in r.orphaned && n !in r.alreadyDeprecated)
              && (n in r.reactivated ==> n !in r.orphaned && n !in r.alreadyDeprecated)
              && (n in r.orphaned ==> n !in r.alreadyDeprecated)
    ensures forall n ::
              var id := Id(slug, n);
              && (n in r.added <==> n in names && id !in t)
              && (n in r.kept <==> n in names && id in t && !t[id].deprecated)
              && (n in r.reactivated <==> n in names && id in t && t[id].deprecated)
              && (n in r.orphaned <==> n !in names && id in t && !t[id].deprecated)
              && (n in r.alreadyDeprecated <==> n !in names && id in t && t[id].deprecated)
  {
    KnownIsExclusive(t, slug);
    var stale, active := Known(t, slug, true), Known(t, slug, false);
    SortsMembers(r.added, names - stale - active);
    SortsMembers(r.kept, names * active);
    SortsMembers(r.reactivated, names * stale);
    SortsMembers(r.orphaned, active - names);
    SortsMembers(r.alreadyDeprecated, stale - names);
  }

  /** Importing the same template again changes nothing and reports nothing added, reactivated or orphaned. */
  lemma ReimportChangesNothing(t: Table, slug: string, names: set<string>, again: Report)
    requires ReportOk(again, ImportIn(t, slug, names), slug, names)
    ensures ImportIn(ImportIn(t, slug, names), slug, names) == ImportIn(t, slug, names)
    ensures again.added == [] && again.reactivated == [] && again.orphaned == []
  {
    var t' := ImportIn(t, slug, names);
    ImportActivatesTheTemplate(t, slug, names);
    KnownIsExclusive(t', slug);
    SortsEmpty(again.added, names - Known(t', slug, true) - Known(t', slug, false));
    SortsEmpty(again.reactivated, names * Known(t', slug, true));
    SortsEmpty(again.orphaned, Known(t', slug, false) - names);
  }

  // ---- Histories of imports and administrators' edits ----

  datatype Edit =
    | Import(slug: string, names: set<string>)
    | SetForced(id: Id, value: Option<bool>)
    | Create(id: Id, value: Option<bool>, minVersion: Option<string>)
    | Delete(id: Id)

  /** An edit of an absent row, or the creation of a present one, changes nothing. */
  function Apply(t: Table, e: Edit): Table {
    match e
    case Import(slug, names) => ImportIn(t, slug, names)
    case SetForced(id, value) => if id in t then t[id := t[id].(forced := value)] else t
    case Create(id, value, min) =>
      if id in t then t else t[id := Entry(value, false, if min == Some("") then None else min)]
    case Delete(id) => t - {id}
  }

  /** What an administrator's edit does to its row; no other row changes. */
  lemma EditsDoWhatTheySay(t: Table, id: Id, value: Option<bool>, min: Option<string>)
    ensures var t' := Apply(t, SetForced(id, value));
            t'.Keys == t.Keys && (id in t ==> t'[id] == Entry(value, t[id].deprecated, t[id].minVersion))
    ensures var t' := Apply(t, Create(id, value, min));
            && id in t' && (id in t ==> t'[id] == t[id])
            && (id !in t ==> t'[id] == Entry(value, false, if min == Some("") then None else min))
    ensures id !in Apply(t, Delete(id))
    ensures forall e: Edit, x :: !e.Import? && e.id == id && x != id ==>
              (x in Apply(t, e) <==> x in t) && (x in t ==> Apply(t, e)[x] == t[x])
  {
  }

  function After(t: Table, edits: seq<Edit>): Table {
    if edits == [] then t else Apply(After(t, edits[..|edits| - 1]), edits[|edits| - 1])
  }

  predicate Edits(e: Edit, id: Id) {
    !e.Import? && e.id == id
  }

  /** Whatever templates are imported, a flag's forced state is the one its last edit left, and its row stays. */
  lemma {:induction false} OnlyEditsChangeForcedState(t: Table, edits: seq<Edit>, id: Id)
    requires id in t && forall i :: 0 <= i < |edits| ==> !Edits(edits[i], id)
    ensures id in After(t, edits)
    ensures After(t, edits)[id].forced == t[id].forced && After(t, edits)[id].minVersion == t[id].minVersion
  {
    if edits != [] {
      var init, e := edits[..|edits| - 1], edits[|edits| - 1];
      OnlyEditsChangeForcedState(t, init, id);
      if e.Import? {
        ImportActivatesTheTemplate(After(t, init), e.slug, e.names);
      }
    }
  }

  lemma {:induction false} AfterTwo(t: Table, first: seq<Edit>, rest: seq<Edit>)
    ensures After(t, first + rest) == After(After(t, first), rest)
  {
    if rest == [] {
      assert first + rest == first;
    } else {
      var init, last := rest[..|rest| - 1], rest[|rest| - 1];
      AfterTwo(t, first, init);
      assert (first + rest)[..|first + rest| - 1] == first + init;
    }
  }

  /** A value an administrator forced stays, through whatever is imported or edited elsewhere, until the next edit of
      that flag. */
  lemma ForcedStateStays(t: Table, edits: seq<Edit>, id: Id, value: Option<bool>, later: seq<Edit>)
    requires id in After(t, edits) && forall i :: 0 <= i < |later| ==> !Edits(later[i], id)
    ensures id in After(t, edits + [SetForced(id, value)] + later)
    ensures After(t, edits + [SetForced(id, value)] + later)[id].forced == value
  {
    AfterTwo(t, edits, [SetForced(id, value)]);
    var now := After(t, edits + [SetForced(id, value)]);
    assert [SetForced(id, value)][..0] == [];
    assert now == Apply(After(t, edits), SetForced(id, value));
    AfterTwo(t, edits + [SetForced(id, value)], later);
    OnlyEditsChangeForcedState(now, later, id);
  }

  /** The edit may change which flags of the slug are active. */
  predicate AltersSet(e: Edit, slug: string) {
    if e.Import? then e.slug == slug else !e.SetForced? && e.id.slug == slug
  }

  /** The active flags of a slug are those of the last template imported for it, until a row is created or deleted. */
  lemma {:induction false} ActiveFlagsAreTheLastImport(t: Table, slug: string, names: set<string>, later: seq<Edit>)
    requires forall i :: 0 <= i < |later| ==> !AltersSet(later[i], slug)
    ensures Known(After(ImportIn(t, slug, names), later), slug, false) == names
  {
    if later == [] {
      ImportActivatesTheTemplate(t, slug, names);
    } else {
      var init, e := later[..|later| - 1], later[|later| - 1];
      ActiveFlagsAreTheLastImport(t, slug, names, init);
      var before := After(ImportIn(t, slug, names), init);
      if e.Import? {
        ImportActivatesTheTemplate(before, e.slug, e.names);
      }
      KnownIsExclusive(before, slug);
      KnownIsExclusive(Apply(before, e), slug);
      forall n ensures n in Known(Apply(before, e), slug, false) <==> n in Known(before, slug, false) {
        assert Id(slug, n).slug == slug;
      }
    }
  }
}
