/**
 Whole deployments of tools/target_schema_migrations.py: every schema of a registry in turn,
 inside the transaction of the caller (tools/bootstrap_database.py), and what any sequence of
 deployments leaves. A script is taken to touch its own schema only.
 */
module MigrationRuns {
  import opened Common
  import opened Migrations
  import opened TransactionWrapper

  /** The database at one moment. */
  datatype State = State(ledgers: map<string, seq<Row>>, schemas: map<string, Schema>)
  {
    function Ledger(name: string): seq<Row> { if name in ledgers then ledgers[name] else [] }
    function SchemaOf(name: string): Option<Schema> { if name in schemas then Some(schemas[name]) else None }
  }

  function ForSchema(registry: seq<Migration>, name: string): seq<Migration> {
    if registry == [] then []
    else (if registry[0].schema == name then [registry[0]] else []) + ForSchema(registry[1..], name)
  }

  /** The verdict on one schema of a registry. */
  function VerdictOn(registry: seq<Migration>, db: State, name: string, rebuild: bool): Verdict {
    Decide(ForSchema(registry, name), db.Ledger(name), db.SchemaOf(name), rebuild)
  }

  predicate Mentions(registry: seq<Migration>, name: string) {
    exists k :: 0 <= k < |registry| && registry[k].schema == name
  }

  lemma {:induction false} MentionedHasSome(registry: seq<Migration>, name: string)
    ensures Mentions(registry, name) <==> ForSchema(registry, name) != []
  {
    if registry != [] {
      MentionedHasSome(registry[1..], name);
      if Mentions(registry[1..], name) {
        var k :| 0 <= k < |registry[1..]| && registry[1..][k].schema == name;
        assert registry[k + 1].schema == name;
      }
    }
  }

  /** The run went through: every schema of the registry proceeded, nothing else changed. */
  ghost predicate Succeeded(registry: seq<Migration>, before: State, rebuild: bool, after: State) {
    forall name ::
      if Mentions(registry, name)
      then VerdictOn(registry, before, name, rebuild) == Proceed(after.Ledger(name), after.SchemaOf(name))
      else after.Ledger(name) == before.Ledger(name) && after.SchemaOf(name) == before.SchemaOf(name)
  }

  ghost predicate Refused(registry: seq<Migration>, before: State, rebuild: bool) {
    exists name :: Mentions(registry, name) && VerdictOn(registry, before, name, rebuild).Refuse?
  }

  /** Which registries may be shipped: sound for every schema. */
  ghost predicate SoundRelease(registry: seq<Migration>) {
    forall name :: Sound(ForSchema(registry, name))
  }

  /** A release only appends to the list of each schema. */
  ghost predicate AppendsTo(earlier: seq<Migration>, later: seq<Migration>) {
    forall name :: ForSchema(earlier, name) <= ForSchema(later, name)
  }

  /** None of the schemas of the registry is there yet. */
  ghost predicate EmptyFor(registry: seq<Migration>, db: State) {
    forall name :: Mentions(registry, name) ==> db.Ledger(name) == [] && db.SchemaOf(name) == None
  }

  /** The schema stands where the first migrations of the list leave it. */
  predicate Along(db: State, name: string, migrations: seq<Migration>)
    requires Deployable(migrations)
  {
    var m := |db.Ledger(name)|;
    m <= |migrations| && Proceed(db.Ledger(name), db.SchemaOf(name)) == UpTo(migrations, m)
  }

  function UpTo(migrations: seq<Migration>, m: nat): Verdict
    requires Deployable(migrations) && m <= |migrations|
  {
    Proceed(Rows(migrations[..m]), Build(None, migrations[..m]))
  }

  /** A deployment that succeeds moves a schema along the list that its own list is part of. */
  lemma DeploymentAdvances(before: State, after: State, name: string, own: seq<Migration>, last: seq<Migration>)
    requires Deployable(last) && own <= last && own != [] && Along(before, name, last)
    requires Decide(own, before.Ledger(name), before.SchemaOf(name), false)
             == Proceed(after.Ledger(name), after.SchemaOf(name))
    ensures after.Ledger(name) == Rows(own) && Along(after, name, last)
  {
    hide Unwrapped;
    hide Decide, UpTo, Contiguous;
    var m := |before.Ledger(name)|;
    ForwardOnly(own, before.Ledger(name), before.SchemaOf(name));
    assert last[..|own|] == own;
    UpToAdvances(last, m, |own|);
    assert last[m..|own|] == own[m..];
  }

  /** The migrations after the first m take a schema from where those leave it to where the
      first n leave it. */
  lemma UpToAdvances(migrations: seq<Migration>, m: nat, n: nat)
    requires Deployable(migrations) && m <= n <= |migrations|
    ensures UpTo(migrations, n)
            == Proceed(Rows(migrations[..n]), Build(UpTo(migrations, m).schema, migrations[m..n]))
  {
    hide Unwrapped;
    hide Contiguous;
    BuildConcat(None, migrations[..m], migrations[m..n]);
    assert migrations[..m] + migrations[m..n] == migrations[..n];
  }

  lemma ListsGrow(releases: seq<seq<Migration>>, i: nat)
    requires i < |releases|
    requires forall k :: 0 <= k < |releases| - 1 ==> AppendsTo(releases[k], releases[k + 1])
    ensures AppendsTo(releases[i], releases[|releases| - 1])
    decreases |releases| - i
  {
    if i < |releases| - 1 {
      ListsGrow(releases, i + 1);
      assert AppendsTo(releases[i], releases[i + 1]);
      forall name ensures ForSchema(releases[i], name) <= ForSchema(releases[|releases| - 1], name) {
        assert ForSchema(releases[i + 1], name) <= ForSchema(releases[|releases| - 1], name);
      }
    }
  }

  /** A sequence of deployments, each of which goes through or changes nothing, of releases
      that the last one appends to. */
  ghost predicate Deployments(states: seq<State>, releases: seq<seq<Migration>>, last: seq<Migration>) {
    && |states| == |releases| + 1
    && (forall i :: 0 <= i < |releases| ==> AppendsTo(releases[i], last))
    && (forall i :: 0 <= i < |releases| ==>
          Succeeded(releases[i], states[i], false, states[i + 1]) || states[i + 1] == states[i])
  }

  /** One schema over a sequence of deployments, each of which succeeds or changes nothing. */
  lemma {:induction false} StaysAlong(states: seq<State>, releases: seq<seq<Migration>>, last: seq<Migration>,
      name: string, k: nat)
    requires Deployments(states, releases, last) && k <= |releases|
    requires Deployable(ForSchema(last, name)) && EmptyFor(last, states[0]) && Mentions(last, name)
    ensures Along(states[k], name, ForSchema(last, name))
  {
    var list := ForSchema(last, name);
    if k == 0 {
      assert list[..0] == [];
    } else {
      StaysAlong(states, releases, last, name, k - 1);
      if states[k] != states[k - 1] {
        var release := releases[k - 1];
        assert Succeeded(release, states[k - 1], false, states[k]);
        assert AppendsTo(release, last);
        MentionedHasSome(release, name);
        if Mentions(release, name) {
          DeploymentAdvances(states[k - 1], states[k], name, ForSchema(release, name), list);
        }
      }
    }
  }

  lemma {:induction false} OthersUntouched(states: seq<State>, releases: seq<seq<Migration>>, last: seq<Migration>,
      name: string, k: nat)
    requires Deployments(states, releases, last) && k <= |releases|
    requires !Mentions(last, name)
    ensures states[k].Ledger(name) == states[0].Ledger(name) && states[k].SchemaOf(name) == states[0].SchemaOf(name)
  {
    if k > 0 {
      OthersUntouched(states, releases, last, name, k - 1);
      assert AppendsTo(releases[k - 1], last);
      MentionedHasSome(releases[k - 1], name);
      MentionedHasSome(last, name);
      assert ForSchema(releases[k - 1], name) <= ForSchema(last, name);
      assert Succeeded(releases[k - 1], states[k - 1], false, states[k]) || states[k] == states[k - 1];
    }
  }

  /** Going through with a registry leaves each of its schemas as its whole list leaves it. */
  lemma WholeListDeployed(registry: seq<Migration>, before: State, after: State, name: string)
    requires Mentions(registry, name) && Deployable(ForSchema(registry, name))
    requires Along(before, name, ForSchema(registry, name))
    requires Succeeded(registry, before, false, after)
    ensures Proceed(after.Ledger(name), after.SchemaOf(name)) == Deployed(ForSchema(registry, name))
  {
    var list := ForSchema(registry, name);
    MentionedHasSome(registry, name);
    DeploymentAdvances(before, after, name, list, list);
    assert list[..|list|] == list;
  }

  lemma SameSchema(states: seq<State>, releases: seq<seq<Migration>>, last: seq<Migration>, direct: State, name: string)
    requires Deployments(states, releases, last) && releases != [] && EmptyFor(last, states[0])
    requires Succeeded(last, states[|releases| - 1], false, states[|releases|])
    requires Succeeded(last, states[0], false, direct)
    ensures states[|releases|].Ledger(name) == direct.Ledger(name)
    ensures states[|releases|].SchemaOf(name) == direct.SchemaOf(name)
  {
    var n := |releases|;
    if Mentions(last, name) {
      RefusalIsExact(ForSchema(last, name), [], None);
      StaysAlong(states, releases, last, name, n - 1);
      StaysAlong(states, releases, last, name, 0);
      WholeListDeployed(last, states[n - 1], states[n], name);
      WholeListDeployed(last, states[0], direct, name);
    } else {
      OthersUntouched(states, releases, last, name, n);
    }
  }

  /** Path independence: if each release only appends, then any sequence of deployments of
      them, some refused or failed, that ends with the last one going through leaves the same
      ledgers and schemas as deploying the last one directly. */
  lemma PathIndependence(states: seq<State>, releases: seq<seq<Migration>>, direct: State)
    requires releases != [] && |states| == |releases| + 1
    requires forall i :: 0 <= i < |releases| - 1 ==> AppendsTo(releases[i], releases[i + 1])
    requires EmptyFor(releases[|releases| - 1], states[0])
    requires forall i :: 0 <= i < |releases| ==>
      Succeeded(releases[i], states[i], false, states[i + 1]) || states[i + 1] == states[i]
    requires Succeeded(releases[|releases| - 1], states[|releases| - 1], false, states[|releases|])
    requires Succeeded(releases[|releases| - 1], states[0], false, direct)
    ensures forall name ::
      && states[|releases|].Ledger(name) == direct.Ledger(name)
      && states[|releases|].SchemaOf(name) == direct.SchemaOf(name)
  {
    var last := releases[|releases| - 1];
    forall i | 0 <= i < |releases| ensures AppendsTo(releases[i], last) {
      ListsGrow(releases, i);
    }
    assert Deployments(states, releases, last);
    forall name
      ensures states[|releases|].Ledger(name) == direct.Ledger(name)
      ensures states[|releases|].SchemaOf(name) == direct.SchemaOf(name)
    {
      SameSchema(states, releases, last, direct, name);
    }
  }

  /** Deploying the same registry again changes nothing. */
  lemma RerunChangesNothing(registry: seq<Migration>, before: State, db: State, again: State)
    requires Succeeded(registry, before, false, db) && Succeeded(registry, db, false, again)
    ensures forall name :: again.Ledger(name) == db.Ledger(name) && again.SchemaOf(name) == db.SchemaOf(name)
  {
    forall name ensures again.Ledger(name) == db.Ledger(name) && again.SchemaOf(name) == db.SchemaOf(name) {
      if Mentions(registry, name) {
        var list := ForSchema(registry, name);
        ForwardOnly(list, before.Ledger(name), before.SchemaOf(name));
        ForwardOnly(list, db.Ledger(name), db.SchemaOf(name));
        assert list[|list|..] == [];
      }
    }
  }

  /** An empty database accepts exactly the registries whose lists are all deployable. */
  lemma EmptyAccepts(registry: seq<Migration>, db: State)
    requires EmptyFor(registry, db)
    ensures !Refused(registry, db, false)
            <==> forall name :: Mentions(registry, name) ==> Deployable(ForSchema(registry, name))
  {
    hide Decide;
    forall name | Mentions(registry, name)
      ensures VerdictOn(registry, db, name, false).Proceed? <==> Deployable(ForSchema(registry, name))
    {
      RefusalIsExact(ForSchema(registry, name), [], None);
    }
  }

  /** Behind any release it appends to, a sound release is never refused. */
  lemma AppendedReleaseDeploys(earlier: seq<Migration>, later: seq<Migration>, before: State, db: State)
    requires SoundRelease(later) && AppendsTo(earlier, later) && EmptyFor(later, before)
    requires Succeeded(earlier, before, false, db)
    ensures !Refused(later, db, false)
  {
    hide Decide, Sound;
    forall name | Mentions(later, name) ensures VerdictOn(later, db, name, false).Proceed? {
      var own, list := ForSchema(earlier, name), ForSchema(later, name);
      assert Sound(list) && own <= list;
      MentionedHasSome(earlier, name);
      if Mentions(earlier, name) {
        ForwardOnly(own, [], None);
        assert own[0..] == own;
      } else {
        assert Rows([]) == [];
      }
      ExtensionDeploys(own, list, false);
    }
  }

  /** The position of the first mention, or the length of a registry without one. */
  function FirstMention(registry: seq<Migration>, name: string): nat {
    if registry == [] || registry[0].schema == name then 0 else 1 + FirstMention(registry[1..], name)
  }

  lemma {:induction false} MentionedFirst(registry: seq<Migration>, name: string)
    ensures var k := FirstMention(registry, name);
      && k <= |registry| && (k < |registry| ==> registry[k].schema == name)
      && forall j :: 0 <= j < k ==> registry[j].schema != name
  {
    if registry != [] && registry[0].schema != name {
      MentionedFirst(registry[1..], name);
      assert forall j :: 0 < j < |registry| ==> registry[j] == registry[1..][j - 1];
    }
  }

  predicate InOrderOfMention(registry: seq<Migration>, names: seq<string>) {
    forall i, j :: 0 <= i < j < |names| ==> FirstMention(registry, names[i]) < FirstMention(registry, names[j])
  }

  /** Two databases with the same ledger for a schema, deployed from nothing along whatever
      lists, have the same schema. */
  lemma SameLedgerSameSchema(a: State, b: State, name: string, listA: seq<Migration>, listB: seq<Migration>)
    requires Deployable(listA) && Deployable(listB) && Along(a, name, listA) && Along(b, name, listB)
    requires a.Ledger(name) == b.Ledger(name)
    ensures a.SchemaOf(name) == b.SchemaOf(name)
  {
    var m := |a.Ledger(name)|;
    LedgerFixesSchema(listA[..m], listB[..m]);
  }

  /** How many of the first k items of the registry are of the schema. */
  function CountFor(registry: seq<Migration>, name: string, k: nat): nat
    requires k <= |registry|
  {
    if k == 0 then 0 else CountFor(registry, name, k - 1) + if registry[k - 1].schema == name then 1 else 0
  }

  lemma {:induction false} CountOfFront(registry: seq<Migration>, name: string, n: nat, k: nat)
    requires k <= n <= |registry|
    ensures CountFor(registry[..n], name, k) == CountFor(registry, name, k)
  {
    if k > 0 {
      CountOfFront(registry, name, n, k - 1);
    }
  }

  lemma ForSchemaFront(registry: seq<Migration>, name: string)
    requires registry != []
    ensures ForSchema(registry, name)
            == (if registry[0].schema == name then [registry[0]] else []) + ForSchema(registry[1..], name)
  {
  }

  lemma {:induction false} ForSchemaConcat(a: seq<Migration>, b: seq<Migration>, name: string)
    ensures ForSchema(a + b, name) == ForSchema(a, name) + ForSchema(b, name)
  {
    if a == [] {
      assert a + b == b;
    } else {
      hide ForSchema;
      assert (a + b)[1..] == a[1..] + b;
      ForSchemaFront(a + b, name);
      ForSchemaFront(a, name);
      ForSchemaConcat(a[1..], b, name);
    }
  }

  lemma ForSchemaOne(m: Migration, name: string)
    ensures ForSchema([m], name) == if m.schema == name then [m] else []
  {
    assert [m][1..] == [];
  }

  /** The list of a schema holds exactly the items of the registry that are of it, in order. */
  lemma {:induction false} ForSchemaMeans(registry: seq<Migration>, name: string)
    ensures |ForSchema(registry, name)| == CountFor(registry, name, |registry|)
    ensures forall k :: 0 <= k < |registry| && registry[k].schema == name ==>
      && CountFor(registry, name, k) < |ForSchema(registry, name)|
      && ForSchema(registry, name)[CountFor(registry, name, k)] == registry[k]
    decreases |registry|
  {
    hide ForSchema;
    if registry == [] {
      ForSchemaNothing(name);
    } else {
      var n := |registry| - 1;
      var front, last := registry[..n], if registry[n].schema == name then [registry[n]] else [];
      assert registry == front + [registry[n]];
      ForSchemaConcat(front, [registry[n]], name);
      ForSchemaOne(registry[n], name);
      ForSchemaMeans(front, name);
      CountOfFront(registry, name, n, n);
      var list := ForSchema(registry, name);
      assert list == ForSchema(front, name) + last && |list| == CountFor(registry, name, |registry|);
      hide CountFor;
      forall k | 0 <= k < |registry| && registry[k].schema == name
        ensures CountFor(registry, name, k) < |list| && list[CountFor(registry, name, k)] == registry[k]
      {
        CountOfFront(registry, name, n, k);
        assert k < n ==> front[k] == registry[k] && front[k].schema == name;
      }
    }
  }

  lemma ForSchemaNothing(name: string)
    ensures ForSchema([], name) == []
  {
  }

  /** Everything in the list of a schema is an item of the registry that is of it, as often. */
  lemma {:induction false} ForSchemaMembers(registry: seq<Migration>, name: string)
    ensures forall m :: m in ForSchema(registry, name) <==> m in registry && m.schema == name
    ensures forall m: Migration :: m.schema == name ==>
      multiset(ForSchema(registry, name))[m] == multiset(registry)[m]
  {
    if registry != [] {
      ForSchemaMembers(registry[1..], name);
      assert registry == [registry[0]] + registry[1..];
    }
  }

  /** The ledger of every schema of the registry: one row for each of its items, in the order of
      the registry, with version, name and checksum of the item, and none besides. */
  ghost predicate LedgersHold(registry: seq<Migration>, db: State) {
    forall name :: Mentions(registry, name) ==> LedgerHolds(registry, name, db.Ledger(name))
  }

  predicate LedgerHolds(registry: seq<Migration>, name: string, ledger: seq<Row>) {
    && |ledger| == CountFor(registry, name, |registry|)
    && forall k :: 0 <= k < |registry| && registry[k].schema == name ==>
         && CountFor(registry, name, k) < |ledger|
         && ledger[CountFor(registry, name, k)] == Row(registry[k].version, registry[k].name, registry[k].source)
  }

  /** A deployment that goes through records every migration of the registry, whatever it found. */
  lemma SuccessRecordsAll(registry: seq<Migration>, before: State, rebuild: bool, after: State)
    requires Succeeded(registry, before, rebuild, after)
    ensures LedgersHold(registry, after)
  {
    hide Decide, ForSchema, CountFor;
    forall name | Mentions(registry, name) ensures LedgerHolds(registry, name, after.Ledger(name)) {
      var list := ForSchema(registry, name);
      ProceedRecordsAll(list, before.Ledger(name), before.SchemaOf(name), rebuild);
      ForSchemaMeans(registry, name);
    }
  }

  lemma ScriptOf(migrations: seq<Migration>, k: nat)
    requires k < |migrations| && forall j :: 0 <= j < |migrations| ==> migrations[j].source.Script().Some?
    ensures Build(None, migrations).Some? && |Build(None, migrations).value.scripts| == |migrations|
    ensures Some(Build(None, migrations).value.scripts[k]) == Unwrapped(migrations[k].source.text)
  {
    hide Unwrapped, Remains, Build;
    BuildMeans(None, migrations);
  }

  lemma SuccessBuilds(registry: seq<Migration>, before: State, after: State, name: string)
    requires Mentions(registry, name) && EmptyFor(registry, before) && Succeeded(registry, before, false, after)
    ensures var list := ForSchema(registry, name);
      && (forall k :: 0 <= k < |list| ==> list[k].source.Script().Some?)
      && after.SchemaOf(name) == Build(None, list)
  {
    hide Decide, ForSchema, Unwrapped, Build;
    var list := ForSchema(registry, name);
    ForwardOnly(list, [], None);
    assert list[0..] == list;
  }

  /** From nothing, a schema comes of the scripts of exactly these migrations, in order. */
  lemma SuccessRunsAll(registry: seq<Migration>, before: State, after: State, name: string, k: nat)
    requires EmptyFor(registry, before) && Succeeded(registry, before, false, after)
    requires k < |registry| && registry[k].schema == name
    ensures after.SchemaOf(name).Some?
    ensures var scripts := after.SchemaOf(name).value.scripts;
      && |scripts| == CountFor(registry, name, |registry|) && CountFor(registry, name, k) < |scripts|
      && Some(scripts[CountFor(registry, name, k)]) == Unwrapped(registry[k].source.text)
  {
    assert Mentions(registry, name);
    SuccessBuilds(registry, before, after, name);
    hide ForSchema, CountFor, Unwrapped, Build, Succeeded, EmptyFor, Mentions;
    ForSchemaMeans(registry, name);
    ScriptOf(ForSchema(registry, name), CountFor(registry, name, k));
  }

  class Database {
    var ledgers: map<string, seq<Row>>
    var schemas: map<string, Schema>

    ghost function View(): State reads this { State(ledgers, schemas) }

    /** `tuple(dict.fromkeys(...))`: the schema names in order of first mention. */
    static method SchemaNames(registry: seq<Migration>) returns (names: seq<string>)
      ensures Distinct(names)
      ensures forall name :: name in names <==> Mentions(registry, name)
      ensures InOrderOfMention(registry, names)
    {
      names := [];
      for k := 0 to |registry|
        invariant Distinct(names)
        invariant forall name :: name in names <==> exists j :: 0 <= j < k && registry[j].schema == name
        invariant forall i :: 0 <= i < |names| ==> FirstMention(registry, names[i]) < k
        invariant InOrderOfMention(registry, names)
      {
        MentionedFirst(registry, registry[k].schema);
        if registry[k].schema !in names {
          names := names + [registry[k].schema];
        }
      }
    }

    method DropSchema(name: string)
      modifies `schemas
      ensures schemas == old(schemas) - {name}
    {
      schemas := schemas - {name};
    }

    /** The pending migrations of one schema, each executed and recorded. */
    method ExecutePending(name: string, migrations: seq<Migration>, from: nat, anchorExists: bool)
      returns (r: Option<Refusal>)
      requires from <= |migrations|
      modifies this
      ensures forall other :: other != name ==>
        View().Ledger(other) == old(View()).Ledger(other) && View().SchemaOf(other) == old(View()).SchemaOf(other)
      ensures var v := Pending(migrations[from..], old(View()).Ledger(name), old(View()).SchemaOf(name), anchorExists);
        if r.None? then v == Proceed(View().Ledger(name), View().SchemaOf(name)) else v == Refuse(r.value)
    {
      hide Executed, NameTaken, RowOf, Unwrapped;
      var anchored := anchorExists;
      for k := from to |migrations|
        invariant forall other :: other != name ==>
          View().Ledger(other) == old(View()).Ledger(other) && View().SchemaOf(other) == old(View()).SchemaOf(other)
        invariant Pending(migrations[from..], old(View()).Ledger(name), old(View()).SchemaOf(name), anchorExists)
          == Pending(migrations[k..], View().Ledger(name), View().SchemaOf(name), anchored)
      {
        var m := migrations[k];
        assert migrations[k..][1..] == migrations[k + 1..];
        if m.version == 1 {
          if anchored {
            return Some(BaselineOverSchema);
          }
        } else if !anchored {
          return Some(DeltaWithoutBaseline);
        }
        if m.source.Script().None? {
          return Some(NoWrapper);
        }
        var rows := if name in ledgers then ledgers[name] else [];
        if NameTaken(rows, m.name) {
          return Some(DuplicateName);
        }
        schemas := schemas[name := Executed(if name in schemas then Some(schemas[name]) else None, m)];
        anchored := true;
        ledgers := ledgers[name := rows + [RowOf(m)]];
      }
      return None;
    }

    /** One pass of the loop over the schema names. */
    method ApplySchema(name: string, migrations: seq<Migration>, rebuild: bool) returns (r: Option<Refusal>)
      modifies this
      ensures forall other :: other != name ==>
        View().Ledger(other) == old(View()).Ledger(other) && View().SchemaOf(other) == old(View()).SchemaOf(other)
      ensures var v := Decide(migrations, old(View()).Ledger(name), old(View()).SchemaOf(name), rebuild);
        if r.None? then v == Proceed(View().Ledger(name), View().SchemaOf(name)) else v == Refuse(r.value)
    {
      if exists k :: 0 <= k < |migrations| && migrations[k].version != k + 1 {
        return Some(NotContiguous);
      }
      var anchorExists := Anchored(if name in schemas then Some(schemas[name]) else None, migrations);
      var applied := if name in ledgers then ledgers[name] else [];
      if anchorExists && applied == [] {
        if !rebuild {
          return Some(Unadopted);
        }
        DropSchema(name);
        anchorExists := false;
      }
      if !IsPrefix(applied, migrations) {
        if !rebuild {
          return Some(Rewritten);
        }
        DropSchema(name);
        ledgers := ledgers - {name};
        anchorExists := false;
        applied := [];
      }
      if !anchorExists && applied != [] {
        return Some(SchemaAbsent);
      }
      assert migrations[0..] == migrations;
      r := ExecutePending(name, migrations, |applied|, anchorExists);
    }

    /** `apply_target_migrations`; what it raises leaves the database as far as it had got. */
    method ApplyTargetMigrations(registry: seq<Migration>, rebuild: bool) returns (r: Option<Refusal>)
      modifies this
      ensures r.None? ==> Succeeded(registry, old(View()), rebuild, View()) && LedgersHold(registry, View())
      ensures r.Some? ==> Refused(registry, old(View()), rebuild)
    {
      hide Decide, ForSchema, LedgerHolds;
      var names := SchemaNames(registry);
      for i := 0 to |names|
        invariant forall j :: 0 <= j < i ==>
          VerdictOn(registry, old(View()), names[j], rebuild)
          == Proceed(View().Ledger(names[j]), View().SchemaOf(names[j]))
        invariant forall name :: name !in names[..i] ==>
          View().Ledger(name) == old(View()).Ledger(name) && View().SchemaOf(name) == old(View()).SchemaOf(name)
      {
        r := ApplySchema(names[i], ForSchema(registry, names[i]), rebuild);
        if r.Some? {
          assert Mentions(registry, names[i]) && VerdictOn(registry, old(View()), names[i], rebuild).Refuse?;
          return;
        }
      }
      SuccessRecordsAll(registry, old(View()), rebuild, View());
      return None;
    }

    /** The bootstrap runs the migrations in one transaction: a refusal, or a failure anywhere,
        leaves the database as it was. */
    method Bootstrap(registry: seq<Migration>, rebuild: bool) returns (r: Option<Refusal>, failed: bool)
      modifies this
      ensures r.Some? || failed ==> View() == old(View())
      ensures !failed && r.None? ==> Succeeded(registry, old(View()), rebuild, View()) && LedgersHold(registry, View())
      ensures !failed ==> (r.Some? <==> Refused(registry, old(View()), rebuild))
    {
      var savedLedgers, savedSchemas := ledgers, schemas;
      r := ApplyTargetMigrations(registry, rebuild);
      failed := *;
      if r.Some? || failed {
        ledgers, schemas := savedLedgers, savedSchemas;
      }
    }
  }
}
