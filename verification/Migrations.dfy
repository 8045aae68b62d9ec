/**
 The forward-only, checksum-bound migrator of tools/target_schema_migrations.py: the decision
 it takes for one schema, as a function of the registry, the ledger and the schema.
 */
module Migrations {
  import opened Common
  import opened TransactionWrapper

  /** A source file: its text, and what running its script creates and drops. */
  datatype Source = Source(text: string, creates: set<string>, drops: set<string>) {
    function Script(): Option<string> { Unwrapped(text) }
  }

  datatype Migration = Migration(schema: string, version: int, name: string, source: Source, anchor: string)

  /** One ledger row of a schema. The checksum is the digest of the source, which is injective
      and is represented by the source. */
  datatype Row = Row(version: int, name: string, checksum: Source)

  /** A schema: the tables it holds and the scripts that made it what it is. */
  datatype Schema = Schema(tables: set<string>, scripts: seq<string>)

  datatype Refusal =
    | NotContiguous | Unadopted | Rewritten | SchemaAbsent
    | BaselineOverSchema | DeltaWithoutBaseline | NoWrapper | DuplicateName

  datatype Verdict = Refuse(reason: Refusal) | Proceed(ledger: seq<Row>, schema: Option<Schema>)

  function RowOf(m: Migration): Row { Row(m.version, m.name, m.source) }

  function Rows(migrations: seq<Migration>): (rows: seq<Row>)
    ensures |rows| == |migrations|
    ensures forall k :: 0 <= k < |rows| ==> rows[k] == RowOf(migrations[k])
  {
    seq(|migrations|, k requires 0 <= k < |migrations| => RowOf(migrations[k]))
  }

  /** Versions are 1, 2, 3 and so on. */
  predicate Contiguous(migrations: seq<Migration>) {
    forall k :: 0 <= k < |migrations| ==> migrations[k].version == k + 1
  }

  predicate IsPrefix(ledger: seq<Row>, migrations: seq<Migration>) {
    |ledger| <= |migrations| && ledger == Rows(migrations[..|ledger|])
  }

  predicate Anchored(schema: Option<Schema>, migrations: seq<Migration>) {
    migrations != [] && schema.Some? && migrations[0].anchor in schema.value.tables
  }

  predicate NameTaken(ledger: seq<Row>, name: string) {
    exists k :: 0 <= k < |ledger| && ledger[k].name == name
  }

  /** Executing a script: what it creates is there afterwards, what it drops is not. */
  function Executed(schema: Option<Schema>, m: Migration): Schema
    requires m.source.Script().Some?
  {
    var before := if schema.Some? then schema.value else Schema({}, []);
    Schema(before.tables - m.source.drops + m.source.creates, before.scripts + [m.source.Script().value])
  }

  /** The pending migrations, one after the other, each recorded once executed. */
  function Pending(migrations: seq<Migration>, ledger: seq<Row>, schema: Option<Schema>, anchored: bool): Verdict
    decreases |migrations|
  {
    if migrations == [] then Proceed(ledger, schema)
    else
      var m := migrations[0];
      if m.version == 1 && anchored then Refuse(BaselineOverSchema)
      else if m.version != 1 && !anchored then Refuse(DeltaWithoutBaseline)
      else if m.source.Script().None? then Refuse(NoWrapper)
      else if NameTaken(ledger, m.name) then Refuse(DuplicateName)
      else Pending(migrations[1..], ledger + [RowOf(m)], Some(Executed(schema, m)), true)
  }

  /** The decision for one schema. */
  function Decide(migrations: seq<Migration>, ledger: seq<Row>, schema: Option<Schema>, rebuild: bool): Verdict {
    var anchored := Anchored(schema, migrations);
    if !Contiguous(migrations) then Refuse(NotContiguous)
    else if anchored && ledger == [] then
      if rebuild then Pending(migrations, [], None, false) else Refuse(Unadopted)
    else if !IsPrefix(ledger, migrations) then
      if rebuild then Pending(migrations, [], None, false) else Refuse(Rewritten)
    else if !anchored && ledger != [] then Refuse(SchemaAbsent)
    else Pending(migrations[|ledger|..], ledger, schema, anchored)
  }

  /** Pending migrations that can be executed and recorded: exactly wrapped, and under a name
      that no earlier migration of the schema has. */
  predicate Recordable(migrations: seq<Migration>, from: nat) {
    forall k :: from <= k < |migrations| ==>
      migrations[k].source.Script().Some? && forall j :: 0 <= j < k ==> migrations[j].name != migrations[k].name
  }

  /** The schema that a list of migrations builds from another. */
  function Build(schema: Option<Schema>, migrations: seq<Migration>): Option<Schema>
    requires forall k :: 0 <= k < |migrations| ==> migrations[k].source.Script().Some?
  {
    if migrations == [] then schema
    else Some(Executed(Build(schema, migrations[..|migrations| - 1]), migrations[|migrations| - 1]))
  }

  lemma BuildFront(schema: Option<Schema>, migrations: seq<Migration>)
    requires migrations != [] && forall k :: 0 <= k < |migrations| ==> migrations[k].source.Script().Some?
    ensures Build(schema, migrations) == Build(Some(Executed(schema, migrations[0])), migrations[1..])
  {
    hide Unwrapped;
    if |migrations| > 1 {
      BuildFront(schema, migrations[..|migrations| - 1]);
      assert migrations[..|migrations| - 1][1..] == migrations[1..][..|migrations| - 2];
    } else {
      assert migrations[1..] == [];
      assert migrations[..0] == [];
    }
  }

  /** A taken name is the name of an earlier migration. */
  lemma TakenIsEarlier(migrations: seq<Migration>, from: nat)
    requires from < |migrations|
    ensures NameTaken(Rows(migrations[..from]), migrations[from].name) <==>
      exists j :: 0 <= j < from && migrations[j].name == migrations[from].name
  {
    var rows := Rows(migrations[..from]);
    forall j | 0 <= j < from ensures rows[j].name == migrations[j].name {}
  }

  /** The pending loop executes and records all that is pending when it can. */
  lemma {:induction false} PendingProceeds(migrations: seq<Migration>, from: nat, schema: Option<Schema>)
    requires Contiguous(migrations) && from <= |migrations| && Recordable(migrations, from)
    ensures Pending(migrations[from..], Rows(migrations[..from]), schema, from > 0)
      == Proceed(Rows(migrations), Build(schema, migrations[from..]))
    decreases |migrations| - from
  {
    hide Unwrapped;
    if from == |migrations| {
      assert migrations[..from] == migrations;
    } else {
      TakenIsEarlier(migrations, from);
      assert migrations[from..][1..] == migrations[from + 1..];
      assert Rows(migrations[..from + 1]) == Rows(migrations[..from]) + [RowOf(migrations[from])];
      PendingProceeds(migrations, from + 1, Some(Executed(schema, migrations[from])));
      BuildFront(schema, migrations[from..]);
    }
  }

  /** When it cannot, it refuses for a source or a name; its two guards never fire. */
  lemma {:induction false} PendingRefuses(migrations: seq<Migration>, from: nat, schema: Option<Schema>)
    requires Contiguous(migrations) && from <= |migrations| && !Recordable(migrations, from)
    ensures var v := Pending(migrations[from..], Rows(migrations[..from]), schema, from > 0);
      v.Refuse? && v.reason in {NoWrapper, DuplicateName}
    decreases |migrations| - from
  {
    hide Unwrapped;
    TakenIsEarlier(migrations, from);
    assert migrations[from..][1..] == migrations[from + 1..];
    assert Rows(migrations[..from + 1]) == Rows(migrations[..from]) + [RowOf(migrations[from])];
    if migrations[from].source.Script().Some? && !NameTaken(Rows(migrations[..from]), migrations[from].name) {
      PendingRefuses(migrations, from + 1, Some(Executed(schema, migrations[from])));
    }
  }

  /** So the pending loop proceeds exactly when all that is pending can be executed and recorded. */
  lemma PendingDecides(migrations: seq<Migration>, from: nat, schema: Option<Schema>)
    requires Contiguous(migrations) && from <= |migrations|
    ensures var v := Pending(migrations[from..], Rows(migrations[..from]), schema, from > 0);
      if Recordable(migrations, from) then v == Proceed(Rows(migrations), Build(schema, migrations[from..]))
      else v.Refuse? && v.reason in {NoWrapper, DuplicateName}
  {
    hide Unwrapped;
    if Recordable(migrations, from) {
      PendingProceeds(migrations, from, schema);
    } else {
      PendingRefuses(migrations, from, schema);
    }
  }

  /** How many migrations of the schema a run starts behind. */
  function Applied(migrations: seq<Migration>, ledger: seq<Row>, schema: Option<Schema>): nat {
    if IsPrefix(ledger, migrations) then |ledger| else 0
  }

  /** Without rebuild a schema is refused exactly for a registry that is not contiguous, an
      anchor without history, a history that is not an exact prefix, a history without its
      anchor, or a pending migration that cannot be executed and recorded. */
  lemma RefusalIsExact(migrations: seq<Migration>, ledger: seq<Row>, schema: Option<Schema>)
    ensures Decide(migrations, ledger, schema, false).Refuse? <==>
      || !Contiguous(migrations)
      || (Anchored(schema, migrations) && ledger == [])
      || !IsPrefix(ledger, migrations)
      || (!Anchored(schema, migrations) && ledger != [])
      || !Recordable(migrations, |ledger|)
  {
    hide Unwrapped;
    if Contiguous(migrations) && IsPrefix(ledger, migrations) && (Anchored(schema, migrations) <==> ledger != []) {
      PendingDecides(migrations, |ledger|, schema);
    }
  }

  /** With rebuild only the first and the fourth remain, beside what is pending after a drop. */
  lemma RebuildRefusalIsExact(migrations: seq<Migration>, ledger: seq<Row>, schema: Option<Schema>)
    ensures Decide(migrations, ledger, schema, true).Refuse? <==>
      || !Contiguous(migrations)
      || (IsPrefix(ledger, migrations) && ledger != [] && !Anchored(schema, migrations))
      || !Recordable(migrations, Applied(migrations, ledger, schema))
  {
    hide Unwrapped;
    if Contiguous(migrations) {
      assert migrations[0..] == migrations && Rows(migrations[..0]) == [];
      var from := Applied(migrations, ledger, schema);
      if (Anchored(schema, migrations) && ledger == []) || !IsPrefix(ledger, migrations) {
        PendingDecides(migrations, 0, None);
      } else if Anchored(schema, migrations) || ledger == [] {
        PendingDecides(migrations, from, schema);
      }
    }
  }

  /** Neither of the two guards inside the loop is ever the reason. */
  lemma LoopGuardsUnreachable(migrations: seq<Migration>, ledger: seq<Row>, schema: Option<Schema>, rebuild: bool)
    ensures Decide(migrations, ledger, schema, rebuild) != Refuse(BaselineOverSchema)
    ensures Decide(migrations, ledger, schema, rebuild) != Refuse(DeltaWithoutBaseline)
  {
    hide Unwrapped;
    if Contiguous(migrations) {
      assert migrations[0..] == migrations && Rows(migrations[..0]) == [];
      PendingDecides(migrations, 0, None);
      if IsPrefix(ledger, migrations) {
        PendingDecides(migrations, |ledger|, schema);
      }
    }
  }

  /** Without rebuild nothing is dropped: the history and the scripts of the schema only grow,
      by exactly the pending migrations. */
  lemma ForwardOnly(migrations: seq<Migration>, ledger: seq<Row>, schema: Option<Schema>)
    requires Decide(migrations, ledger, schema, false).Proceed?
    ensures var v := Decide(migrations, ledger, schema, false);
      && v.ledger == Rows(migrations) && ledger <= v.ledger
      && Recordable(migrations, |ledger|) && v.schema == Build(schema, migrations[|ledger|..])
      && (schema.Some? ==> v.schema.Some? && schema.value.scripts <= v.schema.value.scripts)
  {
    hide Unwrapped;
    RefusalIsExact(migrations, ledger, schema);
    PendingProceeds(migrations, |ledger|, schema);
    BuildGrows(schema, migrations[|ledger|..]);
    assert Rows(migrations[..|ledger|]) == Rows(migrations)[..|ledger|];
  }

  lemma {:induction false} BuildGrows(schema: Option<Schema>, migrations: seq<Migration>)
    requires forall k :: 0 <= k < |migrations| ==> migrations[k].source.Script().Some?
    ensures schema.Some? ==>
      Build(schema, migrations).Some? && schema.value.scripts <= Build(schema, migrations).value.scripts
    decreases |migrations|
  {
    hide Unwrapped;
    if migrations != [] {
      BuildGrows(schema, migrations[..|migrations| - 1]);
    }
  }

  lemma {:induction false} BuildConcat(schema: Option<Schema>, first: seq<Migration>, rest: seq<Migration>)
    requires forall k :: 0 <= k < |first| ==> first[k].source.Script().Some?
    requires forall k :: 0 <= k < |rest| ==> rest[k].source.Script().Some?
    ensures Build(schema, first + rest) == Build(Build(schema, first), rest)
    decreases |rest|
  {
    hide Unwrapped;
    if rest == [] {
      assert first + rest == first;
    } else {
      BuildConcat(schema, first, rest[..|rest| - 1]);
      assert (first + rest)[..|first + rest| - 1] == first + rest[..|rest| - 1];
    }
  }

  /** A list that an empty database accepts: contiguous, exactly wrapped, distinctly named. */
  predicate Deployable(migrations: seq<Migration>) {
    Contiguous(migrations) && Recordable(migrations, 0)
  }

  /** A deployable list whose baseline creates the anchor, which nothing drops: what a release
      has to be for the next deployment to go through too. */
  predicate Sound(migrations: seq<Migration>) {
    && Deployable(migrations)
    && (forall k :: 0 <= k < |migrations| ==>
          (k == 0 ==> migrations[0].anchor in migrations[0].source.creates)
          && (k > 0 ==> migrations[0].anchor !in migrations[k].source.drops))
  }

  /** What deploying the migrations of a schema to an empty database leaves. */
  function Deployed(migrations: seq<Migration>): Verdict
    requires Deployable(migrations)
  {
    Proceed(Rows(migrations), Build(None, migrations))
  }

  lemma {:induction false} DeployedIsAnchored(migrations: seq<Migration>)
    requires Sound(migrations) && migrations != []
    ensures Anchored(Build(None, migrations), migrations)
    decreases |migrations|
  {
    hide Unwrapped;
    if |migrations| > 1 {
      DeployedIsAnchored(migrations[..|migrations| - 1]);
    }
  }

  lemma SoundPrefix(earlier: seq<Migration>, later: seq<Migration>)
    requires Sound(later) && earlier <= later
    ensures Sound(earlier) && Recordable(later, |earlier|) && IsPrefix(Rows(earlier), later)
    ensures Anchored(Build(None, earlier), later) <==> earlier != []
  {
    hide Unwrapped, Executed;
    assert earlier == later[..|earlier|];
    if earlier != [] {
      DeployedIsAnchored(earlier);
    }
  }

  /** Deploying a list that extends the one deployed gives what an empty database would give;
      with the same list it changes nothing. */
  lemma ExtensionDeploys(earlier: seq<Migration>, later: seq<Migration>, rebuild: bool)
    requires Sound(later) && earlier <= later
    ensures Sound(earlier)
    ensures Decide(later, Rows(earlier), Build(None, earlier), rebuild) == Deployed(later)
  {
    hide Unwrapped;
    hide Build, Contiguous, Pending, Executed, NameTaken, Anchored;
    SoundPrefix(earlier, later);
    var rest := later[|earlier|..];
    assert Rows(later[..|earlier|]) == Rows(earlier);
    PendingProceeds(later, |earlier|, Build(None, earlier));
    BuildConcat(None, earlier, rest);
    assert earlier + rest == later;
    assert Rows(earlier) == [] <==> earlier == [];
  }

  /** A rebuild of a schema whose history is missing or rewritten starts over: it leaves what an
      empty database would get. */
  lemma RebuildStartsOver(migrations: seq<Migration>, ledger: seq<Row>, schema: Option<Schema>)
    requires Deployable(migrations)
    requires (Anchored(schema, migrations) && ledger == []) || !IsPrefix(ledger, migrations)
    ensures Decide(migrations, ledger, schema, true) == Deployed(migrations)
  {
    hide Unwrapped;
    assert migrations[0..] == migrations && Rows(migrations[..0]) == [];
    PendingProceeds(migrations, 0, None);
  }

  lemma PrefixAgrees(migrations: seq<Migration>, ledger: seq<Row>)
    ensures IsPrefix(ledger, migrations) <==>
      |ledger| <= |migrations| && forall k :: 0 <= k < |ledger| ==> RowOf(migrations[k]) == ledger[k]
  {
  }

  /** A list that drops, renames or rewrites anything of the recorded history, an applied script
      included, is refused as such. */
  lemma RewriteRefused(migrations: seq<Migration>, ledger: seq<Row>, schema: Option<Schema>, k: nat)
    requires Contiguous(migrations) && k < |ledger| && (k < |migrations| ==> RowOf(migrations[k]) != ledger[k])
    ensures Decide(migrations, ledger, schema, false) == Refuse(Rewritten)
  {
    PrefixAgrees(migrations, ledger);
  }

  /** Lists that leave the same ledger build the same schema. */
  lemma {:induction false} LedgerFixesSchema(a: seq<Migration>, b: seq<Migration>)
    requires Rows(a) == Rows(b)
    requires forall k :: 0 <= k < |a| ==> a[k].source.Script().Some?
    requires forall k :: 0 <= k < |b| ==> b[k].source.Script().Some?
    ensures Build(None, a) == Build(None, b)
    decreases |a|
  {
    hide Unwrapped;
    assert |a| == |Rows(a)| == |Rows(b)| == |b|;
    if a != [] {
      var n := |a| - 1;
      assert Rows(a[..n]) == Rows(a)[..n] == Rows(b)[..n] == Rows(b[..n]);
      LedgerFixesSchema(a[..n], b[..n]);
      assert RowOf(a[n]) == Rows(a)[n] == Rows(b)[n] == RowOf(b[n]);
    }
  }

  /** Deploying an older list over a newer one is refused. */
  lemma DowngradeRefused(older: seq<Migration>, newer: seq<Migration>)
    requires Sound(newer) && older < newer && older != []
    ensures Decide(older, Rows(newer), Build(None, newer), false) == Refuse(Rewritten)
  {
    hide Unwrapped;
    DeployedIsAnchored(newer);
  }

  predicate HasTable(schema: Option<Schema>, table: string) { schema.Some? && table in schema.value.tables }

  /** The ledger is the front of the list: its versions, names and sources. */
  predicate Records(ledger: seq<Row>, migrations: seq<Migration>) {
    && |ledger| <= |migrations|
    && forall k :: 0 <= k < |ledger| ==>
         && ledger[k].version == migrations[k].version && ledger[k].name == migrations[k].name
         && ledger[k].checksum == migrations[k].source
  }

  /** The migration at k has the transaction wrapper, and no earlier one its name. */
  ghost predicate CanRun(migrations: seq<Migration>, k: nat)
    requires k < |migrations|
  {
    && (exists head, body, space :: Wrapped(migrations[k].source.text, head, body, space))
    && forall j :: 0 <= j < k ==> migrations[j].name != migrations[k].name
  }

  lemma RecordableMeans(migrations: seq<Migration>, from: nat)
    ensures Recordable(migrations, from) <==> forall k :: from <= k < |migrations| ==> CanRun(migrations, k)
  {
    hide CanRun, Unwrapped;
    forall k | from <= k < |migrations|
      ensures CanRun(migrations, k) <==>
        migrations[k].source.Script().Some? && forall j :: 0 <= j < k ==> migrations[j].name != migrations[k].name
    {
      CanRunMeans(migrations, k);
    }
  }

  lemma CanRunMeans(migrations: seq<Migration>, k: nat)
    requires k < |migrations|
    ensures CanRun(migrations, k) <==>
      migrations[k].source.Script().Some? && forall j :: 0 <= j < k ==> migrations[j].name != migrations[k].name
  {
    hide Unwrapped, Wrapped;
    UnwrapsExactly(migrations[k].source.text);
  }

  lemma PrefixMeans(ledger: seq<Row>, migrations: seq<Migration>)
    ensures IsPrefix(ledger, migrations) <==> Records(ledger, migrations)
  {
    PrefixAgrees(migrations, ledger);
  }

  /** The refusals without rebuild, in terms of what the source compares. */
  lemma RefusalInFull(migrations: seq<Migration>, ledger: seq<Row>, schema: Option<Schema>)
    requires migrations != []
    ensures Decide(migrations, ledger, schema, false).Refuse? <==>
      || (exists k :: 0 <= k < |migrations| && migrations[k].version != k + 1)
      || (HasTable(schema, migrations[0].anchor) && ledger == [])
      || !Records(ledger, migrations)
      || (!HasTable(schema, migrations[0].anchor) && ledger != [])
      || (exists k :: |ledger| <= k < |migrations| && !CanRun(migrations, k))
  {
    hide Decide, CanRun;
    RefusalIsExact(migrations, ledger, schema);
    PrefixMeans(ledger, migrations);
    RecordableMeans(migrations, |ledger|);
  }

  /** The refusals with rebuild. */
  lemma RebuildRefusalInFull(migrations: seq<Migration>, ledger: seq<Row>, schema: Option<Schema>)
    requires migrations != []
    ensures Decide(migrations, ledger, schema, true).Refuse? <==>
      || (exists k :: 0 <= k < |migrations| && migrations[k].version != k + 1)
      || (Records(ledger, migrations) && ledger != [] && !HasTable(schema, migrations[0].anchor))
      || exists k ::
           0 <= k < |migrations| && (Records(ledger, migrations) ==> k >= |ledger|) && !CanRun(migrations, k)
  {
    hide Decide, CanRun;
    RebuildRefusalIsExact(migrations, ledger, schema);
    PrefixMeans(ledger, migrations);
    RecordableMeans(migrations, |ledger|);
    RecordableMeans(migrations, 0);
  }

  /** The reason is the first that applies, in the order of the source. */
  lemma ReasonsInOrder(migrations: seq<Migration>, ledger: seq<Row>, schema: Option<Schema>)
    requires migrations != []
    ensures var v := Decide(migrations, ledger, schema, false);
      if exists k :: 0 <= k < |migrations| && migrations[k].version != k + 1 then v == Refuse(NotContiguous)
      else if HasTable(schema, migrations[0].anchor) && ledger == [] then v == Refuse(Unadopted)
      else if !Records(ledger, migrations) then v == Refuse(Rewritten)
      else if !HasTable(schema, migrations[0].anchor) && ledger != [] then v == Refuse(SchemaAbsent)
      else v.Proceed? || v.reason in {NoWrapper, DuplicateName}
  {
    hide Pending, CanRun, Unwrapped;
    PrefixMeans(ledger, migrations);
    if Contiguous(migrations) && IsPrefix(ledger, migrations) {
      PendingDecides(migrations, |ledger|, schema);
    }
  }

  /** Whenever it proceeds, with or without rebuild, the ledger is the rows of the whole list. */
  lemma ProceedRecordsAll(migrations: seq<Migration>, ledger: seq<Row>, schema: Option<Schema>, rebuild: bool)
    requires Decide(migrations, ledger, schema, rebuild).Proceed?
    ensures var after := Decide(migrations, ledger, schema, rebuild).ledger;
      Records(after, migrations) && |after| == |migrations|
  {
    hide Pending, Unwrapped;
    assert migrations[0..] == migrations && Rows(migrations[..0]) == [];
    PendingDecides(migrations, 0, None);
    if IsPrefix(ledger, migrations) {
      PendingDecides(migrations, |ledger|, schema);
    }
  }

  /** A rebuild of what would go through without one is no different. */
  lemma RebuildKeepsGood(migrations: seq<Migration>, ledger: seq<Row>, schema: Option<Schema>)
    requires Decide(migrations, ledger, schema, false).Proceed?
    ensures Decide(migrations, ledger, schema, true) == Decide(migrations, ledger, schema, false)
  {
  }

  /** The table was there and nothing dropped it, or something created it and nothing behind
      that dropped it. */
  ghost predicate Remains(schema: Option<Schema>, migrations: seq<Migration>, table: string) {
    || (HasTable(schema, table) && forall j :: 0 <= j < |migrations| ==> table !in migrations[j].source.drops)
    || (exists k :: 0 <= k < |migrations| && table in migrations[k].source.creates
          && forall j :: k < j < |migrations| ==> table !in migrations[j].source.drops)
  }

  lemma RemainsStep(schema: Option<Schema>, migrations: seq<Migration>, table: string)
    requires migrations != []
    ensures var n := |migrations| - 1;
      Remains(schema, migrations, table)
      <==> table in migrations[n].source.creates
           || (Remains(schema, migrations[..n], table) && table !in migrations[n].source.drops)
  {
    var n := |migrations| - 1;
    var front := migrations[..n];
    assert forall j :: 0 <= j < n ==> front[j] == migrations[j];
    if table in migrations[n].source.creates {
      assert Remains(schema, migrations, table);
    } else if Remains(schema, migrations, table) && !HasTable(schema, table) {
      var k :| 0 <= k <= n && table in migrations[k].source.creates
        && forall j :: k < j <= n ==> table !in migrations[j].source.drops;
      assert front[k] == migrations[k];
    }
  }

  /** What running migrations one after the other leaves: the tables that remain, and the scripts
      of all of them, in order, behind those that were there. */
  lemma {:induction false} BuildMeans(schema: Option<Schema>, migrations: seq<Migration>)
    requires migrations != [] && forall k :: 0 <= k < |migrations| ==> migrations[k].source.Script().Some?
    ensures var built, before := Build(schema, migrations), if schema.Some? then schema.value.scripts else [];
      && built.Some?
      && (forall table :: table in built.value.tables <==> Remains(schema, migrations, table))
      && |built.value.scripts| == |before| + |migrations| && before <= built.value.scripts
      && (forall k :: 0 <= k < |migrations| ==>
            built.value.scripts[|before| + k] == Unwrapped(migrations[k].source.text).value)
    decreases |migrations|
  {
    hide Unwrapped, Remains;
    var n := |migrations| - 1;
    if n == 0 {
      assert migrations[..0] == [];
      forall table ensures Remains(schema, [], table) <==> HasTable(schema, table) {
        RemainsNothing(schema, table);
      }
    } else {
      BuildMeans(schema, migrations[..n]);
      assert forall k :: 0 <= k < n ==> migrations[..n][k] == migrations[k];
    }
    forall table ensures Remains(schema, migrations, table)
      <==> table in migrations[n].source.creates
           || (Remains(schema, migrations[..n], table) && table !in migrations[n].source.drops)
    {
      RemainsStep(schema, migrations, table);
    }
  }

  lemma RemainsNothing(schema: Option<Schema>, table: string)
    ensures Remains(schema, [], table) <==> HasTable(schema, table)
  {
  }
}
