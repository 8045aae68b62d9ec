/**
 The exactly-once fixture effect of tools/actuator_crash_fixture.py.

 `mutate` locks the generation row, so a transaction that has passed its first statement is
 the only one open; a killed process, or a statement that raises, leaves its transaction rolled
 back. The tables (specs/artifacts/schema.sql) hold one record per key and per action, and a
 generation that is a positive `bigint`.
 */
module CrashFixture {
  import opened Common
  import Decimal

  datatype Record = Record(action: string, request: string, before: string, after: string)

  /** The generation row, when present, and the recorded actions by idempotency key. */
  datatype Fixture = Fixture(generation: Option<int>, records: map<string, Record>)

  function Str(n: int): string { if n < 0 then "-" + Decimal.Print(-n) else Decimal.Print(n) }

  function Version(generation: int): string { "pool-generation-" + Str(generation) }

  function RecordOf(action: string, before: int): Record {
    Record(action, "process-kill-" + action, Version(before), Version(before + 1))
  }

  lemma StrDiffers(a: int, b: int)
    requires Str(a) == Str(b)
    ensures a == b
  {
    SignOf(a);
    SignOf(b);
  }

  lemma SignOf(n: int)
    ensures Str(n) != "" && (Str(n)[0] == '-' <==> n < 0)
    ensures n == if n < 0 then 0 - Decimal.Value(Str(n)[1..]) else Decimal.Value(Str(n))
  {
    hide Decimal.Print, Decimal.Value;
    if n < 0 {
      assert Str(n)[1..] == Decimal.Print(-n);
      Decimal.ValueOfPrint(-n);
    } else {
      assert Decimal.IsDigit(Str(n)[0]);
      Decimal.ValueOfPrint(n);
    }
  }

  lemma VersionsDiffer(a: int, b: int)
    requires Version(a) == Version(b)
    ensures a == b
  {
    hide Str;
    assert Str(a) == Version(a)[16..] == Version(b)[16..] == Str(b);
    StrDiffers(a, b);
  }

  /** A request for a mutation. */
  datatype Call = Call(action: string, key: string)

  const MAX_BIGINT := 0x7FFF_FFFF_FFFF_FFFF

  predicate HasAction(records: map<string, Record>, action: string) {
    exists key :: key in records && records[key].action == action
  }

  /** `mutate` raises: the generation row is absent, or, under a key not recorded yet, the action
      is recorded under another one or the next generation does not fit its column. */
  predicate Refuses(f: Fixture, call: Call) {
    || f.generation.None?
    || (call.key !in f.records && (HasAction(f.records, call.action) || !(0 < f.generation.value + 1 <= MAX_BIGINT)))
  }

  /** The whole effect of `mutate`: none when the key is recorded already, or when it raises. */
  function Mutated(f: Fixture, call: Call): Fixture {
    if call.key in f.records || Refuses(f, call) then f
    else Fixture(Some(f.generation.value + 1), f.records[call.key := RecordOf(call.action, f.generation.value)])
  }

  datatype Stage = Locked | Inserted(isFresh: bool) | Updated

  datatype Transaction = Transaction(call: Call, before: int, stage: Stage, working: Fixture)

  datatype State = State(committed: Fixture, open: Option<Transaction>)

  /** A statement of some process's transaction, its commit, or its rollback, because the process
      died, a statement raised or the commit failed. */
  datatype Action = Lock(call: Call) | Insert | Update | Commit | Abort

  predicate Enabled(s: State, a: Action) {
    match a
    case Lock(_) => s.open.None? && s.committed.generation.Some?
    case Insert =>
      && s.open.Some? && s.open.value.stage.Locked?
      && var t := s.open.value;
         t.call.key in t.working.records || !HasAction(t.working.records, t.call.action)
    case Update =>
      s.open.Some? && s.open.value.stage == Inserted(true) && 0 < s.open.value.before + 1 <= MAX_BIGINT
    case Commit => s.open.Some? && (s.open.value.stage == Inserted(false) || s.open.value.stage.Updated?)
    case Abort => s.open.Some?
  }

  function Apply(s: State, a: Action): State
    requires Enabled(s, a)
  {
    match a
    case Lock(call) => s.(open := Some(Transaction(call, s.committed.generation.value, Locked, s.committed)))
    case Insert =>
      var t := s.open.value;
      var key := t.call.key;
      if key in t.working.records then s.(open := Some(t.(stage := Inserted(false))))
      else
        var records := t.working.records[key := RecordOf(t.call.action, t.before)];
        s.(open := Some(t.(stage := Inserted(true), working := t.working.(records := records))))
    case Update =>
      var t := s.open.value;
      s.(open := Some(t.(stage := Updated, working := t.working.(generation := Some(t.before + 1)))))
    case Commit => State(s.open.value.working, None)
    case Abort => s.(open := None)
  }

  predicate Runs(start: Fixture, run: seq<Action>)
    decreases |run|, 0
  {
    run == [] ||
    (Runs(start, run[..|run| - 1]) && Enabled(After(start, run[..|run| - 1]), run[|run| - 1]))
  }

  function After(start: Fixture, run: seq<Action>): State
    requires Runs(start, run)
    decreases |run|, 1
  {
    if run == [] then State(start, None) else Apply(After(start, run[..|run| - 1]), run[|run| - 1])
  }

  /** The calls committed by a run, in order, repeats included. */
  function Commits(start: Fixture, run: seq<Action>): seq<Call>
    requires Runs(start, run)
  {
    if run == [] then []
    else
      var before := After(start, run[..|run| - 1]);
      Commits(start, run[..|run| - 1]) + if run[|run| - 1].Commit? then [before.open.value.call] else []
  }

  /** Whole mutations one after another. */
  function MutatedBy(start: Fixture, calls: seq<Call>): Fixture {
    if calls == [] then start else Mutated(MutatedBy(start, calls[..|calls| - 1]), calls[|calls| - 1])
  }

  /** None of the calls is refused where it stands. */
  predicate Allowed(start: Fixture, calls: seq<Call>) {
    calls == [] ||
    (Allowed(start, calls[..|calls| - 1])
     && !Refuses(MutatedBy(start, calls[..|calls| - 1]), calls[|calls| - 1]))
  }

  /** What an open transaction has done so far. */
  predicate Consistent(s: State) {
    s.open.Some? ==>
      var t, done := s.open.value, Mutated(s.committed, s.open.value.call);
      && s.committed.generation == Some(t.before)
      && match t.stage
         case Locked => t.working == s.committed
         case Inserted(isFresh) =>
           if isFresh
           then
             && t.call.key !in s.committed.records && !HasAction(s.committed.records, t.call.action)
             && t.working.generation == Some(t.before)
             && t.working.records == s.committed.records[t.call.key := RecordOf(t.call.action, t.before)]
           else t.call.key in s.committed.records && t.working == s.committed
         case Updated => !Refuses(s.committed, t.call) && t.working == done
  }

  /** A committed call was not refused, and is made whole. */
  lemma ConsistentStep(s: State, a: Action)
    requires Consistent(s) && Enabled(s, a)
    ensures Consistent(Apply(s, a))
    ensures if a.Commit?
            then
              && !Refuses(s.committed, s.open.value.call)
              && Apply(s, a).committed == Mutated(s.committed, s.open.value.call)
            else Apply(s, a).committed == s.committed
  {
    hide RecordOf, HasAction;
  }

  /** Every interleaving of locked transactions, deaths, failures and retries has the effect of
      its committed calls, none of them refused, made whole and one after another. */
  lemma {:induction false} Serializable(start: Fixture, run: seq<Action>)
    requires Runs(start, run)
    ensures Consistent(After(start, run)) && Allowed(start, Commits(start, run))
    ensures After(start, run).committed == MutatedBy(start, Commits(start, run))
    decreases |run|
  {
    hide Consistent, Enabled, Apply, Mutated, Refuses;
    if run == [] {
      NothingOpen(start);
    } else {
      var front, last := run[..|run| - 1], run[|run| - 1];
      Serializable(start, front);
      ConsistentStep(After(start, front), last);
      var calls := Commits(start, run);
      if last.Commit? {
        assert calls[..|calls| - 1] == Commits(start, front);
      } else {
        assert calls == Commits(start, front);
      }
    }
  }

  lemma NothingOpen(start: Fixture)
    ensures Consistent(State(start, None))
  {
  }

  function KeysOf(calls: seq<Call>): set<string> { set k | 0 <= k < |calls| :: calls[k].key }

  /** The record of a key spans one generation between the two. */
  predicate Spans(r: Record, n: int) {
    r.before == "pool-generation-" + Str(n) && r.after == "pool-generation-" + Str(n + 1)
  }

  lemma SpansOnce(r: Record, m: int, n: int)
    requires Spans(r, m) && Spans(r, n)
    ensures m == n
  {
    hide Str;
    assert Version(m) == r.before == Version(n);
    VersionsDiffer(m, n);
  }

  ghost predicate SpansOneOf(r: Record, from: int, to: int) {
    exists n :: from <= n < to && Spans(r, n)
  }

  ghost predicate Spanned(records: map<string, Record>, n: int) {
    exists key :: key in records && Spans(records[key], n)
  }

  /** The records tile the generations from one to another: each spans one of them, and each of
      them is spanned by exactly one. */
  ghost predicate Tiles(records: map<string, Record>, from: int, to: int) {
    && (forall key :: key in records ==> SpansOneOf(records[key], from, to))
    && (forall n :: from <= n < to ==> Spanned(records, n))
    && (forall a, b, n :: a in records && b in records && Spans(records[a], n) && Spans(records[b], n) ==> a == b)
  }

  /** The keys are recorded, and the generation has advanced once for each of them. */
  predicate Counts(f: Fixture, from: int, keys: set<string>) {
    f.generation == Some(from + |keys|) && f.records.Keys == keys
  }

  /** The generation has advanced once per distinct key. */
  lemma {:induction false} OncePerKey(start: Fixture, calls: seq<Call>)
    requires start.generation.Some? && start.records == map[] && Allowed(start, calls)
    ensures Counts(MutatedBy(start, calls), start.generation.value, KeysOf(calls))
    decreases |calls|
  {
    hide Mutated, KeysOf, Refuses, Counts;
    if calls == [] {
      NoKeys(start);
    } else {
      var front, last := calls[..|calls| - 1], calls[|calls| - 1];
      OncePerKey(start, front);
      KeysBack(calls);
      OneMoreKey(MutatedBy(start, front), last, start.generation.value, KeysOf(front));
    }
  }

  lemma NoKeys(start: Fixture)
    requires start.generation.Some? && start.records == map[]
    ensures Counts(start, start.generation.value, KeysOf([]))
  {
    assert KeysOf([]) == {};
  }

  lemma OneMoreKey(before: Fixture, call: Call, from: int, keys: set<string>)
    requires Counts(before, from, keys) && !Refuses(before, call)
    ensures Counts(Mutated(before, call), from, keys + {call.key})
  {
    hide RecordOf, HasAction;
    if call.key in keys {
      assert keys + {call.key} == keys;
    } else {
      assert Mutated(before, call).records.Keys == keys + {call.key};
    }
  }

  /** The records tile the interval the generation has advanced over. */
  lemma {:induction false} Tiling(start: Fixture, calls: seq<Call>)
    requires start.generation.Some? && start.records == map[] && Allowed(start, calls)
    ensures var f := MutatedBy(start, calls);
      f.generation.Some? && f.generation.value >= start.generation.value
      && Tiles(f.records, start.generation.value, f.generation.value)
    decreases |calls|
  {
    if calls != [] {
      hide Tiles, RecordOf, HasAction;
      var front, last := calls[..|calls| - 1], calls[|calls| - 1];
      Tiling(start, front);
      var before := MutatedBy(start, front);
      if last.key !in before.records {
        TileOneMore(before.records, start.generation.value, before.generation.value, last);
      }
    }
  }

  lemma RecordsAction(action: string, before: int)
    ensures RecordOf(action, before).action == action && Spans(RecordOf(action, before), before)
  {
  }

  lemma KeysBack(calls: seq<Call>)
    requires calls != []
    ensures KeysOf(calls) == KeysOf(calls[..|calls| - 1]) + {calls[|calls| - 1].key}
  {
    forall key | key in KeysOf(calls) ensures key in KeysOf(calls[..|calls| - 1]) + {calls[|calls| - 1].key} {
      var k :| 0 <= k < |calls| && calls[k].key == key;
      assert k < |calls| - 1 ==> calls[..|calls| - 1][k].key == key;
    }
    forall key | key in KeysOf(calls[..|calls| - 1]) ensures key in KeysOf(calls) {
      var k :| 0 <= k < |calls| - 1 && calls[..|calls| - 1][k].key == key;
      assert calls[k].key == key;
    }
  }

  lemma TileOneMore(records: map<string, Record>, from: int, to: int, call: Call)
    requires Tiles(records, from, to) && call.key !in records && from <= to
    ensures Tiles(records[call.key := RecordOf(call.action, to)], from, to + 1)
  {
    hide Spans, RecordOf;
    var after := records[call.key := RecordOf(call.action, to)];
    RecordsAction(call.action, to);
    forall key | key in after ensures SpansOneOf(after[key], from, to + 1) {
      if key == call.key {
        assert Spans(after[key], to);
      } else {
        assert SpansOneOf(records[key], from, to);
        var n :| from <= n < to && Spans(records[key], n);
        assert Spans(after[key], n);
      }
    }
    forall n | from <= n < to + 1 ensures Spanned(after, n) {
      if n == to {
        assert Spans(after[call.key], n);
      } else {
        assert Spanned(records, n);
        var key :| key in records && Spans(records[key], n);
        assert Spans(after[key], n);
      }
    }
    forall a, b, n | a in after && b in after && Spans(after[a], n) && Spans(after[b], n) ensures a == b {
      if a == call.key || b == call.key {
        SpansOnce(after[call.key], n, to);
      }
      if a != call.key {
        NotSpannedYet(records, from, to, a);
      }
      if b != call.key {
        NotSpannedYet(records, from, to, b);
      }
    }
  }

  lemma NotSpannedYet(records: map<string, Record>, from: int, to: int, key: string)
    requires Tiles(records, from, to) && key in records
    ensures !Spans(records[key], to)
  {
    hide Spans;
    assert SpansOneOf(records[key], from, to);
    var n :| from <= n < to && Spans(records[key], n);
    if Spans(records[key], to) {
      SpansOnce(records[key], n, to);
    }
  }

  datatype Reconciliation = NoEffectConfirmed | EffectConfirmed(version: string)

  /** `reconcile`. */
  function Reconcile(f: Fixture, call: Call): Reconciliation {
    if call.key in f.records && f.records[call.key].action == call.action
    then EffectConfirmed(f.records[call.key].after)
    else NoEffectConfirmed
  }

  function ActionsOf(records: map<string, Record>): set<string> {
    set key | key in records :: records[key].action
  }

  /** No action is recorded under two keys. */
  predicate OneKeyEach(records: map<string, Record>) {
    forall a, b :: a in records && b in records && records[a].action == records[b].action ==> a == b
  }

  lemma MutatedKeepsActions(f: Fixture, call: Call)
    ensures var after := Mutated(f, call);
      && (OneKeyEach(f.records) ==> OneKeyEach(after.records))
      && (after != f ==>
            && !HasAction(f.records, call.action) && HasAction(after.records, call.action)
            && ActionsOf(after.records) == ActionsOf(f.records) + {call.action}
            && |after.records| == |f.records| + 1)
      && (forall action :: HasAction(f.records, action) ==> HasAction(after.records, action))
  {
    hide Version, Str;
    var after := Mutated(f, call);
    if after != f {
      assert after.records[call.key].action == call.action;
      assert after.records.Keys == f.records.Keys + {call.key};
      assert |after.records| == |after.records.Keys| && |f.records| == |f.records.Keys|;
      MoreActions(f.records, call.key, after.records[call.key]);
    }
    forall action | HasAction(f.records, action) ensures HasAction(after.records, action) {
      var key :| key in f.records && f.records[key].action == action;
      assert after.records[key].action == action;
    }
  }

  lemma MoreActions(records: map<string, Record>, key: string, record: Record)
    requires key !in records
    ensures ActionsOf(records[key := record]) == ActionsOf(records) + {record.action}
  {
    var after := records[key := record];
    assert after[key].action in ActionsOf(after);
    forall action | action in ActionsOf(records) ensures action in ActionsOf(after) {
      var k :| k in records && records[k].action == action;
      assert after[k].action == action;
    }
  }

  /** Each recorded action is recorded under one key, so there are as many as records. */
  lemma {:induction false} OncePerAction(start: Fixture, calls: seq<Call>)
    requires start.records == map[]
    ensures var records := MutatedBy(start, calls).records;
      OneKeyEach(records) && |ActionsOf(records)| == |records|
    decreases |calls|
  {
    hide Mutated, ActionsOf, OneKeyEach, HasAction;
    if calls == [] {
      NoActions();
    } else {
      var front, last := calls[..|calls| - 1], calls[|calls| - 1];
      OncePerAction(start, front);
      var before := MutatedBy(start, front);
      MutatedKeepsActions(before, last);
      if Mutated(before, last) != before {
        NotAmongActions(before.records, last.action);
      }
    }
  }

  lemma NoActions()
    ensures ActionsOf(map[]) == {} && OneKeyEach(map[])
  {
  }

  lemma NotAmongActions(records: map<string, Record>, action: string)
    ensures action in ActionsOf(records) <==> HasAction(records, action)
  {
  }

  /** The call at position k of the committed ones changed something. */
  predicate TakesEffect(start: Fixture, calls: seq<Call>, k: nat)
    requires k < |calls|
  {
    MutatedBy(start, calls[..k + 1]) != MutatedBy(start, calls[..k])
  }

  lemma {:induction false} StaysRecorded(start: Fixture, calls: seq<Call>, i: nat, j: nat, action: string)
    requires i <= j <= |calls| && HasAction(MutatedBy(start, calls[..i]).records, action)
    ensures HasAction(MutatedBy(start, calls[..j]).records, action)
    decreases j
  {
    hide Mutated, HasAction;
    if i < j {
      StaysRecorded(start, calls, i, j - 1, action);
      assert calls[..j][..j - 1] == calls[..j - 1];
      MutatedKeepsActions(MutatedBy(start, calls[..j - 1]), calls[j - 1]);
    }
  }

  /** Over every run an action takes effect at most once, whatever the keys it is called with. */
  lemma ActionsTakeEffectOnce(start: Fixture, run: seq<Action>, i: nat, j: nat)
    requires Runs(start, run) && i < j < |Commits(start, run)|
    requires TakesEffect(start, Commits(start, run), i) && TakesEffect(start, Commits(start, run), j)
    ensures Commits(start, run)[i].action != Commits(start, run)[j].action
    ensures After(start, run).committed == MutatedBy(start, Commits(start, run))
  {
    hide Mutated, HasAction, Runs, After, Commits;
    var calls := Commits(start, run);
    Serializable(start, run);
    assert calls[..i + 1][..i] == calls[..i] && calls[..j + 1][..j] == calls[..j];
    MutatedKeepsActions(MutatedBy(start, calls[..i]), calls[i]);
    StaysRecorded(start, calls, i + 1, j, calls[i].action);
    MutatedKeepsActions(MutatedBy(start, calls[..j]), calls[j]);
  }

  /** Over every run: the generation has advanced once per distinct committed key and once per
      distinct recorded action, and the recorded before/after pairs tile the interval without gap
      or overlap. */
  lemma ExactlyOnce(start: Fixture, run: seq<Action>)
    requires start.generation.Some? && start.records == map[] && Runs(start, run)
    ensures var f, from := After(start, run).committed, start.generation.value;
      && f.generation == Some(from + |f.records|)
      && f.records.Keys == KeysOf(Commits(start, run))
      && OneKeyEach(f.records) && |ActionsOf(f.records)| == |f.records|
      && Tiles(f.records, from, from + |f.records|)
  {
    hide KeysOf, Tiles, Commits, After, MutatedBy, Consistent, Allowed, OneKeyEach, ActionsOf;
    Serializable(start, run);
    OncePerKey(start, Commits(start, run));
    Tiling(start, Commits(start, run));
    OncePerAction(start, Commits(start, run));
    assert |After(start, run).committed.records| == |After(start, run).committed.records.Keys|;
  }

  /** No earlier call has the key of the call at the position. */
  predicate First(calls: seq<Call>, k: int) {
    0 <= k < |calls| && forall j :: 0 <= j < k ==> calls[j].key != calls[k].key
  }

  lemma HasFirst(calls: seq<Call>, key: string) returns (k: nat)
    requires key in KeysOf(calls)
    ensures First(calls, k) && calls[k].key == key
  {
    var j :| 0 <= j < |calls| && calls[j].key == key;
    k := 0;
    while calls[k].key != key
      invariant k <= j && forall i :: 0 <= i < k ==> calls[i].key != key
      decreases j - k
    {
      k := k + 1;
    }
  }

  /** What is recorded for the first call with a key: the request and the generations before and
      after it, one for each key committed earlier. */
  function RecordOfFirst(calls: seq<Call>, k: nat, from: int): Record
    requires k < |calls|
  {
    var earlier := |KeysOf(calls[..k])|;
    Record(
      calls[k].action, "process-kill-" + calls[k].action,
      "pool-generation-" + Str(from + earlier), "pool-generation-" + Str(from + earlier + 1))
  }

  lemma {:induction false} FirstIsRecorded(start: Fixture, calls: seq<Call>, k: nat)
    requires start.generation.Some? && start.records == map[] && Allowed(start, calls) && First(calls, k)
    ensures var records := MutatedBy(start, calls).records;
      calls[k].key in records && records[calls[k].key] == RecordOfFirst(calls, k, start.generation.value)
    decreases |calls|
  {
    hide KeysOf, Refuses, Version;
    var n := |calls| - 1;
    OncePerKey(start, calls[..n]);
    if k < n {
      FirstIsRecorded(start, calls[..n], k);
      assert calls[..n][..k] == calls[..k];
    } else {
      NotYet(calls, n);
      RecordIs(calls[n].action, start.generation.value + |KeysOf(calls[..n])|);
    }
  }

  lemma NotYet(calls: seq<Call>, k: nat)
    requires First(calls, k)
    ensures calls[k].key !in KeysOf(calls[..k])
  {
  }

  lemma RecordIs(action: string, n: int)
    ensures RecordOf(action, n)
            == Record(action, "process-kill-" + action, "pool-generation-" + Str(n), "pool-generation-" + Str(n + 1))
  {
  }

  /** Over every run the records are those of the first commits of the keys, and there are no
      others. */
  lemma RecordsInFull(start: Fixture, run: seq<Action>)
    requires start.generation.Some? && start.records == map[] && Runs(start, run)
    ensures var calls, records := Commits(start, run), After(start, run).committed.records;
      && (forall key :: key in records <==> exists k :: First(calls, k) && calls[k].key == key)
      && (forall k :: First(calls, k) ==>
            && calls[k].key in records
            && records[calls[k].key] == RecordOfFirst(calls, k, start.generation.value))
  {
    hide Consistent, Allowed, MutatedBy, RecordOfFirst, Runs, Commits, After, KeysOf;
    var calls, records := Commits(start, run), After(start, run).committed.records;
    Serializable(start, run);
    OncePerKey(start, calls);
    forall k | First(calls, k)
      ensures calls[k].key in records && records[calls[k].key] == RecordOfFirst(calls, k, start.generation.value)
    {
      FirstIsRecorded(start, calls, k);
    }
    forall key | key in records ensures exists k :: First(calls, k) && calls[k].key == key {
      var k := HasFirst(calls, key);
    }
  }

  /** Over every run, reconciliation confirms exactly the calls that were first to commit their
      key, whatever was killed or retried, and with the generation that commit led to. */
  lemma ReconcilesExactly(start: Fixture, run: seq<Action>, call: Call)
    requires start.generation.Some? && start.records == map[] && Runs(start, run)
    ensures var calls, r := Commits(start, run), Reconcile(After(start, run).committed, call);
      && (r.EffectConfirmed? <==> exists k :: First(calls, k) && calls[k] == call)
      && (forall k :: First(calls, k) && calls[k] == call ==>
            r == EffectConfirmed("pool-generation-" + Str(start.generation.value + |KeysOf(calls[..k])| + 1)))
  {
    hide Runs, Commits, After, KeysOf, Str;
    RecordsInFull(start, run);
  }

  /** What the tables accept: a generation row that is a positive `bigint`, and no action under
      two keys. */
  predicate TablesHold(f: Fixture) {
    f.generation.Some? && 0 < f.generation.value <= 9223372036854775807 && OneKeyEach(f.records)
  }

  /** A call is refused exactly when there is no generation to lock, or its record is new and the
      tables would not hold with it and the next generation. */
  lemma RefusesExactly(f: Fixture, call: Call)
    requires OneKeyEach(f.records)
    ensures Refuses(f, call) <==>
      || f.generation.None?
      || (call.key !in f.records
          && forall r: Record :: r.action == call.action ==>
               !TablesHold(Fixture(Some(f.generation.value + 1), f.records[call.key := r])))
  {
    hide Version, Str;
    if f.generation.Some? && call.key !in f.records {
      if Refuses(f, call) {
        forall r: Record | r.action == call.action
          ensures !TablesHold(Fixture(Some(f.generation.value + 1), f.records[call.key := r]))
        {
          var after := f.records[call.key := r];
          if HasAction(f.records, call.action) {
            var key :| key in f.records && f.records[key].action == call.action;
            assert after[key].action == after[call.key].action;
          }
        }
      } else {
        var r := RecordOf(call.action, f.generation.value);
        var after := f.records[call.key := r];
        forall a, b | a in after && b in after && after[a].action == after[b].action ensures a == b {
          assert a != call.key && a in f.records ==> HasAction(f.records, f.records[a].action);
          assert b != call.key && b in f.records ==> HasAction(f.records, f.records[b].action);
        }
        assert r.action == call.action;
      }
    }
  }

  /** The tables hold at every moment of every run. */
  lemma {:induction false} TablesAlwaysHold(start: Fixture, run: seq<Action>)
    requires TablesHold(start) && Runs(start, run)
    ensures TablesHold(After(start, run).committed)
    decreases |run|
  {
    hide TablesHold, Consistent, Apply, Mutated, Refuses;
    if run != [] {
      var front := run[..|run| - 1];
      Serializable(start, front);
      TablesAlwaysHold(start, front);
      ConsistentStep(After(start, front), run[|run| - 1]);
      if run[|run| - 1].Commit? {
        MutatedHolds(After(start, front).committed, After(start, front).open.value.call);
      }
    }
  }

  lemma MutatedHolds(f: Fixture, call: Call)
    requires TablesHold(f)
    ensures TablesHold(Mutated(f, call))
  {
    hide Version, Str;
    MutatedKeepsActions(f, call);
  }

  datatype Outcome = Returned(request: string) | Raised | Killed

  class Connector {
    const start: Fixture

    /** Whether the database calls raise nothing but what the tables refuse. */
    const reliable: bool

    var fixture: Fixture
    var open: Option<Transaction>
    ghost var run: seq<Action>

    ghost predicate Valid() reads this {
      Runs(start, run) && After(start, run) == State(fixture, open)
    }

    constructor (start: Fixture, reliable: bool)
      ensures Valid() && open.None? && this.start == start && this.reliable == reliable && fixture == start && run == []
    {
      this.start, this.reliable, fixture, open, run := start, reliable, start, None, [];
    }

    ghost method Log(a: Action, before: State)
      requires Runs(start, run) && before == After(start, run)
      requires Enabled(before, a) && State(fixture, open) == Apply(before, a)
      modifies `run
      ensures Valid() && run == old(run) + [a]
    {
      hide Enabled, Apply;
      run := run + [a];
      assert run[..|run| - 1] == old(run);
    }

    /** A database call may raise. */
    method MayRaise() returns (raised: bool)
      ensures reliable ==> !raised
    {
      raised := *;
      raised := raised && !reliable;
    }

    /** The open transaction is rolled back. */
    method RollBack()
      requires Valid() && open.Some?
      modifies `open, `run
      ensures Valid() && open.None?
    {
      hide Runs, After;
      ghost var before := State(fixture, open);
      open := None;
      Log(Abort, before);
    }

    /** The process may be killed here, or its next database call may raise. */
    method MayStop() returns (stopped: Option<Outcome>)
      requires Valid() && open.Some?
      modifies `open, `run
      ensures Valid()
      ensures if stopped.None? then open == old(open) && run == old(run) else open.None?
      ensures stopped.Some? ==> stopped.value.Killed? || (stopped.value.Raised? && !reliable)
    {
      var killed: bool := *;
      var raised := MayRaise();
      stopped := if killed then Some(Killed) else if raised then Some(Raised) else None;
      if stopped.Some? {
        RollBack();
      }
    }

    /** `mutate`, killed or raising anywhere: a return means the call has been made whole, and
        otherwise it was made whole or not at all. A refused call changes nothing and does not
        return; when nothing else fails, a call raises exactly when it is refused. */
    method Mutate(call: Call, killAfterEffect: bool) returns (r: Outcome)
      requires Valid() && open.None?
      modifies `fixture, `open, `run
      ensures Valid() && open.None?
      ensures fixture == old(fixture) || fixture == Mutated(old(fixture), call)
      ensures Refuses(old(fixture), call) ==> !r.Returned? && fixture == old(fixture)
      ensures reliable && !r.Killed? ==> (r.Raised? <==> Refuses(old(fixture), call))
      ensures r.Returned? ==>
        && !killAfterEffect && fixture == Mutated(old(fixture), call) && r.request == "process-kill-" + call.action
    {
      hide Runs, After, Mutated, HasAction;
      var raised := MayRaise();
      if raised || fixture.generation.None? {
        return Raised;
      }
      ghost var before := State(fixture, open);
      var value := fixture.generation.value;
      open := Some(Transaction(call, value, Locked, fixture));
      Log(Lock(call), before);
      var stopped := Execute(call, value);
      if stopped.Some? {
        return stopped.value;
      }
      if killAfterEffect {
        return Killed;
      }
      r := Returned("process-kill-" + call.action);
    }

    /** The statements behind the lock. */
    method Execute(call: Call, value: int) returns (stopped: Option<Outcome>)
      requires Valid() && fixture.generation == Some(value) && open == Some(Transaction(call, value, Locked, fixture))
      modifies `fixture, `open, `run
      ensures Valid() && open.None?
      ensures fixture == old(fixture) || fixture == Mutated(old(fixture), call)
      ensures stopped.None? ==> fixture == Mutated(old(fixture), call)
      ensures Refuses(old(fixture), call) ==> stopped.Some? && fixture == old(fixture)
      ensures stopped.Some? ==>
        stopped.value.Killed? || (stopped.value.Raised? && (reliable ==> Refuses(old(fixture), call)))
    {
      hide Runs, After, HasAction;
      stopped := MayStop();
      if stopped.Some? {
        return;
      }
      ghost var before := State(fixture, open);
      var inserted := call.key !in fixture.records;
      if inserted && HasAction(fixture.records, call.action) {
        RollBack();
        return Some(Raised);
      }
      var working := if inserted
        then fixture.(records := fixture.records[call.key := RecordOf(call.action, value)]) else fixture;
      open := Some(Transaction(call, value, Inserted(inserted), working));
      Log(Insert, before);
      stopped := MayStop();
      if stopped.Some? {
        return;
      }
      if inserted {
        if !(0 < value + 1 <= MAX_BIGINT) {
          RollBack();
          return Some(Raised);
        }
        before := State(fixture, open);
        working := working.(generation := Some(value + 1));
        open := Some(Transaction(call, value, Updated, working));
        Log(Update, before);
        stopped := MayStop();
        if stopped.Some? {
          return;
        }
      }
      stopped := CommitWork();
    }

    /** The commit, which may also be lost to the caller after it has taken effect. */
    method CommitWork() returns (stopped: Option<Outcome>)
      requires Valid() && Enabled(State(fixture, open), Commit)
      modifies `fixture, `open, `run
      ensures Valid() && open.None? && fixture == old(open).value.working
      ensures stopped.Some? ==> stopped.value.Killed? || (stopped.value.Raised? && !reliable)
    {
      hide Runs, After;
      ghost var before := State(fixture, open);
      fixture, open := open.value.working, None;
      Log(Commit, before);
      var killed: bool := *;
      var raised := MayRaise();
      stopped := if killed then Some(Killed) else if raised then Some(Raised) else None;
    }

    /** A call retried until it returns, or given up after some attempts. */
    method Retry(call: Call, attempts: nat) returns (returned: bool)
      requires Valid() && open.None?
      modifies `fixture, `open, `run
      ensures Valid() && open.None?
      ensures fixture == old(fixture) || fixture == Mutated(old(fixture), call)
      ensures returned ==> fixture == Mutated(old(fixture), call)
    {
      returned := false;
      var left := attempts;
      while left > 0 && !returned
        invariant Valid() && open.None?
        invariant fixture == old(fixture) || fixture == Mutated(old(fixture), call)
        invariant returned ==> fixture == Mutated(old(fixture), call)
      {
        var kill: bool := *;
        var r := Mutate(call, kill);
        returned, left := r.Returned?, left - 1;
      }
    }
  }
}
