/**
 `main` and `deploy` of tools/deploy_agent_platform.py as they execute, over a receipt file
 and a provider. Every place at which the source may raise or be interrupted is a
 nondeterministic choice, so a call stands for all of its failing executions. The ghost field
 `run` records the protocol actions performed; `Valid` says that they are a run of
 `AgentProtocol`, which is what carries the theorems of `AgentSafety` over to this code.
 */
module AgentRunner {
  import opened Common
  import opened AgentProtocol
  import opened AgentResults
  import opened AgentSafety

  datatype Exit = Success | Failure | Interruption | ConfigurationError | Killed

  class Runner {
    const plan: Plan
    /** Whether nothing fails: no call raises, the process is left alone, and the provider attests
        every resource and agrees with the stored results. */
    const reliable: bool
    // the receipt file and the provider
    var durable: Option<Receipt>
    var existing: map<string, Labels>
    var listed: set<string>
    // local variables of `main` and `deploy`
    var receipt: Receipt
    var stored: seq<Entry>
    var unresolved: Option<string>
    var seen: map<string, Labels>
    var results: seq<Entry>
    ghost var creates: nat
    ghost var planned: nat
    ghost var pc: Pc
    ghost const start: State
    ghost var run: seq<Action>

    ghost function Locals(): Memory reads this {
      Memory(receipt, stored, unresolved, seen, results, creates, planned)
    }

    ghost function View(): State reads this {
      State(durable, existing, listed, Locals(), pc)
    }

    ghost predicate Valid() reads this {
      plan.Valid() && Initial(plan, start) && Runs(plan, start, run) && View() == After(plan, start, run)
    }

    constructor (plan: Plan, existing: map<string, Labels>, reliable: bool)
      requires plan.Valid() && OnePerAgent(plan, existing) && |existing| <= AGENT_RUNTIME_RESOURCE_LIMIT
      ensures Valid() && pc.Idle? && durable == None && run == []
      ensures this.plan == plan && this.reliable == reliable
      ensures this.existing == existing && this.listed == existing.Keys
    {
      this.plan, this.reliable := plan, reliable;
      this.durable, this.existing, this.listed := None, existing, existing.Keys;
      this.receipt, this.stored, this.unresolved := Receipt(InProgress, 0, [], None), [], None;
      this.seen, this.results, this.creates, this.planned := map[], [], 0, 0;
      this.pc, this.run := Idle, [];
      this.start := State(
        None, existing, existing.Keys, Memory(Receipt(InProgress, 0, [], None), [], None, map[], [], 0, 0), Idle);
    }

    /** The state just reached follows from the last one by this action. */
    ghost method Log(a: Action, before: State)
      requires plan.Valid() && Initial(plan, start) && Runs(plan, start, run) && before == After(plan, start, run)
      requires Enabled(plan, before, a) && View() == Apply(plan, before, a)
      modifies `run
      ensures Valid() && run == old(run) + [a]
    {
      hide Initial, Enabled, Apply;
      run := run + [a];
      assert run[..|run| - 1] == old(run);
    }

    /** A point at which the source may raise, and at which the provider may show more. */
    method MayRaise() returns (raised: bool)
      requires Valid()
      modifies `listed, `run
      ensures Valid()
      ensures reliable ==> !raised && listed == old(listed)
    {
      var names: set<string> := *;
      if names <= existing.Keys && !reliable {
        ghost var before := View();
        listed := listed + names;
        Log(Appear(names), before);
      }
      raised := *;
      raised := raised && !reliable;
    }

    /** The duplicate and membership checks on the stored results. */
    method StoredWellFormed() returns (ok: bool)
      ensures ok <==> Distinct(Agents(stored)) && forall k :: 0 <= k < |stored| ==> stored[k].agent in plan.targets
    {
      var keys: set<string> := {};
      for k := 0 to |stored|
        invariant keys == set j | 0 <= j < k :: stored[j].agent
        invariant forall i, j :: 0 <= i < j < k ==> stored[i].agent != stored[j].agent
        invariant forall j :: 0 <= j < k ==> stored[j].agent in plan.targets
      {
        if stored[k].agent in keys {
          ghost var j :| 0 <= j < k && stored[j].agent == stored[k].agent;
          assert Agents(stored)[j] == Agents(stored)[k];
          return false;
        }
        if stored[k].agent !in plan.targets {
          return false;
        }
        keys := keys + {stored[k].agent};
      }
      return true;
    }

    /** `remote_by_key`: for each target the listed names that carry its exact labels. */
    method RemoteByKey(listing: map<string, Labels>) returns (byKey: map<string, set<string>>)
      ensures byKey.Keys == set a | a in plan.targets
      ensures forall a :: a in plan.targets ==> byKey[a] == Candidates(plan, listing, a)
      ensures forall a, name :: a in plan.targets ==>
        (name in byKey[a] <==> name in listing && OfRelease(plan, a, listing[name]))
    {
      hide OfRelease, Exact;
      byKey := map a | a in plan.targets :: {};
      var todo := listing.Keys;
      while todo != {}
        invariant todo <= listing.Keys
        invariant byKey.Keys == set a | a in plan.targets
        invariant forall a :: a in plan.targets ==>
          byKey[a] == set name | name in listing && name !in todo && Exact(plan, a, listing[name])
      {
        var name :| name in todo;
        byKey := map a | a in plan.targets :: if Exact(plan, a, listing[name]) then byKey[a] + {name} else byKey[a];
        todo := todo - {name};
      }
      forall a, name | a in plan.targets
        ensures name in byKey[a] <==> name in listing && OfRelease(plan, a, listing[name])
      {
        NoneAreCandidates(plan, listing, a);
      }
    }

    /** `missing_count`. */
    method MissingCount(ghost listing: map<string, Labels>, byKey: map<string, set<string>>) returns (count: nat)
      requires plan.Valid()
      requires forall a :: a in plan.targets ==> a in byKey && byKey[a] == Candidates(plan, listing, a)
      ensures count == MissingFrom(plan, Locals().(seen := listing), 0) == |Unserved(plan, stored, listing)|
    {
      hide Unserved;
      MissingIsCount(plan, Locals().(seen := listing));
      count := 0;
      var i := |plan.targets|;
      while i > 0
        invariant 0 <= i <= |plan.targets| && count == MissingFrom(plan, Locals().(seen := listing), i)
      {
        i := i - 1;
        if !HasKey(stored, plan.targets[i]) && byKey[plan.targets[i]] == {} {
          count := count + 1;
        }
      }
    }

    /** The refusals before the first target: malformed results, ambiguity, an interrupted
        create that is not visible, and too little capacity. */
    method Checks(listing: map<string, Labels>) returns (ok: bool, count: nat)
      requires plan.Valid()
      ensures count == MissingFrom(plan, Locals().(seen := listing), 0)
      ensures ok <==> PreflightPasses(plan, Locals().(seen := listing))
    {
      hide OfRelease, Exact, MissingFrom, Unserved, Candidates;
      ok := StoredWellFormed();
      var byKey := RemoteByKey(listing);
      count := MissingCount(listing, byKey);
      if unresolved.Some? && unresolved.value !in plan.targets {
        ok := false;
      } else if exists a :: a in plan.targets && |byKey[a]| > 1 {
        ok := false;
      } else if unresolved.Some? && !HasKey(stored, unresolved.value) && byKey[unresolved.value] == {} {
        ok := false;
      } else if |listing| + count > AGENT_RUNTIME_RESOURCE_LIMIT {
        ok := false;
      }
    }

    /** From the start of `deploy` to its first target. */
    method Preflighted() returns (raised: bool)
      requires Valid() && pc.Preflight?
      modifies `listed, `seen, `results, `creates, `planned, `pc, `run
      ensures Valid() && Catchable()
      ensures !raised ==> pc == Between(0) && NoneAmbiguous()
      ensures reliable ==> (raised <==> !PreflightPasses(plan, old(Locals()).(seen := Shown(existing, old(listed)))))
    {
      raised := MayRaise();
      if raised {
        return;
      }
      var listing := Shown(existing, listed);
      var ok, count := Checks(listing);
      if !ok {
        return true;
      }
      Begin(listing, count);
    }

    /** `results` is empty and the loop over the targets is about to start. */
    method Begin(listing: map<string, Labels>, ghost count: nat)
      requires Valid() && pc.Preflight? && listing == Shown(existing, listed)
      requires PreflightPasses(plan, Locals().(seen := listing))
      requires count == MissingFrom(plan, Locals().(seen := listing), 0)
      modifies `seen, `results, `creates, `planned, `pc, `run
      ensures Valid() && pc == Between(0) && NoneAmbiguous()
    {
      hide Runs, After, MissingFrom;
      ghost var before := View();
      seen, results, creates, planned, pc := listing, [], 0, count, Between(0);
      ListingPasses(plan, before, Locals());
      Log(List, before);
    }

    /** The exception handler around `deploy` covers this point. */
    ghost predicate Catchable() reads this {
      !(pc.Idle? || pc.Opened? || pc.Closing?)
    }

    ghost predicate NoneAmbiguous() reads `seen {
      forall a :: a in plan.targets ==> |Candidates(plan, seen, a)| <= 1
    }

    /** `on_target_start`: the durable intent precedes any work on the target. */
    method OnTargetStart(i: nat) returns (raised: bool)
      requires Valid() && pc == Between(i) && i < |plan.targets|
      modifies `listed, `receipt, `durable, `pc, `run
      ensures Valid() && Catchable()
      ensures !raised ==> pc == Working(i) && durable == Some(receipt)
      ensures receipt == old(receipt) || receipt == old(receipt).(current := Some(plan.targets[i]))
      ensures !raised ==> receipt.current == Some(plan.targets[i])
      ensures reliable ==> !raised
    {
      raised := MayRaise();
      if raised {
        return;
      }
      SetIntent(i);
      raised := MayRaise();
      if raised {
        return;
      }
      PersistIntent(i);
    }

    method PersistIntent(i: nat)
      requires Valid() && pc == Intended(i)
      modifies `durable, `pc, `run
      ensures Valid() && pc == Working(i) && durable == Some(receipt)
    {
      hide Runs, After, Initial;
      ghost var before := View();
      durable, pc := Some(receipt), Working(i);
      Log(WriteIntent, before);
    }

    method SetIntent(i: nat)
      requires Valid() && pc == Between(i) && i < |plan.targets|
      modifies `receipt, `pc, `run
      ensures Valid() && pc == Intended(i) && receipt == old(receipt).(current := Some(plan.targets[i]))
    {
      ghost var before := View();
      receipt := receipt.(current := Some(plan.targets[i]));
      pc := Intended(i);
      Log(Intend, before);
    }

    /** `on_result`: the results so far replace the stored ones and the intent is cleared. */
    method OnResult(i: nat, entry: Entry, ghost observation: Observation) returns (raised: bool)
      requires Valid() && (pc.Working? || pc.Created?) && pc.i == i < |plan.targets|
      requires Inspected(plan, View(), observation) == Some(entry)
      modifies `listed, `results, `receipt, `durable, `pc, `run
      ensures Valid() && Catchable() && results == old(results) + [entry]
      ensures receipt.(current := None) == old(receipt).(current := None, resources := results)
      ensures !raised ==> pc == Between(i + 1) && durable == Some(receipt) && receipt.current == None
      ensures reliable ==> !raised
    {
      hide Runs, After, Initial, Inspected, Valid;
      RecordResult(i, entry, observation);
      raised := MayRaise();
      if raised {
        return;
      }
      ForgetIntent(i);
      raised := MayRaise();
      if raised {
        return;
      }
      PersistResult(i);
    }

    method PersistResult(i: nat)
      requires Valid() && pc == Settled(i)
      modifies `durable, `pc, `run
      ensures Valid() && pc == Between(i + 1) && durable == Some(receipt)
    {
      ghost var before := View();
      durable, pc := Some(receipt), Between(i + 1);
      Log(WriteResult, before);
    }

    method ForgetIntent(i: nat)
      requires Valid() && pc == Recorded(i)
      modifies `receipt, `pc, `run
      ensures Valid() && pc == Settled(i) && receipt == old(receipt).(current := None)
    {
      ghost var before := View();
      receipt := receipt.(current := None);
      pc := Settled(i);
      Log(ClearIntent, before);
    }

    method RecordResult(i: nat, entry: Entry, ghost observation: Observation)
      requires Valid() && (pc.Working? || pc.Created?) && pc.i == i < |plan.targets|
      requires Inspected(plan, View(), observation) == Some(entry)
      modifies `results, `receipt, `pc, `run
      ensures Valid() && pc == Recorded(i)
      ensures results == old(results) + [entry] && receipt == old(receipt).(resources := results)
    {
      ghost var before := View();
      results := results + [entry];
      receipt := receipt.(resources := results);
      pc := Recorded(i);
      Log(Inspect(observation), before);
    }

    /** `client.create`: it may raise without or with effect, or return the new resource. */
    method Create(i: nat) returns (raised: bool, name: string)
      requires Valid() && pc == Working(i) && i < |plan.targets| && Missing(plan, Locals(), plan.targets[i])
      modifies `existing, `listed, `creates, `pc, `run
      ensures Valid() && Catchable()
      ensures !raised ==> pc == Created(i, name) && name in existing
      ensures !raised ==> existing[name] == TargetLabels(plan, plan.targets[i])
      ensures reliable ==> !raised
      ensures CreatedIfNone(plan, plan.targets[i], old(existing), existing)
    {
      hide Runs, After, Initial, Inv, NoResource, OfRelease, Missing, TargetLabels, Exact, Enabled, Apply;
      RunInv(plan, start, run);
      NeededHere(plan, View());
      name := *;
      raised := MayRaise();
      if name in existing && reliable {
        SomeNameIsNew(existing.Keys);
        name :| name !in existing;
      }
      if raised || name in existing {
        return true, name;
      }
      raised := *;
      if raised && !reliable {
        Lose(i, name);
      } else {
        Provision(i, name);
        raised := false;
      }
    }

    /** A create that raised after it had taken effect. */
    method Lose(i: nat, name: string)
      requires Valid() && pc == Working(i) && i < |plan.targets| && Missing(plan, Locals(), plan.targets[i])
      requires name !in existing
      modifies `existing, `pc, `run
      ensures Valid() && pc.Broken?
      ensures existing == old(existing)[name := TargetLabels(plan, plan.targets[i])]
    {
      hide Runs, After, Initial, Candidates, MissingFrom, PreflightPasses, Missing, Inspected, Exact, TargetLabels;
      ghost var before := View();
      existing := existing[name := TargetLabels(plan, plan.targets[i])];
      pc := Broken;
      Log(CreateRaises(name), before);
    }

    method Provision(i: nat, name: string)
      requires Valid() && pc == Working(i) && i < |plan.targets| && Missing(plan, Locals(), plan.targets[i])
      requires name !in existing
      modifies `existing, `listed, `creates, `pc, `run
      ensures Valid() && pc == Created(i, name) && name in existing
      ensures existing == old(existing)[name := TargetLabels(plan, plan.targets[i])]
    {
      hide Runs, After, Initial, Candidates, MissingFrom, PreflightPasses, Missing, Inspected, Exact, TargetLabels;
      ghost var before := View();
      existing := existing[name := TargetLabels(plan, plan.targets[i])];
      listed, creates, pc := listed + {name}, creates + 1, Created(i, name);
      Log(CreateReturns(name), before);
    }

    /** What the provider reports of the resource of an agent. */
    method Observe(agent: string) returns (seen: Observation)
      ensures reliable ==> seen.attested
      ensures reliable && HasKey(stored, agent) ==> AgreesWith(seen, Find(stored, agent))
    {
      seen := *;
      if reliable {
        if !HasKey(stored, agent) {
          seen := seen.(attested := true);
        } else if !seen.attested || !AgreesWith(seen, Find(stored, agent)) {
          seen := Observation(true, Find(stored, agent).stable, None);
        }
      }
    }

    /** One pass of the loop over the targets. */
    method DeployTarget(i: nat) returns (raised: bool)
      requires Valid() && pc == Between(i) && i < |plan.targets| && NoneAmbiguous()
      modifies `existing, `listed, `results, `receipt, `creates, `durable, `pc, `run
      ensures Valid() && Catchable()
      ensures !raised ==> pc == Between(i + 1) && durable == Some(receipt) && receipt.current == None
      ensures !raised ==> ServedBy(plan, i, results, existing) && results[..|results| - 1] == old(results)
      ensures !raised ==> receipt.resources == results
      ensures receipt.attempts == old(receipt).attempts
      ensures reliable ==> !raised
      ensures CreatedIfNone(plan, plan.targets[i], old(existing), existing)
    {
      hide Runs, After, Initial, Exact, OfRelease, CreatedIfNone, Find, HasKey, Inv, Inspected;
      var agent := plan.targets[i];
      NothingCreated(plan, agent, existing);
      RunInv(plan, start, run);
      raised := OnTargetStart(i);
      if raised {
        return;
      }
      RunInv(plan, start, run);
      var result, observation := Serve(i);
      if result.None? {
        return true;
      }
      raised := OnResult(i, result.value, observation);
      if !raised {
        RunInv(plan, start, run);
        LastIsServed(plan, View(), i);
      }
    }

    /** The result of a target: its stored resource or the one listed, inspected, or a new one. */
    method Serve(i: nat) returns (result: Option<Entry>, observation: Observation)
      requires Valid() && pc == Working(i) && i < |plan.targets| && NoneAmbiguous() && Inv(plan, View())
      modifies `existing, `listed, `creates, `pc, `run
      ensures Valid() && Catchable()
      ensures result.Some? ==>
        && (pc.Working? || pc.Created?) && pc.i == i && Inspected(plan, View(), observation) == result
      ensures reliable ==> result.Some?
      ensures CreatedIfNone(plan, plan.targets[i], old(existing), existing)
    {
      hide Runs, After, Initial, Exact, OfRelease, CreatedIfNone, Find, HasKey, Inv, TargetLabels;
      var agent := plan.targets[i];
      NothingCreated(plan, agent, existing);
      observation := Observe(agent);
      StoredAreBacked(plan, View(), agent);
      result := None;
      var candidates := Candidates(plan, seen, agent);
      if HasKey(stored, agent) {
        var kept := Find(stored, agent);
        if kept.name !in existing {
          return;
        }
        var observed := DeploymentResult(plan, agent, kept.name, existing[kept.name], observation);
        if observed.Some? {
          result := ReconcileStored(kept, observed.value);
        }
      } else if |candidates| == 1 {
        var name :| name in candidates;
        OnlyMember(candidates, name);
        CandidateIsExact(plan, seen, agent, name);
        result := DeploymentResult(plan, agent, name, seen[name], observation);
      } else {
        var raised, created := Create(i);
        if raised {
          return;
        }
        CarriesItsLabels(plan, agent);
        result := DeploymentResult(plan, agent, created, existing[created], observation);
      }
    }

    /** `deploy` after its argument checks. */
    method Deploy() returns (raised: bool)
      requires Valid() && pc.Preflight?
      modifies this
      ensures Valid() && Catchable()
      ensures !raised ==> pc == Between(|plan.targets|)
      ensures stored == old(stored) && receipt.attempts == old(receipt).attempts
      ensures reliable ==>
        (raised <==> !PreflightPasses(plan, old(Locals()).(seen := Shown(old(existing), old(listed)))))
    {
      hide Runs, After, Initial, NoneAmbiguous, ServedBy, CreatedIfNone, PreflightPasses;
      raised := Preflighted();
      if raised {
        return;
      }
      for i := 0 to |plan.targets|
        invariant Valid() && pc == Between(i) && NoneAmbiguous()
        invariant stored == old(stored) && receipt.attempts == old(receipt).attempts
        invariant reliable ==> PreflightPasses(plan, old(Locals()).(seen := Shown(old(existing), old(listed))))
      {
        raised := DeployTarget(i);
        if raised {
          return;
        }
      }
      raised := MayRaise();
    }

    predicate Opens(resume: bool) reads `durable {
      if resume then durable.Some? && durable.value.status in {Failed, Interrupted} else durable.None?
    }

    /** A new receipt. */
    method OpenNew()
      requires Valid() && pc.Idle? && Opens(false)
      modifies `receipt, `stored, `unresolved, `seen, `results, `creates, `planned, `pc, `run
      ensures Valid() && pc.Opened? && stored == [] && unresolved == None && receipt.attempts == 1
    {
      hide Runs, After, Initial, Candidates, MissingFrom, PreflightPasses, Missing, Inspected, Exact;
      ghost var before := View();
      receipt, stored, unresolved := Receipt(InProgress, 1, [], None), [], None;
      seen, results, creates, planned, pc := map[], [], 0, 0, Opened;
      Log(OpenFresh, before);
    }

    /** The receipt of an interrupted deployment. */
    method OpenAgain()
      requires Valid() && pc.Idle? && Opens(true)
      modifies `receipt, `stored, `unresolved, `seen, `results, `creates, `planned, `pc, `run
      ensures Valid() && pc.Opened? && receipt.attempts == durable.value.attempts + 1
      ensures stored == durable.value.resources && unresolved == durable.value.current
    {
      hide Runs, After, Initial, Candidates, MissingFrom, PreflightPasses, Missing, Inspected, Exact;
      ghost var before := View();
      var last := durable.value;
      receipt := last.(status := InProgress, attempts := last.attempts + 1);
      stored, unresolved := last.resources, last.current;
      seen, results, creates, planned, pc := map[], [], 0, 0, Opened;
      Log(OpenResume, before);
    }

    method Open(resume: bool)
      requires Valid() && pc.Idle? && Opens(resume)
      modifies `receipt, `stored, `unresolved, `seen, `results, `creates, `planned, `pc, `run
      ensures Valid() && pc.Opened?
      ensures stored == (if resume then durable.value.resources else [])
      ensures unresolved == (if resume then durable.value.current else None)
      ensures receipt.attempts == if resume then durable.value.attempts + 1 else 1
    {
      hide Runs, After, Initial;
      if resume {
        OpenAgain();
      } else {
        OpenNew();
      }
    }

    /** The handlers around `deploy` persist what memory holds. */
    method Handle(status: Status)
      requires Valid() && Catchable() && status in {Failed, Interrupted}
      modifies `durable, `pc, `run
      ensures Valid() && pc.Idle? && durable == Some(receipt.(status := status))
    {
      ghost var before := View();
      durable, pc := Some(receipt.(status := status)), Idle;
      Log(Fail(status), before);
    }

    /** After `deploy` returned: the completed receipt, unless the process dies before its write;
        it may also die behind it. */
    method Finish() returns (exit: Exit)
      requires Valid() && pc == Between(|plan.targets|)
      modifies `receipt, `durable, `pc, `run
      ensures Valid() && pc.Idle? && exit in {Success, Killed}
      ensures exit == Success ==>
        && durable.Some? && Reports(plan, existing, listed, durable.value)
        && KeepsStored(stored, durable.value.resources) && durable.value.attempts == old(receipt).attempts
      ensures reliable ==> exit == Success
    {
      Complete();
      var lost: bool := *;
      lost := lost && !reliable;
      if lost {
        exit := Crash();
      } else {
        ghost var before := View();
        durable, pc := Some(receipt), Idle;
        Log(WriteClose, before);
        lost := *;
        exit := if lost && !reliable then Killed else Success;
      }
    }

    method Complete()
      requires Valid() && pc == Between(|plan.targets|)
      modifies `receipt, `pc, `run
      ensures Valid() && pc.Closing? && receipt == old(receipt).(status := Deployed, current := None)
      ensures Reports(plan, existing, listed, receipt) && KeepsStored(stored, receipt.resources)
    {
      ghost var before := View();
      receipt := receipt.(status := Deployed, current := None);
      pc := Closing;
      Log(Close, before);
      SuccessReports(plan, start, run);
    }

    /** A hard kill, or an error that escapes the handlers. */
    method Crash() returns (exit: Exit)
      requires Valid() && !pc.Idle?
      modifies `pc, `run
      ensures Valid() && pc.Idle? && exit == Killed
    {
      ghost var before := View();
      pc := Idle;
      Log(Die, before);
      exit := Killed;
    }

    method WriteOpened()
      requires Valid() && pc.Opened?
      modifies `durable, `pc, `run
      ensures Valid() && pc.Preflight? && durable == Some(receipt)
    {
      ghost var before := View();
      durable, pc := Some(receipt), Preflight;
      Log(WriteOpen, before);
    }

    /** `main --apply`, with or without `--resume`. The process ends in every way it can. */
    method ApplyPlan(resume: bool) returns (exit: Exit)
      requires Valid() && pc.Idle?
      modifies this
      ensures Valid() && pc.Idle?
      ensures exit == ConfigurationError <==>
        if resume
        then old(durable).None? || old(durable).value.status.InProgress? || old(durable).value.status.Deployed?
        else old(durable).Some?
      ensures exit == ConfigurationError ==> View() == old(View())
      ensures exit == Success ==> durable.Some? && Reports(plan, existing, listed, durable.value)
      ensures exit == Success && resume ==> KeepsStored(old(durable).value.resources, durable.value.resources)
      ensures exit in {Success, Failure, Interruption} ==>
        durable.Some? && durable.value.attempts == if resume then old(durable).value.attempts + 1 else 1
      ensures reliable && exit != ConfigurationError ==>
        var kept := if resume then old(durable).value.resources else [];
        var intent := if resume then old(durable).value.current else None;
        exit == if Clear(plan, kept, intent, Shown(old(existing), old(listed))) then Success else Failure
      ensures exit == Failure ==> durable.Some? && durable.value.status == Failed
      ensures exit == Interruption ==> durable.Some? && durable.value.status == Interrupted
    {
      hide Runs, After, Initial, Reports, KeepsStored, Clear;
      if !Opens(resume) {
        return ConfigurationError;
      }
      Open(resume);
      exit := Attempt();
    }

    /** From the first write of an opened receipt to the end of the process. */
    method Attempt() returns (exit: Exit)
      requires Valid() && pc.Opened?
      modifies this
      ensures Valid() && pc.Idle? && exit != ConfigurationError
      ensures exit == Success ==>
        && durable.Some? && Reports(plan, existing, listed, durable.value)
        && KeepsStored(old(stored), durable.value.resources)
      ensures exit == Failure ==> durable.Some? && durable.value.status == Failed
      ensures exit == Interruption ==> durable.Some? && durable.value.status == Interrupted
      ensures exit != Killed ==> durable.Some? && durable.value.attempts == old(receipt).attempts
      ensures reliable ==>
        var shown := Shown(old(existing), old(listed));
        exit == if Clear(plan, old(stored), old(unresolved), shown) then Success else Failure
    {
      hide Runs, After, Initial, Reports, KeepsStored, PreflightPasses, Clear;
      var raised := MayRaise();
      if raised {
        exit := Crash();
        return;
      }
      WriteOpened();
      PreflightIsExact(plan, Locals().(seen := Shown(existing, listed)));
      raised := Deploy();
      var interrupted: bool := *;
      exit := Conclude(raised, interrupted && !reliable);
    }

    /** What `main` makes of the end of `deploy`, which an error or an interruption has raised. */
    method Conclude(raised: bool, interrupted: bool) returns (exit: Exit)
      requires reliable ==> !interrupted
      requires Valid() && if raised then Catchable() else pc == Between(|plan.targets|)
      modifies `receipt, `durable, `pc, `run
      ensures Valid() && pc.Idle? && exit != ConfigurationError
      ensures exit == Success ==>
        && durable.Some? && Reports(plan, existing, listed, durable.value)
        && KeepsStored(stored, durable.value.resources)
      ensures exit == Failure ==> raised && !interrupted && durable == Some(old(receipt).(status := Failed))
      ensures exit == Interruption ==>
        raised && interrupted && durable == Some(old(receipt).(status := Interrupted))
      ensures exit != Killed ==> durable.Some? && durable.value.attempts == old(receipt).attempts
      ensures reliable ==> exit == if raised then Failure else Success
    {
      hide Runs, After, Initial, Reports, KeepsStored;
      var lost: bool := *;
      if !raised {
        exit := Finish();
      } else if lost && !reliable {
        exit := Crash();
      } else if interrupted {
        Handle(Interrupted);
        exit := Interruption;
      } else {
        Handle(Failed);
        exit := Failure;
      }
    }
  }

  /** The preflight checks look at the stored results, the intent and the listing only. */
  lemma ListingPasses(plan: Plan, s: State, m: Memory)
    requires s.pc.Preflight? && PreflightPasses(plan, s.memory.(seen := m.seen))
    requires m.seen == Shown(s.existing, s.listed)
    requires m == s.memory.(seen := m.seen, results := [], creates := 0, planned := m.planned)
    requires m.planned == MissingFrom(plan, s.memory.(seen := m.seen), 0)
    ensures m == Listing(plan, s) && Enabled(plan, s, List)
  {
    SameMissing(plan, s.memory.(seen := m.seen), m, 0);
  }

  lemma NothingCreated(plan: Plan, agent: string, existing: map<string, Labels>)
    ensures CreatedIfNone(plan, agent, existing, existing)
  {
  }

  lemma {:induction false} SomeNameIsNew(names: set<string>)
    ensures exists name: string :: name !in names
  {
    var n := LongerThanAll(names);
    assert |seq(n, _ => 'a')| == n;
  }

  lemma LongerThanAll(names: set<string>) returns (n: nat)
    ensures forall name :: name in names ==> |name| < n
  {
    n := 0;
    var todo := names;
    while todo != {}
      invariant todo <= names && forall name :: name in names && name !in todo ==> |name| < n
    {
      var name :| name in todo;
      todo, n := todo - {name}, n + |name| + 1;
    }
  }

  /** The observation does not contradict the stored result. */
  predicate AgreesWith(seen: Observation, kept: Entry) {
    && seen.stable == kept.stable
    && (seen.createTime.Some? && kept.createTime.Some? ==> seen.createTime == kept.createTime)
  }

  lemma StoredAreBacked(plan: Plan, s: State, agent: string)
    requires Inv(plan, s) && Deploying(s.pc)
    ensures HasKey(s.memory.stored, agent) ==>
      var kept := Find(s.memory.stored, agent);
      kept.name in s.existing && Exact(plan, agent, s.existing[kept.name])
  {
    hide Exact;
  }

  lemma CandidateIsExact(plan: Plan, seen: map<string, Labels>, agent: string, name: string)
    requires name in Candidates(plan, seen, agent)
    ensures Exact(plan, agent, seen[name])
  {
  }

  lemma OnlyMember<T>(s: set<T>, x: T)
    requires |s| == 1 && x in s
    ensures s == {x}
  {
    assert |s - {x}| == 0;
  }

  lemma {:induction false} PrefixRuns(plan: Plan, start: State, run: seq<Action>, k: nat)
    requires Runs(plan, start, run) && k <= |run|
    ensures Runs(plan, start, run[..k])
    decreases |run|
  {
    if k == |run| {
      assert run[..k] == run;
    } else {
      PrefixRuns(plan, start, run[..|run| - 1], k);
      assert run[..|run| - 1][..k] == run[..k];
    }
  }

  /** An initial attempt and any number of resumes, each ending in any way: at every point
      there is at most one resource per agent and never more than the limit. */
  method Campaign(plan: Plan, existing: map<string, Labels>, resumes: nat, reliable: bool) returns (runner: Runner)
    requires plan.Valid() && OnePerAgent(plan, existing) && |existing| <= AGENT_RUNTIME_RESOURCE_LIMIT
    ensures runner.Valid() && runner.plan == plan
    ensures forall k :: 0 <= k <= |runner.run| ==>
      && Runs(plan, runner.start, runner.run[..k])
      && var s := After(plan, runner.start, runner.run[..k]);
         NoneTwice(plan, s.existing) && |s.existing| <= 100
  {
    runner := new Runner(plan, existing, reliable);
    var exit := runner.ApplyPlan(false);
    for k := 0 to resumes
      invariant runner.Valid() && runner.pc.Idle? && runner.plan == plan && fresh(runner)
    {
      exit := runner.ApplyPlan(true);
    }
    forall k | 0 <= k <= |runner.run|
      ensures && Runs(plan, runner.start, runner.run[..k])
        && var s := After(plan, runner.start, runner.run[..k]);
           NoneTwice(plan, s.existing) && |s.existing| <= 100
    {
      PrefixRuns(plan, runner.start, runner.run, k);
      NeverTwo(plan, runner.start, runner.run[..k]);
    }
  }
}
