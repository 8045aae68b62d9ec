/**
 What every run of the Agent Runtime deployer keeps (tools/deploy_agent_platform.py).

 The invariant does not rely on stored results growing, because each result callback rewrites
 them with the prefix processed so far. It rests on: every existing resource is listed, or its
 agent is the durable `current_agent`.
 */
module AgentSafety {
  import opened Common
  import opened AgentProtocol

  function DurableIntent(s: State): Option<string> {
    if s.durable.None? then None else s.durable.value.current
  }

  /** Every resource is listed, or is the one whose creation the intent announces. */
  ghost predicate Accounted(plan: Plan, existing: map<string, Labels>, listed: set<string>, intent: Option<string>) {
    forall n :: n in existing && n !in listed ==> intent.Some? && Owns(plan, existing, intent.value, n)
  }

  /** Stored results name listed resources that are exact for their agents. */
  ghost predicate Backed(plan: Plan, existing: map<string, Labels>, listed: set<string>, entries: seq<Entry>) {
    forall k :: 0 <= k < |entries| ==>
      && entries[k].name in listed && entries[k].name in existing
      && Exact(plan, entries[k].agent, existing[entries[k].name])
  }

  /** The targets from `n` on that are missing from results and listing own no resource at all. */
  ghost predicate TrulyMissing(plan: Plan, existing: map<string, Labels>, m: Memory, n: nat) {
    forall j, name :: n <= j < |plan.targets| && Missing(plan, m, plan.targets[j]) ==>
      !Owns(plan, existing, plan.targets[j], name)
  }

  /** Past its preflight checks and not broken off by a failed create. */
  predicate Deploying(pc: Pc) {
    pc.Between? || pc.Intended? || pc.Working? || pc.Created? || pc.Recorded? || pc.Settled? || pc.Closing?
  }

  /** The first target this process has not yet created or adopted. */
  function NextTarget(plan: Plan, pc: Pc): nat
    requires Deploying(pc)
  {
    if pc.Between? || pc.Intended? || pc.Working? then pc.i
    else if pc.Closing? then |plan.targets|
    else pc.i + 1
  }

  /** How many targets have a result in memory. */
  function Finished(plan: Plan, pc: Pc): nat
    requires Deploying(pc)
  {
    if pc.Recorded? || pc.Settled? then pc.i + 1 else if pc.Closing? then |plan.targets| else pc.i
  }

  /** What the environment and the durable receipt keep. */
  ghost predicate CloudInv(plan: Plan, s: State) {
    && s.listed <= s.existing.Keys
    && OnePerAgent(plan, s.existing)
    && |s.existing| <= AGENT_RUNTIME_RESOURCE_LIMIT
    && Accounted(plan, s.existing, s.listed, DurableIntent(s))
    && (s.durable.Some? ==> Backed(plan, s.existing, s.listed, s.durable.value.resources))
  }

  /** What a running process keeps, wherever it stands. */
  ghost predicate ProcessInv(plan: Plan, s: State) {
    var m := s.memory;
    && Backed(plan, s.existing, s.listed, m.receipt.resources)
    && Accounted(plan, s.existing, s.listed, m.receipt.current)
    && (s.pc.Opened? || s.pc.Preflight? ==> m.stored == m.receipt.resources && m.unresolved == m.receipt.current)
    && (s.pc.Intended? || s.pc.Working? || s.pc.Created? ==>
          s.pc.i < |plan.targets| && m.receipt.current == Some(plan.targets[s.pc.i]))
    && (s.pc.Working? || s.pc.Created? ==> DurableIntent(s) == m.receipt.current)
    && (s.pc.Created? ==> Owns(plan, s.existing, plan.targets[s.pc.i], s.pc.name))
    && (s.pc.Closing? ==> m.receipt.status == Deployed && m.receipt.current == None)
    && (Deploying(s.pc) ==> DeployingInv(plan, s) && ResultsInv(plan, s))
  }

  /** A process past its preflight checks sees every resource there is. */
  ghost predicate DeployingInv(plan: Plan, s: State)
    requires Deploying(s.pc)
  {
    var m, n := s.memory, NextTarget(plan, s.pc);
    && n <= |plan.targets|
    && s.existing.Keys <= s.listed
    && (forall name :: name in m.seen ==> name in s.existing && m.seen[name] == s.existing[name])
    && TrulyMissing(plan, s.existing, m, n)
    && |s.existing| + MissingFrom(plan, m, n) <= AGENT_RUNTIME_RESOURCE_LIMIT
    && m.creates + MissingFrom(plan, m, n) == m.planned
    && Backed(plan, s.existing, s.listed, m.stored)
  }

  ghost predicate ResultsInv(plan: Plan, s: State)
    requires Deploying(s.pc)
  {
    var m, f := s.memory, Finished(plan, s.pc);
    && f <= |plan.targets|
    && Agents(m.results) == plan.targets[..f]
    && Backed(plan, s.existing, s.listed, m.results)
    && (s.pc.Recorded? || s.pc.Settled? || s.pc.Closing? || (s.pc.Between? && f > 0) ==>
          m.receipt.resources == m.results)
    && (f == 0 ==> forall k :: 0 <= k < |m.receipt.resources| ==> m.receipt.resources[k].agent in plan.targets)
  }

  ghost predicate Inv(plan: Plan, s: State) {
    CloudInv(plan, s) && (!s.pc.Idle? ==> ProcessInv(plan, s))
  }

  lemma InitialInv(plan: Plan, s: State)
    requires Initial(plan, s)
    ensures Inv(plan, s)
  {
  }

  /** An unlisted resource would belong to the unresolved agent, which the preflight checks
      found stored or listed; being unique, it is that listed one. */
  lemma PreflightSeesEverything(plan: Plan, s: State)
    requires Inv(plan, s) && Enabled(plan, s, List)
    ensures s.existing.Keys <= s.listed
  {
    var m := Listing(plan, s);
    forall n | n in s.existing ensures n in s.listed {
      if n !in s.listed {
        var a := m.unresolved.value;
        assert Owns(plan, s.existing, a, n);
        if HasKey(m.stored, a) {
          var e := Find(m.stored, a);
          assert Owns(plan, s.existing, a, e.name);
        } else {
          var other :| other in Candidates(plan, m.seen, a);
          assert Owns(plan, s.existing, a, other);
        }
      }
    }
  }

  /** Missing targets depend on the stored results and the listing alone. */
  lemma SameMissing(plan: Plan, m1: Memory, m2: Memory, i: nat)
    requires i <= |plan.targets| && m1.stored == m2.stored && m1.seen == m2.seen
    ensures MissingFrom(plan, m1, i) == MissingFrom(plan, m2, i)
    decreases |plan.targets| - i
  {
    if i < |plan.targets| {
      assert Missing(plan, m1, plan.targets[i]) == Missing(plan, m2, plan.targets[i]);
      SameMissing(plan, m1, m2, i + 1);
    }
  }

  lemma SameTrulyMissing(plan: Plan, existing: map<string, Labels>, m1: Memory, m2: Memory, n: nat)
    requires m1.stored == m2.stored && m1.seen == m2.seen
    requires TrulyMissing(plan, existing, m1, n)
    ensures TrulyMissing(plan, existing, m2, n)
  {
    forall j, name | n <= j < |plan.targets| && Missing(plan, m2, plan.targets[j])
      ensures !Owns(plan, existing, plan.targets[j], name)
    {
      assert Missing(plan, m1, plan.targets[j]);
    }
  }

  lemma ListKeeps(plan: Plan, s: State)
    requires Inv(plan, s) && Enabled(plan, s, List)
    ensures Inv(plan, Apply(plan, s, List))
  {
    PreflightSeesEverything(plan, s);
    var t := Apply(plan, s, List);
    var m := t.memory;
    assert m.seen == s.existing;
    assert TrulyMissing(plan, t.existing, m, 0) by {
      forall j, name | 0 <= j < |plan.targets| && Missing(plan, m, plan.targets[j])
        ensures !Owns(plan, t.existing, plan.targets[j], name)
      {
        assert name !in Candidates(plan, m.seen, plan.targets[j]);
      }
    }
    SameMissing(plan, s.memory.(seen := m.seen), m, 0);
    assert DeployingInv(plan, t);
    assert ResultsInv(plan, t);
  }

  /** Adding a resource with the labels of an agent that owns none keeps owners unique. */
  lemma AddedOwner(plan: Plan, existing: map<string, Labels>, agent: string, name: string)
    requires OnePerAgent(plan, existing) && agent in plan.targets && name !in existing
    requires forall n :: !Owns(plan, existing, agent, n)
    ensures OnePerAgent(plan, existing[name := TargetLabels(plan, agent)])
    ensures Owns(plan, existing[name := TargetLabels(plan, agent)], agent, name)
    ensures forall a, n :: Owns(plan, existing[name := TargetLabels(plan, agent)], a, n) && a != agent ==>
      Owns(plan, existing, a, n)
  {
    var after := existing[name := TargetLabels(plan, agent)];
    forall a, n | Owns(plan, after, a, n) && a != agent ensures Owns(plan, existing, a, n) {
      if n == name { ExactForOneAgent(plan, a, agent, after[name]); }
    }
    forall a, n1, n2 | Owns(plan, after, a, n1) && Owns(plan, after, a, n2) ensures n1 == n2 {
      if a == agent {
        assert n1 != name ==> Owns(plan, existing, a, n1);
        assert n2 != name ==> Owns(plan, existing, a, n2);
      }
    }
  }

  /** Stored results stay backed when a resource is added and shown. */
  lemma StillBacked(plan: Plan, existing: map<string, Labels>, listed: set<string>, entries: seq<Entry>,
      name: string, labels: Labels)
    requires Backed(plan, existing, listed, entries) && name !in existing
    ensures Backed(plan, existing[name := labels], listed + {name}, entries)
  {
  }

  /** Creating target i leaves it the only resource of its agent, and uses up one missing target. */
  lemma CreateReturnsKeeps(plan: Plan, s: State, name: string)
    requires plan.Valid() && Inv(plan, s) && Enabled(plan, s, CreateReturns(name))
    ensures Inv(plan, Apply(plan, s, CreateReturns(name)))
  {
    hide Owns, OnePerAgent, TargetLabels, Exact, MissingFrom, Backed, TrulyMissing;
    var t := Apply(plan, s, CreateReturns(name));
    var labels := TargetLabels(plan, plan.targets[s.pc.i]);
    CreatedCloud(plan, s, name);
    CreatedNext(plan, s.existing, s.memory, t.memory, s.pc.i, name);
    StillBacked(plan, s.existing, s.listed, s.memory.receipt.resources, name, labels);
    StillBacked(plan, s.existing, s.listed, s.memory.stored, name, labels);
    StillBacked(plan, s.existing, s.listed, s.memory.results, name, labels);
    assert DeployingInv(plan, t);
    assert ResultsInv(plan, t);
  }

  lemma CreatedCloud(plan: Plan, s: State, name: string)
    requires plan.Valid() && Inv(plan, s) && Enabled(plan, s, CreateReturns(name))
    ensures CloudInv(plan, Apply(plan, s, CreateReturns(name)))
    ensures Owns(plan, Apply(plan, s, CreateReturns(name)).existing, plan.targets[s.pc.i], name)
    ensures |Apply(plan, s, CreateReturns(name)).existing| == |s.existing| + 1
  {
    var t := Apply(plan, s, CreateReturns(name));
    var agent := plan.targets[s.pc.i];
    AddedOwner(plan, s.existing, agent, name);
    assert t.existing.Keys == s.existing.Keys + {name};
    StillBacked(plan, s.existing, s.listed, s.durable.value.resources, name, TargetLabels(plan, agent));
  }

  lemma CreatedNext(plan: Plan, existing: map<string, Labels>, m: Memory, t: Memory, i: nat, name: string)
    requires plan.Valid() && OnePerAgent(plan, existing) && name !in existing
    requires i < |plan.targets| && Missing(plan, m, plan.targets[i]) && TrulyMissing(plan, existing, m, i)
    requires t == m.(creates := t.creates)
    ensures TrulyMissing(plan, existing[name := TargetLabels(plan, plan.targets[i])], t, i + 1)
    ensures MissingFrom(plan, t, i + 1) == MissingFrom(plan, m, i) - 1
  {
    SameMissing(plan, m, t, i + 1);
    OthersTrulyMissing(plan, existing, m, i, name);
    SameTrulyMissing(plan, existing[name := TargetLabels(plan, plan.targets[i])], m, t, i + 1);
  }

  lemma OthersTrulyMissing(plan: Plan, existing: map<string, Labels>, m: Memory, i: nat, name: string)
    requires plan.Valid() && OnePerAgent(plan, existing) && name !in existing
    requires i < |plan.targets| && Missing(plan, m, plan.targets[i]) && TrulyMissing(plan, existing, m, i)
    ensures TrulyMissing(plan, existing[name := TargetLabels(plan, plan.targets[i])], m, i + 1)
  {
    var agent := plan.targets[i];
    var after := existing[name := TargetLabels(plan, agent)];
    AddedOwner(plan, existing, agent, name);
    forall j, n | i + 1 <= j < |plan.targets| && Missing(plan, m, plan.targets[j])
      ensures !Owns(plan, after, plan.targets[j], n)
    {
      assert plan.targets[i] != plan.targets[j];
      assert !Owns(plan, existing, plan.targets[j], n);
    }
  }

  lemma CreateRaisesKeeps(plan: Plan, s: State, name: string)
    requires Inv(plan, s) && Enabled(plan, s, CreateRaises(name))
    ensures Inv(plan, Apply(plan, s, CreateRaises(name)))
  {
    hide OnePerAgent, Candidates, TargetLabels, Exact, MissingFrom, TrulyMissing;
    var t := Apply(plan, s, CreateRaises(name));
    var agent := plan.targets[s.pc.i];
    OwnsNothing(plan, s, agent);
    AddedOwner(plan, s.existing, agent, name);
    assert t.existing.Keys == s.existing.Keys + {name};
    AddedSize(s.existing, name, TargetLabels(plan, agent));
    OneMissing(plan, s.memory, s.pc.i);
    StaysBacked(plan, s.existing, s.listed, s.memory.receipt.resources, name, TargetLabels(plan, agent));
    StaysBacked(plan, s.existing, s.listed, s.durable.value.resources, name, TargetLabels(plan, agent));
  }

  /** A missing target that is due owns nothing. */
  lemma OwnsNothing(plan: Plan, s: State, agent: string)
    requires Inv(plan, s) && s.pc.Working? && s.pc.i < |plan.targets| && agent == plan.targets[s.pc.i]
    requires Missing(plan, s.memory, agent)
    ensures forall n :: !Owns(plan, s.existing, agent, n)
  {
    hide Candidates, Exact, TargetLabels, OnePerAgent, Backed, Accounted, MissingFrom;
  }

  lemma AddedSize(existing: map<string, Labels>, name: string, labels: Labels)
    requires name !in existing
    ensures |existing[name := labels]| == |existing| + 1
  {
    assert existing[name := labels].Keys == existing.Keys + {name};
    assert |existing[name := labels]| == |existing[name := labels].Keys| && |existing| == |existing.Keys|;
  }

  lemma OneMissing(plan: Plan, m: Memory, i: nat)
    requires i < |plan.targets| && Missing(plan, m, plan.targets[i])
    ensures MissingFrom(plan, m, i) >= 1
  {
    hide Missing;
  }

  lemma StaysBacked(plan: Plan, existing: map<string, Labels>, listed: set<string>, entries: seq<Entry>,
      name: string, labels: Labels)
    requires Backed(plan, existing, listed, entries) && name !in existing
    ensures Backed(plan, existing[name := labels], listed, entries)
  {
    hide Exact;
  }

  lemma InspectKeeps(plan: Plan, s: State, seen: Observation)
    requires Inv(plan, s) && Enabled(plan, s, Inspect(seen))
    ensures Inv(plan, Apply(plan, s, Inspect(seen)))
  {
    var t := Apply(plan, s, Inspect(seen));
    assert DeployingInv(plan, t) by { InspectKeepsDeploying(plan, s, seen); }
    assert ResultsInv(plan, t) by { InspectKeepsResults(plan, s, seen); }
    assert Backed(plan, t.existing, t.listed, t.memory.receipt.resources);
  }

  lemma InspectKeepsDeploying(plan: Plan, s: State, seen: Observation)
    requires Inv(plan, s) && Enabled(plan, s, Inspect(seen))
    ensures DeployingInv(plan, Apply(plan, s, Inspect(seen)))
  {
    hide DeployingInv, ResultsInv, CloudInv, Backed, Accounted, Missing, Inspected, Owns;
    WorkingIsNotMissing(plan, s, seen);
    PassesTarget(plan, s, Apply(plan, s, Inspect(seen)));
  }

  /** Going past a target that is not missing keeps what is known of the others. */
  lemma PassesTarget(plan: Plan, s: State, t: State)
    requires Deploying(s.pc) && Deploying(t.pc) && DeployingInv(plan, s)
    requires t.existing == s.existing && t.listed == s.listed
    requires t.memory.stored == s.memory.stored && t.memory.seen == s.memory.seen
    requires t.memory.creates == s.memory.creates && t.memory.planned == s.memory.planned
    requires var n := NextTarget(plan, s.pc);
      NextTarget(plan, t.pc) == n
      || (NextTarget(plan, t.pc) == n + 1 <= |plan.targets| && !Missing(plan, s.memory, plan.targets[n]))
    ensures DeployingInv(plan, t)
  {
    hide Missing, Owns, Backed, TrulyMissing;
    var n, next := NextTarget(plan, s.pc), NextTarget(plan, t.pc);
    assert MissingFrom(plan, s.memory, n) == MissingFrom(plan, s.memory, next);
    SameMissing(plan, s.memory, t.memory, next);
    assert TrulyMissing(plan, s.existing, s.memory, next) by { LaterTrulyMissing(plan, s.existing, s.memory, n, next); }
    SameTrulyMissing(plan, s.existing, s.memory, t.memory, next);
  }

  lemma LaterTrulyMissing(plan: Plan, existing: map<string, Labels>, m: Memory, n: nat, next: nat)
    requires TrulyMissing(plan, existing, m, n) && n <= next
    ensures TrulyMissing(plan, existing, m, next)
  {
    hide Missing, Owns;
  }

  /** A target inspected without a create was not missing. */
  lemma WorkingIsNotMissing(plan: Plan, s: State, seen: Observation)
    requires (s.pc.Working? || s.pc.Created?) && s.pc.i < |plan.targets| && Inspected(plan, s, seen).Some?
    ensures s.pc.Working? ==> !Missing(plan, s.memory, plan.targets[s.pc.i])
  {
    hide Exact, TargetLabels, DeploymentResult, ReconcileStored;
  }

  lemma InspectKeepsResults(plan: Plan, s: State, seen: Observation)
    requires Inv(plan, s) && Enabled(plan, s, Inspect(seen))
    ensures ResultsInv(plan, Apply(plan, s, Inspect(seen)))
  {
    InspectedEntry(plan, s, seen);
    hide Exact, TargetLabels, OnePerAgent, Candidates, DeploymentResult, ReconcileStored;
    hide Inspected, TrulyMissing, MissingFrom;
    var t := Apply(plan, s, Inspect(seen));
    var i := s.pc.i;
    assert Agents(t.memory.results) == Agents(s.memory.results) + [plan.targets[i]];
    assert plan.targets[..i + 1] == plan.targets[..i] + [plan.targets[i]];
  }

  /** A result is only ever recorded for an exact resource that a listing shows. */
  lemma InspectedEntry(plan: Plan, s: State, seen: Observation)
    requires Inv(plan, s) && Enabled(plan, s, Inspect(seen))
    ensures var e := Inspected(plan, s, seen).value;
      e.agent == plan.targets[s.pc.i] && Owns(plan, s.existing, e.agent, e.name) && e.name in s.listed
  {
  }

  lemma IntendKeeps(plan: Plan, s: State)
    requires Inv(plan, s) && Enabled(plan, s, Intend)
    ensures Inv(plan, Apply(plan, s, Intend))
  {
    hide Candidates, Owns, OnePerAgent, TargetLabels, Exact, MissingFrom, Backed, TrulyMissing;
    var t := Apply(plan, s, Intend);
    SameMissing(plan, s.memory, t.memory, s.pc.i);
    SameTrulyMissing(plan, s.existing, s.memory, t.memory, s.pc.i);
    assert DeployingInv(plan, t);
    assert ResultsInv(plan, t);
  }

  lemma ClearIntentKeeps(plan: Plan, s: State)
    requires Inv(plan, s) && Enabled(plan, s, ClearIntent)
    ensures Inv(plan, Apply(plan, s, ClearIntent))
  {
    hide Candidates, Owns, OnePerAgent, TargetLabels, Exact, MissingFrom, Backed, TrulyMissing;
    var t := Apply(plan, s, ClearIntent);
    SameMissing(plan, s.memory, t.memory, s.pc.i + 1);
    SameTrulyMissing(plan, s.existing, s.memory, t.memory, s.pc.i + 1);
    assert DeployingInv(plan, t);
    assert ResultsInv(plan, t);
  }

  lemma CloseKeeps(plan: Plan, s: State)
    requires Inv(plan, s) && Enabled(plan, s, Close)
    ensures Inv(plan, Apply(plan, s, Close))
  {
    var t := Apply(plan, s, Close);
    SameMissing(plan, s.memory, t.memory, |plan.targets|);
    assert DeployingInv(plan, t);
    assert |Agents(s.memory.results)| == |plan.targets|;
    if plan.targets == [] {
      NothingOutside(plan, s.memory.receipt.resources);
    }
    assert ResultsInv(plan, t);
  }

  lemma NothingOutside(plan: Plan, entries: seq<Entry>)
    requires forall k :: 0 <= k < |entries| ==> entries[k].agent in plan.targets
    ensures entries == [] || plan.targets != []
  {
    if entries != [] {
      assert entries[0].agent in plan.targets;
    }
  }

  lemma WriteIntentKeeps(plan: Plan, s: State)
    requires Inv(plan, s) && Enabled(plan, s, WriteIntent)
    ensures Inv(plan, Apply(plan, s, WriteIntent))
  {
    hide Candidates, Owns, OnePerAgent, TargetLabels, Exact, MissingFrom, Backed, TrulyMissing, Accounted;
    assert DeployingInv(plan, Apply(plan, s, WriteIntent));
    assert ResultsInv(plan, Apply(plan, s, WriteIntent));
  }

  lemma WriteResultKeeps(plan: Plan, s: State)
    requires Inv(plan, s) && Enabled(plan, s, WriteResult)
    ensures Inv(plan, Apply(plan, s, WriteResult))
  {
    hide Candidates, Owns, OnePerAgent, TargetLabels, Exact, MissingFrom, Backed, TrulyMissing, Accounted;
    assert DeployingInv(plan, Apply(plan, s, WriteResult));
    assert ResultsInv(plan, Apply(plan, s, WriteResult));
  }

  lemma OpenFreshKeeps(plan: Plan, s: State)
    requires Inv(plan, s) && Enabled(plan, s, OpenFresh)
    ensures Inv(plan, Apply(plan, s, OpenFresh))
  {
    hide Candidates, Owns, OnePerAgent, TargetLabels, Exact, MissingFrom, TrulyMissing;
  }

  /** Showing more resources only helps. */
  lemma AppearKeeps(plan: Plan, s: State, names: set<string>)
    requires Inv(plan, s) && Enabled(plan, s, Appear(names))
    ensures Inv(plan, Apply(plan, s, Appear(names)))
  {
    hide Candidates, Owns, OnePerAgent, TargetLabels, Exact, MissingFrom, TrulyMissing;
  }

  lemma EveryActionKeeps(plan: Plan, s: State, a: Action)
    requires plan.Valid() && Inv(plan, s) && Enabled(plan, s, a)
    ensures Inv(plan, Apply(plan, s, a))
  {
    hide Candidates, Owns, OnePerAgent, TargetLabels, Exact, MissingFrom, Backed, TrulyMissing, Accounted;
    match a
    case List => ListKeeps(plan, s);
    case Inspect(seen) => InspectKeeps(plan, s, seen);
    case CreateReturns(name) => CreateReturnsKeeps(plan, s, name);
    case CreateRaises(name) => CreateRaisesKeeps(plan, s, name);
    case Appear(names) => AppearKeeps(plan, s, names);
    case OpenFresh => OpenFreshKeeps(plan, s);
    case OpenResume =>
    case WriteOpen =>
    case Fail(status) =>
    case Die =>
    case Intend => IntendKeeps(plan, s);
    case ClearIntent => ClearIntentKeeps(plan, s);
    case Close => CloseKeeps(plan, s);
    case WriteIntent => WriteIntentKeeps(plan, s);
    case WriteResult => WriteResultKeeps(plan, s);
    case WriteClose =>
  }

  lemma {:induction false} RunInv(plan: Plan, start: State, run: seq<Action>)
    requires plan.Valid() && Initial(plan, start) && Runs(plan, start, run)
    ensures Inv(plan, After(plan, start, run))
    decreases |run|
  {
    if run == [] {
      InitialInv(plan, start);
    } else {
      var before := run[..|run| - 1];
      RunInv(plan, start, before);
      EveryActionKeeps(plan, After(plan, start, before), run[|run| - 1]);
    }
  }

  /** In every state of every run no agent of the plan owns two resources, the resource limit
      holds, and a resource no listing shows is the one the durable intent announces. */
  lemma EveryRunIsSafe(plan: Plan, start: State, run: seq<Action>)
    requires plan.Valid() && Initial(plan, start) && Runs(plan, start, run)
    ensures var s := After(plan, start, run);
      && OnePerAgent(plan, s.existing)
      && |s.existing| <= AGENT_RUNTIME_RESOURCE_LIMIT
      && (forall name :: name in s.existing && name !in s.listed ==>
            DurableIntent(s).Some? && Owns(plan, s.existing, DurableIntent(s).value, name))
  {
    RunInv(plan, start, run);
  }

  /** A create is only ever issued for an agent that owns nothing, under its durable intent. */
  lemma CreatesAreFirst(plan: Plan, start: State, run: seq<Action>, a: Action)
    requires plan.Valid() && Initial(plan, start) && Runs(plan, start, run + [a])
    requires a.CreateReturns? || a.CreateRaises?
    ensures (run + [a])[..|run|] == run && Runs(plan, start, run)
    ensures var s := After(plan, start, run);
      && s.pc.Working? && s.pc.i < |plan.targets|
      && DurableIntent(s) == Some(plan.targets[s.pc.i])
      && forall name :: !Owns(plan, s.existing, plan.targets[s.pc.i], name)
  {
    assert (run + [a])[..|run|] == run;
    RunInv(plan, start, run);
  }

  lemma ClosingIsComplete(plan: Plan, s: State)
    requires Inv(plan, s) && s.pc.Closing?
    ensures var r := s.memory.receipt;
      && r.status == Deployed && r.current == None
      && Agents(r.resources) == plan.targets
      && (forall k :: 0 <= k < |plan.targets| ==>
            r.resources[k].name in s.listed && Owns(plan, s.existing, plan.targets[k], r.resources[k].name))
      && s.memory.creates == s.memory.planned
  {
    var r := s.memory.receipt;
    assert plan.targets[..|plan.targets|] == plan.targets;
    forall k | 0 <= k < |plan.targets| ensures r.resources[k].agent == plan.targets[k] {
      assert Agents(r.resources)[k] == plan.targets[k];
    }
  }

  /** The writing of a `Deployed` receipt ends an attempt that created exactly the targets its
      preflight found missing and leaves one result per target, in plan order, each backed by
      a listed exact resource. */
  lemma SuccessIsComplete(plan: Plan, start: State, run: seq<Action>)
    requires plan.Valid() && Initial(plan, start) && Runs(plan, start, run)
    requires Enabled(plan, After(plan, start, run), WriteClose)
    ensures var s := After(plan, start, run);
      var r := Apply(plan, s, WriteClose).durable.value;
      && r.status == Deployed && r.current == None
      && Agents(r.resources) == plan.targets
      && (forall k :: 0 <= k < |plan.targets| ==>
            r.resources[k].name in s.listed && Owns(plan, s.existing, plan.targets[k], r.resources[k].name))
      && s.memory.creates == s.memory.planned
  {
    RunInv(plan, start, run);
    ClosingIsComplete(plan, After(plan, start, run));
  }
}
