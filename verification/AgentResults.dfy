/**
 What a deployment reports, in terms of labels, stored results and counts rather than of the
 deployer's own tests (tools/deploy_agent_platform.py).
 */
module AgentResults {
  import opened Common
  import opened AgentProtocol
  import opened AgentSafety

  /** The agents of the plan with neither a stored result nor a listed resource of the release. */
  ghost function Unserved(plan: Plan, stored: seq<Entry>, seen: map<string, Labels>): set<string> {
    set a | a in plan.targets && NoEntry(stored, a) && NoResource(plan, seen, a)
  }

  predicate NoEntry(stored: seq<Entry>, agent: string) {
    forall k :: 0 <= k < |stored| ==> stored[k].agent != agent
  }

  predicate NoResource(plan: Plan, existing: map<string, Labels>, agent: string) {
    forall name :: name in existing ==> !OfRelease(plan, agent, existing[name])
  }

  lemma NoneAreCandidates(plan: Plan, seen: map<string, Labels>, agent: string)
    ensures Candidates(plan, seen, agent) == {} <==> NoResource(plan, seen, agent)
    ensures forall name :: name in Candidates(plan, seen, agent) <==> name in seen && OfRelease(plan, agent, seen[name])
  {
    hide Exact, OfRelease;
    forall name | name in seen ensures Exact(plan, agent, seen[name]) <==> OfRelease(plan, agent, seen[name]) {
      ExactMeansOfRelease(plan, agent, seen[name]);
    }
    if name :| name in seen && OfRelease(plan, agent, seen[name]) {
      assert name in Candidates(plan, seen, agent);
    }
  }

  lemma MissingIsUnserved(plan: Plan, m: Memory, agent: string)
    ensures Missing(plan, m, agent) <==> NoEntry(m.stored, agent) && NoResource(plan, m.seen, agent)
  {
    hide Candidates, NoResource;
    NoneAreCandidates(plan, m.seen, agent);
  }

  /** The unserved agents at and behind position i of the plan. */
  ghost function UnservedFrom(plan: Plan, m: Memory, i: nat): set<string> {
    set j | i <= j < |plan.targets| && Missing(plan, m, plan.targets[j]) :: plan.targets[j]
  }

  lemma {:induction false} MissingCounts(plan: Plan, m: Memory, i: nat)
    requires plan.Valid() && i <= |plan.targets|
    ensures MissingFrom(plan, m, i) == |UnservedFrom(plan, m, i)|
    decreases |plan.targets| - i
  {
    hide Missing;
    if i < |plan.targets| {
      MissingCounts(plan, m, i + 1);
      var here := if Missing(plan, m, plan.targets[i]) then {plan.targets[i]} else {};
      assert UnservedFrom(plan, m, i) == here + UnservedFrom(plan, m, i + 1);
      assert plan.targets[i] !in UnservedFrom(plan, m, i + 1);
    }
  }

  /** The count of missing targets is the number of agents that nothing serves. */
  lemma MissingIsCount(plan: Plan, m: Memory)
    requires plan.Valid()
    ensures MissingFrom(plan, m, 0) == |Unserved(plan, m.stored, m.seen)|
  {
    hide Missing, NoEntry, NoResource;
    MissingCounts(plan, m, 0);
    forall a ensures Missing(plan, m, a) <==> NoEntry(m.stored, a) && NoResource(plan, m.seen, a) {
      MissingIsUnserved(plan, m, a);
    }
    forall a | a in Unserved(plan, m.stored, m.seen) ensures a in UnservedFrom(plan, m, 0) {
      var j :| 0 <= j < |plan.targets| && plan.targets[j] == a;
    }
    assert UnservedFrom(plan, m, 0) == Unserved(plan, m.stored, m.seen);
  }

  lemma AtMostOne(s: set<string>)
    ensures |s| <= 1 <==> forall a, b :: a in s && b in s ==> a == b
  {
    if |s| <= 1 {
      forall a, b | a in s && b in s ensures a == b {
        assert |s - {a}| == 0;
      }
    } else {
      var a :| a in s;
      assert |s - {a}| > 0;
      var b :| b in s - {a};
    }
  }

  /** No two resources carry the release's labels of one agent. */
  predicate NoneTwice(plan: Plan, seen: map<string, Labels>) {
    forall a, n1, n2 ::
      a in plan.targets && n1 in seen && n2 in seen && OfRelease(plan, a, seen[n1]) && OfRelease(plan, a, seen[n2])
      ==> n1 == n2
  }

  lemma AmbiguityIsTwice(plan: Plan, seen: map<string, Labels>)
    ensures (forall a :: a in plan.targets ==> |Candidates(plan, seen, a)| <= 1) <==> NoneTwice(plan, seen)
  {
    hide OfRelease, Exact, Candidates;
    forall a
      ensures |Candidates(plan, seen, a)| <= 1 <==>
        forall n1, n2 :: n1 in seen && n2 in seen && OfRelease(plan, a, seen[n1]) && OfRelease(plan, a, seen[n2])
          ==> n1 == n2
    {
      AtMostOne(Candidates(plan, seen, a));
      NoneAreCandidates(plan, seen, a);
    }
  }

  /** Nothing stands in the way of a deployment: no stored result of one agent twice or of none of
      the plan, no unresolved agent outside the plan, no two resources of the release for one
      agent, no unresolved create that nothing shows, and no more than 100 resources. */
  ghost predicate Clear(plan: Plan, stored: seq<Entry>, unresolved: Option<string>, seen: map<string, Labels>) {
    && (forall i, j :: 0 <= i < j < |stored| ==> stored[i].agent != stored[j].agent)
    && (forall k :: 0 <= k < |stored| ==> stored[k].agent in plan.targets)
    && (unresolved.Some? ==> unresolved.value in plan.targets)
    && NoneTwice(plan, seen)
    && (unresolved.Some? ==> !(NoEntry(stored, unresolved.value) && NoResource(plan, seen, unresolved.value)))
    && |seen| + |Unserved(plan, stored, seen)| <= 100
  }

  /** The refusals before the first target are those, all of them. */
  lemma PreflightIsExact(plan: Plan, m: Memory)
    requires plan.Valid()
    ensures PreflightPasses(plan, m) <==> Clear(plan, m.stored, m.unresolved, m.seen)
  {
    hide NoneTwice, NoEntry, NoResource, Missing, Candidates, MissingFrom;
    MissingIsCount(plan, m);
    AmbiguityIsTwice(plan, m.seen);
    if m.unresolved.Some? {
      MissingIsUnserved(plan, m, m.unresolved.value);
    }
    assert Distinct(Agents(m.stored)) <==>
      forall i, j :: 0 <= i < j < |m.stored| ==> m.stored[i].agent != m.stored[j].agent by { DistinctAgents(m.stored); }
  }

  lemma DistinctAgents(entries: seq<Entry>)
    ensures Distinct(Agents(entries)) <==>
      forall i, j :: 0 <= i < j < |entries| ==> entries[i].agent != entries[j].agent
  {
    var agents := Agents(entries);
    assert forall k :: 0 <= k < |entries| ==> agents[k] == entries[k].agent;
  }

  /** What a provider shows of a resource becomes a result exactly when it is attested and of the
      release; the result reports what was seen. */
  lemma ResultReports(plan: Plan, agent: string, name: string, labels: Labels, seen: Observation)
    ensures var r := DeploymentResult(plan, agent, name, labels, seen);
      && (r.Some? <==> seen.attested && OfRelease(plan, agent, labels))
      && (r.Some? ==>
            && r.value.agent == agent && r.value.name == name
            && r.value.stable == seen.stable && r.value.createTime == seen.createTime)
  {
    hide OfRelease;
    ExactMeansOfRelease(plan, agent, labels);
  }

  /** A result keeps the name, the stable fields and a known creation time of a stored one. */
  predicate Keeps(stored: Entry, result: Entry) {
    && result.name == stored.name && result.stable == stored.stable
    && (stored.createTime.Some? ==> result.createTime == stored.createTime)
  }

  predicate KeepsStored(stored: seq<Entry>, results: seq<Entry>) {
    forall j, k :: 0 <= j < |stored| && 0 <= k < |results| && stored[j].agent == results[k].agent ==>
      Keeps(stored[j], results[k])
  }

  /** What a process knows behind its preflight checks. */
  ghost predicate Faithful(plan: Plan, s: State) {
    Deploying(s.pc) ==>
      && Distinct(Agents(s.memory.stored)) && KeepsStored(s.memory.stored, s.memory.results)
      && s.memory.planned == MissingFrom(plan, s.memory, 0)
  }

  lemma FoundIsKept(stored: seq<Entry>, agent: string, j: nat)
    requires Distinct(Agents(stored)) && j < |stored| && stored[j].agent == agent
    ensures HasKey(stored, agent) && Find(stored, agent) == stored[j]
  {
    var e := Find(stored, agent);
    var k :| 0 <= k < |stored| && stored[k] == e;
    assert Agents(stored)[j] == Agents(stored)[k];
  }

  lemma InspectedKeeps(plan: Plan, s: State, seen: Observation, j: nat)
    requires s.pc.Working? && s.pc.i < |plan.targets| && Inspected(plan, s, seen).Some?
    requires Distinct(Agents(s.memory.stored)) && j < |s.memory.stored|
    requires s.memory.stored[j].agent == Inspected(plan, s, seen).value.agent
    ensures Keeps(s.memory.stored[j], Inspected(plan, s, seen).value)
  {
    hide Exact, Candidates, Find, HasKey;
    var agent := plan.targets[s.pc.i];
    assert Inspected(plan, s, seen).value.agent == agent by { InspectedAgent(plan, s, seen); }
    FoundIsKept(s.memory.stored, agent, j);
    var observed := DeploymentResult(
      plan, agent, s.memory.stored[j].name, s.existing[s.memory.stored[j].name], seen).value;
    ReconciledKnowsBoth(s.memory.stored[j], observed);
  }

  lemma InspectedAgent(plan: Plan, s: State, seen: Observation)
    requires (s.pc.Working? || s.pc.Created?) && s.pc.i < |plan.targets| && Inspected(plan, s, seen).Some?
    ensures Inspected(plan, s, seen).value.agent == plan.targets[s.pc.i]
  {
    hide Exact, Candidates;
  }

  lemma InspectFaithful(plan: Plan, s: State, seen: Observation)
    requires Enabled(plan, s, Inspect(seen)) && Faithful(plan, s)
    requires s.pc.Created? ==> NoEntry(s.memory.stored, plan.targets[s.pc.i])
    ensures Faithful(plan, Apply(plan, s, Inspect(seen)))
  {
    hide Inspected, Keeps, MissingFrom;
    var t, entry := Apply(plan, s, Inspect(seen)), Inspected(plan, s, seen).value;
    SameMissing(plan, s.memory, t.memory, 0);
    InspectedAgent(plan, s, seen);
    forall j | 0 <= j < |s.memory.stored| && s.memory.stored[j].agent == entry.agent
      ensures Keeps(s.memory.stored[j], entry)
    {
      InspectedKeeps(plan, s, seen, j);
    }
  }

  /** A resource is created for an agent without a stored result only. */
  ghost predicate CreatedUnstored(plan: Plan, s: State) {
    s.pc.Created? && s.pc.i < |plan.targets| ==> NoEntry(s.memory.stored, plan.targets[s.pc.i])
  }

  lemma StepFaithful(plan: Plan, s: State, a: Action)
    requires Enabled(plan, s, a) && Faithful(plan, s) && CreatedUnstored(plan, s)
    ensures Faithful(plan, Apply(plan, s, a)) && CreatedUnstored(plan, Apply(plan, s, a))
  {
    hide Inspected, MissingFrom, Candidates, KeepsStored, PreflightPasses;
    var t := Apply(plan, s, a);
    match a
    case List =>
      ListFaithful(plan, s);
    case Inspect(seen) =>
      InspectFaithful(plan, s, seen);
    case _ =>
      StaysFaithful(plan, s, t);
  }

  lemma StaysFaithful(plan: Plan, s: State, t: State)
    requires Faithful(plan, s) && (Deploying(t.pc) ==> Deploying(s.pc))
    requires Deploying(t.pc) ==>
      && t.memory.stored == s.memory.stored && t.memory.seen == s.memory.seen
      && t.memory.results == s.memory.results && t.memory.planned == s.memory.planned
    ensures Faithful(plan, t)
  {
    hide MissingFrom, KeepsStored;
    if Deploying(t.pc) {
      SameMissing(plan, s.memory, t.memory, 0);
    }
  }

  lemma ListFaithful(plan: Plan, s: State)
    requires Enabled(plan, s, List)
    ensures Faithful(plan, Apply(plan, s, List))
  {
    hide MissingFrom, Candidates;
    SameMissing(plan, s.memory.(seen := Listing(plan, s).seen), Listing(plan, s), 0);
  }

  lemma {:induction false} RunFaithful(plan: Plan, start: State, run: seq<Action>)
    requires Initial(plan, start) && Runs(plan, start, run)
    ensures Faithful(plan, After(plan, start, run)) && CreatedUnstored(plan, After(plan, start, run))
    decreases |run|
  {
    hide Enabled, Apply, Faithful, CreatedUnstored;
    if run == [] {
      IdleFaithful(plan, start);
    } else {
      RunFaithful(plan, start, run[..|run| - 1]);
      StepFaithful(plan, After(plan, start, run[..|run| - 1]), run[|run| - 1]);
    }
  }

  lemma IdleFaithful(plan: Plan, s: State)
    requires s.pc.Idle?
    ensures Faithful(plan, s) && CreatedUnstored(plan, s)
  {
  }

  /** What stands in a completed receipt: one result per target in plan order, each naming a listed
      resource that carries the seven labels of the release. */
  ghost predicate Reports(plan: Plan, existing: map<string, Labels>, listed: set<string>, r: Receipt) {
    && r.status == Deployed && r.current == None && |r.resources| == |plan.targets|
    && forall k :: 0 <= k < |plan.targets| ==>
         && r.resources[k].agent == plan.targets[k]
         && r.resources[k].name in listed && r.resources[k].name in existing
         && OfRelease(plan, plan.targets[k], existing[r.resources[k].name])
  }

  /** A completed receipt reports resources of this release only, keeps what was stored when the
      attempt began, and comes of exactly as many creates as agents were served by nothing. */
  lemma SuccessReports(plan: Plan, start: State, run: seq<Action>)
    requires plan.Valid() && Initial(plan, start) && Runs(plan, start, run) && After(plan, start, run).pc.Closing?
    ensures var s := After(plan, start, run);
      && Reports(plan, s.existing, s.listed, s.memory.receipt)
      && KeepsStored(s.memory.stored, s.memory.receipt.resources)
      && s.memory.creates == |Unserved(plan, s.memory.stored, s.memory.seen)|
  {
    hide Runs, After, Initial, OfRelease, Exact, Unserved, MissingFrom;
    var s := After(plan, start, run);
    RunInv(plan, start, run);
    RunFaithful(plan, start, run);
    ClosingIsComplete(plan, s);
    MissingIsCount(plan, s.memory);
    var r := s.memory.receipt;
    forall k | 0 <= k < |plan.targets|
      ensures r.resources[k].agent == plan.targets[k]
      ensures OfRelease(plan, plan.targets[k], s.existing[r.resources[k].name])
    {
      assert Agents(r.resources)[k] == plan.targets[k];
      ExactMeansOfRelease(plan, plan.targets[k], s.existing[r.resources[k].name]);
    }
  }

  /** In every state of every run no two resources carry the release's labels of one agent, and
      there are never more than 100. */
  lemma NeverTwo(plan: Plan, start: State, run: seq<Action>)
    requires plan.Valid() && Initial(plan, start) && Runs(plan, start, run)
    ensures NoneTwice(plan, After(plan, start, run).existing) && |After(plan, start, run).existing| <= 100
  {
    hide OfRelease, Exact, Initial, Runs, After;
    var existing := After(plan, start, run).existing;
    EveryRunIsSafe(plan, start, run);
    forall a, name | name in existing ensures Exact(plan, a, existing[name]) <==> OfRelease(plan, a, existing[name]) {
      ExactMeansOfRelease(plan, a, existing[name]);
    }
    forall a, n1, n2 | a in plan.targets && n1 in existing && n2 in existing
        && OfRelease(plan, a, existing[n1]) && OfRelease(plan, a, existing[n2])
      ensures n1 == n2
    {
      assert Owns(plan, existing, a, n1) && Owns(plan, existing, a, n2);
    }
  }

  /** What one pass of the loop leaves: nothing created, unless nothing of the release existed for
      the agent; then at most one resource, of the release. */
  predicate CreatedIfNone(plan: Plan, agent: string, before: map<string, Labels>, after: map<string, Labels>) {
    after == before
    || (NoResource(plan, before, agent)
        && exists name :: name !in before && name in after && after == before[name := after[name]]
             && OfRelease(plan, agent, after[name]))
  }

  lemma NeededHere(plan: Plan, s: State)
    requires Inv(plan, s) && s.pc.Working? && s.pc.i < |plan.targets| && Missing(plan, s.memory, plan.targets[s.pc.i])
    ensures NoResource(plan, s.existing, plan.targets[s.pc.i])
    ensures OfRelease(plan, plan.targets[s.pc.i], TargetLabels(plan, plan.targets[s.pc.i]))
  {
    hide Exact, OfRelease, Missing;
    var agent := plan.targets[s.pc.i];
    forall name | name in s.existing ensures !OfRelease(plan, agent, s.existing[name]) {
      ExactMeansOfRelease(plan, agent, s.existing[name]);
      assert !Owns(plan, s.existing, agent, name);
    }
    ExactMeansOfRelease(plan, agent, TargetLabels(plan, agent));
    CarriesItsLabels(plan, agent);
  }

  /** The result of the last target inspected. */
  predicate ServedBy(plan: Plan, i: nat, results: seq<Entry>, existing: map<string, Labels>) {
    && i < |plan.targets| && |results| == i + 1 && results[i].agent == plan.targets[i]
    && results[i].name in existing && OfRelease(plan, plan.targets[i], existing[results[i].name])
  }

  lemma LastIsServed(plan: Plan, s: State, i: nat)
    requires Inv(plan, s) && s.pc == Between(i + 1)
    ensures ServedBy(plan, i, s.memory.results, s.existing)
  {
    hide Exact, OfRelease;
    var results := s.memory.results;
    assert Agents(results)[i] == plan.targets[..i + 1][i];
    ExactMeansOfRelease(plan, plan.targets[i], s.existing[results[i].name]);
  }

  /** A create is only issued for an agent of which no resource of the release exists at all, and
      what it makes is one. */
  lemma CreatesAreNeeded(plan: Plan, start: State, run: seq<Action>, a: Action)
    requires plan.Valid() && Initial(plan, start) && Runs(plan, start, run + [a])
    requires a.CreateReturns? || a.CreateRaises?
    ensures (run + [a])[..|run|] == run && Runs(plan, start, run)
    ensures var s, t := After(plan, start, run), After(plan, start, run + [a]);
      && s.pc.Working? && s.pc.i < |plan.targets|
      && NoResource(plan, s.existing, plan.targets[s.pc.i]) && NoEntry(s.memory.stored, plan.targets[s.pc.i])
      && a.name !in s.existing && t.existing.Keys == s.existing.Keys + {a.name}
      && OfRelease(plan, plan.targets[s.pc.i], t.existing[a.name])
  {
    hide Exact, OfRelease, Initial;
    CreatesAreFirst(plan, start, run, a);
    var s := After(plan, start, run);
    var agent := plan.targets[s.pc.i];
    assert (run + [a])[..|run + [a]| - 1] == run;
    forall name | name in s.existing ensures !OfRelease(plan, agent, s.existing[name]) {
      ExactMeansOfRelease(plan, agent, s.existing[name]);
      assert !Owns(plan, s.existing, agent, name);
    }
    MissingIsUnserved(plan, s.memory, agent);
    ExactMeansOfRelease(plan, agent, TargetLabels(plan, agent));
    assert Exact(plan, agent, TargetLabels(plan, agent)) by { CarriesItsLabels(plan, agent); }
  }

  lemma CarriesItsLabels(plan: Plan, agent: string)
    ensures Exact(plan, agent, TargetLabels(plan, agent))
  {
  }

  /** How many attempts of a run have written their first receipt. */
  function Attempts(run: seq<Action>): nat {
    if run == [] then 0 else Attempts(run[..|run| - 1]) + if run[|run| - 1].WriteOpen? then 1 else 0
  }

  /** The receipt in memory counts the attempt it belongs to. */
  ghost predicate Counted(s: State, n: nat) {
    && (s.durable.None? <==> n == 0) && (s.durable.Some? ==> s.durable.value.attempts == n)
    && (s.pc.Opened? ==> s.memory.receipt.attempts == n + 1)
    && (!s.pc.Idle? && !s.pc.Opened? ==> n > 0 && s.memory.receipt.attempts == n)
  }

  lemma CountedStep(plan: Plan, s: State, a: Action, n: nat)
    requires Enabled(plan, s, a) && Counted(s, n)
    ensures Counted(Apply(plan, s, a), n + if a.WriteOpen? then 1 else 0)
  {
    hide Inspected, PreflightPasses, Missing, TargetLabels, Listing, Candidates;
    if a.List? {
      assert Apply(plan, s, a).memory.receipt == s.memory.receipt by { ListingKeepsReceipt(plan, s); }
    }
  }

  lemma ListingKeepsReceipt(plan: Plan, s: State)
    ensures Listing(plan, s).receipt == s.memory.receipt
  {
  }

  /** Over every run the durable receipt counts the attempts that wrote one. */
  lemma {:induction false} AttemptsAreCounted(plan: Plan, start: State, run: seq<Action>)
    requires Initial(plan, start) && Runs(plan, start, run)
    ensures Counted(After(plan, start, run), Attempts(run))
    decreases |run|
  {
    hide Enabled, Apply, Counted;
    if run == [] {
      assert Counted(start, 0) by { NoneCounted(plan, start); }
    } else {
      AttemptsAreCounted(plan, start, run[..|run| - 1]);
      CountedStep(plan, After(plan, start, run[..|run| - 1]), run[|run| - 1], Attempts(run[..|run| - 1]));
    }
  }

  lemma NoneCounted(plan: Plan, s: State)
    requires Initial(plan, s)
    ensures Counted(s, 0)
  {
  }
}
