/**
 An interrupted create whose resource is not visible stops every later attempt
 (tools/deploy_agent_platform.py, the refusal of a duplicate create).
 */
module AgentBlocking {
  import opened Common
  import opened AgentProtocol

  ghost predicate Unlisted(plan: Plan, s: State, agent: string) {
    forall n :: n in s.listed && n in s.existing ==> !Exact(plan, agent, s.existing[n])
  }

  /** The durable intent is unresolved, and a process that runs has not got past its checks. */
  ghost predicate Blocked(s: State, agent: string) {
    && s.durable.Some? && s.durable.value.current == Some(agent) && !HasKey(s.durable.value.resources, agent)
    && (s.pc.Idle? || s.pc.Opened? || s.pc.Preflight?)
    && (!s.pc.Idle? ==>
          && s.memory.receipt.current == s.memory.unresolved == Some(agent)
          && !HasKey(s.memory.stored, agent) && !HasKey(s.memory.receipt.resources, agent))
  }

  lemma BlockedKeeps(plan: Plan, s: State, a: Action, agent: string)
    requires Blocked(s, agent) && Enabled(plan, s, a) && Unlisted(plan, s, agent)
    ensures Blocked(Apply(plan, s, a), agent) && Apply(plan, s, a).existing == s.existing
  {
    if s.pc.Preflight? {
      assert Candidates(plan, Listing(plan, s).seen, agent) == {};
    }
  }

  /** Listings only grow and labels never change. */
  lemma {:induction false} RunsGrow(plan: Plan, s: State, run: seq<Action>)
    requires Runs(plan, s, run)
    ensures s.listed <= After(plan, s, run).listed
    ensures forall n :: n in s.existing ==>
      n in After(plan, s, run).existing && After(plan, s, run).existing[n] == s.existing[n]
    decreases |run|
  {
    if run != [] {
      RunsGrow(plan, s, run[..|run| - 1]);
    }
  }

  /** As long as no listing shows a resource for the interrupted agent, no attempt creates
      anything, and the intent stays durable. */
  lemma {:induction false} UnresolvedIntentStopsEveryAttempt(plan: Plan, s: State, run: seq<Action>, agent: string)
    requires s.pc.Idle? && s.durable.Some? && s.durable.value.current == Some(agent)
    requires !HasKey(s.durable.value.resources, agent)
    requires Runs(plan, s, run) && Unlisted(plan, After(plan, s, run), agent)
    ensures After(plan, s, run).existing == s.existing
    ensures After(plan, s, run).durable.Some? && After(plan, s, run).durable.value.current == Some(agent)
    ensures Blocked(After(plan, s, run), agent)
    decreases |run|
  {
    if run != [] {
      var before, last := run[..|run| - 1], run[|run| - 1];
      var mid := After(plan, s, before);
      assert Unlisted(plan, mid, agent) by {
        forall n | n in mid.listed && n in mid.existing ensures !Exact(plan, agent, mid.existing[n]) {
          assert After(plan, s, run) == Apply(plan, mid, last);
        }
      }
      UnresolvedIntentStopsEveryAttempt(plan, s, before, agent);
      BlockedKeeps(plan, mid, last, agent);
    }
  }
}
