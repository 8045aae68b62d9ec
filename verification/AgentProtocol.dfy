/**
 The Agent Runtime deployer as a protocol over a durable receipt, the remote resources and
 the subset of them that a listing shows (tools/deploy_agent_platform.py).

 One `Action` is one point at which the process may stop: an in-memory update, an atomic
 receipt write, a provider call, the exception handler, or a hard kill. A run is any sequence
 of enabled actions, so it covers one initial attempt and any number of resumes, each stopped
 anywhere.

 What is assumed of the provider, and visible in `Apply`:
  - a create that returned is shown by every later listing;
  - a create that raised either took no effect (`Fail` straight from `Working`) or took
    effect unseen (`CreateRaises`), and may be shown at some later moment (`Appear`) or never;
  - a resource once shown stays shown, keeps its name and labels, and is not deleted;
  - nothing else creates resources while the run lasts.
 */
module AgentProtocol {
  import opened Common

  type Labels = map<string, string>

  const AGENT_RUNTIME_RESOURCE_LIMIT := 100

  datatype Plan = Plan(
    release: string, deployment: string, commit: string,
    manifest: string, requirements: string,
    targets: seq<string>)
  {
    /** `build_plan` sorts a set of agent keys. */
    predicate Valid() { Distinct(targets) }
  }

  /** `text.replace(".", "-")`. */
  function Dashed(text: string): string {
    seq(|text|, k requires 0 <= k < |text| => if text[k] == '.' then '-' else text[k])
  }

  /** `text[:n]`. */
  function Cut(text: string, n: nat): string { if |text| <= n then text else text[..n] }

  const HASH_PREFIX := "sha256:"

  function HashLabel(hash: string): string {
    Cut(if HASH_PREFIX <= hash then hash[|HASH_PREFIX|..] else hash, 32)
  }

  function TargetLabels(plan: Plan, agent: string): Labels {
    map[
      "app" := "solvan",
      "agent" := agent,
      "release" := Cut(Dashed(plan.release), 63),
      "deployment" := plan.deployment,
      "commit" := plan.commit,
      "manifest" := HashLabel(plan.manifest),
      "requirements" := HashLabel(plan.requirements)
    ]
  }

  /** A remote resource is exact for an agent when it carries every expected label. */
  predicate Exact(plan: Plan, agent: string, labels: Labels) {
    var expected := TargetLabels(plan, agent);
    forall key :: key in expected ==> key in labels && labels[key] == expected[key]
  }

  /** The label has this value. */
  predicate Has(labels: Labels, key: string, value: string) { key in labels && labels[key] == value }

  /** The label is the beginning of a text, up to n characters of it. */
  predicate Begins(labels: Labels, key: string, text: string, n: nat) {
    && key in labels && |labels[key]| == (if |text| < n then |text| else n)
    && forall k :: 0 <= k < |labels[key]| ==> labels[key][k] == text[k]
  }

  /** The same with dashes for dots. */
  predicate BeginsDashed(labels: Labels, key: string, text: string, n: nat) {
    && key in labels && |labels[key]| == (if |text| < n then |text| else n)
    && forall k :: 0 <= k < |labels[key]| ==> labels[key][k] == if text[k] == '.' then '-' else text[k]
  }

  /** What the deployer labels the resource of an agent with. */
  predicate OfRelease(plan: Plan, agent: string, labels: Labels) {
    && Has(labels, "app", "solvan") && Has(labels, "agent", agent)
    && Has(labels, "deployment", plan.deployment) && Has(labels, "commit", plan.commit)
    && BeginsDashed(labels, "release", plan.release, 63)
    && Begins(labels, "manifest", if "sha256:" <= plan.manifest then plan.manifest[7..] else plan.manifest, 32)
    && Begins(
         labels, "requirements",
         if "sha256:" <= plan.requirements then plan.requirements[7..] else plan.requirements, 32)
  }

  /** A resource is exact when it carries all seven labels of the release: those of an earlier
      commit, another deployment, manifest or requirements do not do. */
  lemma ExactMeansOfRelease(plan: Plan, agent: string, labels: Labels)
    ensures Exact(plan, agent, labels) <==> OfRelease(plan, agent, labels)
  {
    var expected := TargetLabels(plan, agent);
    CutMeans(labels, "release", Dashed(plan.release), 63);
    CutMeans(labels, "manifest", if "sha256:" <= plan.manifest then plan.manifest[7..] else plan.manifest, 32);
    CutMeans(
      labels, "requirements", if "sha256:" <= plan.requirements then plan.requirements[7..] else plan.requirements, 32);
    hide Cut, Dashed, Begins, BeginsDashed;
    if Exact(plan, agent, labels) {
      assert "app" in expected && "agent" in expected && "release" in expected && "deployment" in expected;
      assert "commit" in expected && "manifest" in expected && "requirements" in expected;
    }
    DashedBegins(labels, plan.release);
  }

  lemma CutMeans(labels: Labels, key: string, text: string, n: nat)
    ensures Has(labels, key, Cut(text, n)) <==> Begins(labels, key, text, n)
  {
    if Begins(labels, key, text, n) {
      assert labels[key] == Cut(text, n);
    }
  }

  lemma DashedBegins(labels: Labels, release: string)
    ensures Begins(labels, "release", Dashed(release), 63) <==> BeginsDashed(labels, "release", release, 63)
  {
  }

  lemma ExactForOneAgent(plan: Plan, a: string, b: string, labels: Labels)
    requires Exact(plan, a, labels) && Exact(plan, b, labels)
    ensures a == b
  {
    assert "agent" in TargetLabels(plan, a) && "agent" in TargetLabels(plan, b);
  }

  /** One stored result. `stable` stands for the fields that may never change. */
  datatype Entry = Entry(agent: string, name: string, stable: string, createTime: Option<string>)

  /** What the provider reports of a resource at one moment; `attested` summarises the name,
      identity and gateway checks. */
  datatype Observation = Observation(attested: bool, stable: string, createTime: Option<string>)

  function DeploymentResult(plan: Plan, agent: string, name: string, labels: Labels, seen: Observation): Option<Entry> {
    if seen.attested && Exact(plan, agent, labels)
    then Some(Entry(agent, name, seen.stable, seen.createTime))
    else None
  }

  /** Everything but the creation time must agree; the creation time must agree once both know it. */
  function ReconcileStored(stored: Entry, observed: Entry): Option<Entry> {
    if stored.(createTime := None) != observed.(createTime := None) then None
    else if stored.createTime.Some? && observed.createTime.Some? && stored.createTime != observed.createTime then None
    else Some(if observed.createTime.None? then stored else observed)
  }

  /** Reconciliation is refused exactly when a stable field or a known creation time differs;
      what it keeps forgets nothing that either side knew, and reconciles with both again. */
  lemma ReconciledKnowsBoth(stored: Entry, observed: Entry)
    ensures ReconcileStored(stored, observed).None? <==>
      || stored.agent != observed.agent || stored.name != observed.name || stored.stable != observed.stable
      || (stored.createTime.Some? && observed.createTime.Some? && stored.createTime != observed.createTime)
    ensures ReconcileStored(stored, observed).Some? ==>
      var e := ReconcileStored(stored, observed).value;
      && (stored.createTime.Some? ==> e == stored) && (observed.createTime.Some? ==> e == observed)
      && ReconcileStored(e, stored) == ReconcileStored(e, observed) == Some(e)
  {
  }

  datatype Status = InProgress | Failed | Interrupted | Deployed

  datatype Receipt = Receipt(status: Status, attempts: nat, resources: seq<Entry>, current: Option<string>)

  predicate HasKey(entries: seq<Entry>, agent: string) {
    exists k :: 0 <= k < |entries| && entries[k].agent == agent
  }

  function Find(entries: seq<Entry>, agent: string): (e: Entry)
    requires HasKey(entries, agent)
    ensures e in entries && e.agent == agent
  {
    if entries[0].agent == agent then entries[0] else Find(entries[1..], agent)
  }

  /** Where the process stands. `Idle`: no process. `Broken`: a create raised. */
  datatype Pc =
    | Idle | Opened | Preflight | Between(i: nat) | Intended(i: nat) | Working(i: nat)
    | Created(i: nat, name: string) | Recorded(i: nat) | Settled(i: nat) | Closing | Broken

  /** The local variables of a running process. */
  datatype Memory = Memory(
    receipt: Receipt, stored: seq<Entry>, unresolved: Option<string>,
    seen: map<string, Labels>, results: seq<Entry>, creates: nat, planned: nat)

  datatype State = State(
    durable: Option<Receipt>, existing: map<string, Labels>, listed: set<string>,
    memory: Memory, pc: Pc)

  /** The names in a listing that are exact for an agent. */
  function Candidates(plan: Plan, seen: map<string, Labels>, agent: string): set<string> {
    set name | name in seen && Exact(plan, agent, seen[name])
  }

  /** The agent has neither a stored result nor a listed resource. */
  predicate Missing(plan: Plan, m: Memory, agent: string) {
    !HasKey(m.stored, agent) && Candidates(plan, m.seen, agent) == {}
  }

  function MissingFrom(plan: Plan, m: Memory, i: nat): nat
    requires i <= |plan.targets|
    decreases |plan.targets| - i
  {
    if i == |plan.targets| then 0
    else (if Missing(plan, m, plan.targets[i]) then 1 else 0) + MissingFrom(plan, m, i + 1)
  }

  /** The checks between the listing and the first target. */
  predicate PreflightPasses(plan: Plan, m: Memory) {
    && Distinct(Agents(m.stored))
    && (forall k :: 0 <= k < |m.stored| ==> m.stored[k].agent in plan.targets)
    && (m.unresolved.Some? ==> m.unresolved.value in plan.targets)
    && (forall a :: a in plan.targets ==> |Candidates(plan, m.seen, a)| <= 1)
    && (m.unresolved.Some? ==> !Missing(plan, m, m.unresolved.value))
    && |m.seen| + MissingFrom(plan, m, 0) <= AGENT_RUNTIME_RESOURCE_LIMIT
  }

  function Agents(entries: seq<Entry>): (keys: seq<string>)
    ensures |keys| == |entries|
  {
    seq(|entries|, k requires 0 <= k < |entries| => entries[k].agent)
  }

  datatype Action =
    | OpenFresh | OpenResume | WriteOpen | List | Intend | WriteIntent
    | Inspect(seen: Observation) | CreateReturns(name: string) | CreateRaises(name: string)
    | ClearIntent | WriteResult | Close | WriteClose
    | Fail(status: Status) | Die | Appear(names: set<string>)

  /** The entry that inspecting target `agent` adds, if its checks pass. */
  ghost function Inspected(plan: Plan, s: State, seen: Observation): Option<Entry>
    requires s.pc.Working? || s.pc.Created?
    requires s.pc.i < |plan.targets|
  {
    var agent := plan.targets[s.pc.i];
    if s.pc.Created? then
      if s.pc.name in s.existing then DeploymentResult(plan, agent, s.pc.name, s.existing[s.pc.name], seen) else None
    else if HasKey(s.memory.stored, agent) then
      var stored := Find(s.memory.stored, agent);
      if stored.name !in s.existing then None
      else
        var observed := DeploymentResult(plan, agent, stored.name, s.existing[stored.name], seen);
        if observed.None? then None else ReconcileStored(stored, observed.value)
    else
      var candidates := Candidates(plan, s.memory.seen, agent);
      if |candidates| != 1 then None
      else
        var name :| name in candidates;
        DeploymentResult(plan, agent, name, s.memory.seen[name], seen)
  }

  ghost predicate Enabled(plan: Plan, s: State, a: Action) {
    var n := |plan.targets|;
    match a
    case OpenFresh => s.pc.Idle? && s.durable.None?
    case OpenResume => s.pc.Idle? && s.durable.Some? && s.durable.value.status in {Failed, Interrupted}
    case WriteOpen => s.pc.Opened?
    case List => s.pc.Preflight? && PreflightPasses(plan, Listing(plan, s))
    case Intend => s.pc.Between? && s.pc.i < n
    case WriteIntent => s.pc.Intended?
    case Inspect(seen) => (s.pc.Working? || s.pc.Created?) && s.pc.i < n && Inspected(plan, s, seen).Some?
    case CreateReturns(name) =>
      s.pc.Working? && s.pc.i < n && Missing(plan, s.memory, plan.targets[s.pc.i]) && name !in s.existing
    case CreateRaises(name) =>
      s.pc.Working? && s.pc.i < n && Missing(plan, s.memory, plan.targets[s.pc.i]) && name !in s.existing
    case ClearIntent => s.pc.Recorded?
    case WriteResult => s.pc.Settled?
    case Close => s.pc.Between? && s.pc.i == n
    case WriteClose => s.pc.Closing?
    case Fail(status) => status in {Failed, Interrupted} && !(s.pc.Idle? || s.pc.Opened? || s.pc.Closing?)
    case Die => !s.pc.Idle?
    case Appear(names) => names <= s.existing.Keys
  }

  /** `client.list()`. */
  function Shown(existing: map<string, Labels>, listed: set<string>): map<string, Labels> {
    map name | name in existing && name in listed :: existing[name]
  }

  /** Local variables after it. */
  function Listing(plan: Plan, s: State): Memory {
    var m := s.memory.(seen := Shown(s.existing, s.listed));
    m.(results := [], creates := 0, planned := MissingFrom(plan, m, 0))
  }

  ghost function Apply(plan: Plan, s: State, a: Action): State
    requires Enabled(plan, s, a)
  {
    var m := s.memory;
    match a
    case OpenFresh =>
      s.(pc := Opened, memory := Memory(Receipt(InProgress, 1, [], None), [], None, map[], [], 0, 0))
    case OpenResume =>
      var last := s.durable.value;
      s.(pc := Opened,
         memory := Memory(last.(status := InProgress, attempts := last.attempts + 1),
                          last.resources, last.current, map[], [], 0, 0))
    case WriteOpen => s.(durable := Some(m.receipt), pc := Preflight)
    case List => s.(memory := Listing(plan, s), pc := Between(0))
    case Intend =>
      s.(memory := m.(receipt := m.receipt.(current := Some(plan.targets[s.pc.i]))), pc := Intended(s.pc.i))
    case WriteIntent => s.(durable := Some(m.receipt), pc := Working(s.pc.i))
    case Inspect(seen) =>
      var results := m.results + [Inspected(plan, s, seen).value];
      s.(memory := m.(results := results, receipt := m.receipt.(resources := results)), pc := Recorded(s.pc.i))
    case CreateReturns(name) =>
      s.(existing := s.existing[name := TargetLabels(plan, plan.targets[s.pc.i])], listed := s.listed + {name},
         memory := m.(creates := m.creates + 1), pc := Created(s.pc.i, name))
    case CreateRaises(name) =>
      s.(existing := s.existing[name := TargetLabels(plan, plan.targets[s.pc.i])], pc := Broken)
    case ClearIntent => s.(memory := m.(receipt := m.receipt.(current := None)), pc := Settled(s.pc.i))
    case WriteResult => s.(durable := Some(m.receipt), pc := Between(s.pc.i + 1))
    case Close => s.(memory := m.(receipt := m.receipt.(status := Deployed, current := None)), pc := Closing)
    case WriteClose => s.(durable := Some(m.receipt), pc := Idle)
    case Fail(status) => s.(durable := Some(m.receipt.(status := status)), pc := Idle)
    case Die => s.(pc := Idle)
    case Appear(names) => s.(listed := s.listed + names)
  }

  /** The actions are enabled one after the other. Every prefix of a run is a run. */
  ghost predicate Runs(plan: Plan, start: State, run: seq<Action>)
    decreases |run|, 0
  {
    run == [] ||
    (Runs(plan, start, run[..|run| - 1]) && Enabled(plan, After(plan, start, run[..|run| - 1]), run[|run| - 1]))
  }

  ghost function After(plan: Plan, start: State, run: seq<Action>): State
    requires Runs(plan, start, run)
    decreases |run|, 1
  {
    if run == [] then start
    else Apply(plan, After(plan, start, run[..|run| - 1]), run[|run| - 1])
  }

  /** Before the initial attempt: no receipt, every resource listed, at most one exact resource
      per agent, and no more than the limit. */
  ghost predicate Initial(plan: Plan, s: State) {
    && s.pc.Idle? && s.durable.None?
    && s.listed == s.existing.Keys
    && OnePerAgent(plan, s.existing)
    && |s.existing| <= AGENT_RUNTIME_RESOURCE_LIMIT
  }

  /** `name` is a resource that exists and is exact for an agent of the plan. */
  predicate Owns(plan: Plan, existing: map<string, Labels>, agent: string, name: string) {
    agent in plan.targets && name in existing && Exact(plan, agent, existing[name])
  }

  ghost predicate OnePerAgent(plan: Plan, existing: map<string, Labels>) {
    forall agent, n1, n2 ::
      Owns(plan, existing, agent, n1) && Owns(plan, existing, agent, n2) ==> n1 == n2
  }
}
