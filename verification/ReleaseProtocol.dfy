/**
 The release phase machine (tools/deploy_release.py) as a protocol over one durable,
 self-hashed receipt and the external effects of every attempt.

 An action is one point at which an attempt may be stopped: an effect beginning or finishing,
 one in-memory update of the receipt, one atomic receipt write, the exception handlers, or a
 hard kill. `Enabled` is the discipline an attempt has to follow; that the code follows it is
 proved in `ReleaseRunner`, and what the discipline buys over all runs in `ReleaseSafety`.

 The canonical SHA-256 is injective here: a digest is represented by the value digested.
 */
module ReleaseProtocol {
  import opened Common

  // The declared phases, by position in the plan.
  const VERIFY_SOURCE := 0
  const INITIALIZE_STATE := 1
  const ENABLE_SERVICES := 2
  const CREATE_TRIGGER := 3
  const ACCEPT_BUILD := 4
  const RESOLVE_IMAGES := 5
  const VERIFY_PROVENANCE := 6
  const ENFORCE_ATTESTATIONS := 7
  const PAUSE_WORK := 8
  const APPLY_PLATFORM := 9
  const DEPLOY_AGENTS := 10
  const APPLY_GATEWAYS := 11
  const BIND_RUNTIME := 12
  const MIGRATE_DATABASE := 13
  const EVALUATE_CATALOG := 14
  const REQUEST_APPROVAL := 15
  const PUBLISH_CATALOG := 16
  const SEED_CALIBRATION := 17
  const EMIT_RECEIPT := 18
  const PHASE_COUNT := 19

  /** The phases of the plan, as it declares them. */
  const PHASES := [
    "verify_clean_published_commit",
    "initialize_remote_terraform_state",
    "enable_build_services_and_create_repository",
    "create_managed_cloud_build_trigger_identity_and_exact_iam",
    "accept_managed_cloud_build",
    "resolve_all_images_to_immutable_digests",
    "verify_cloud_build_provenance_and_attestor",
    "enforce_cloud_build_attestations_with_binary_authorization",
    "pause_automated_work_before_any_image_rolls",
    "apply_platform_with_schedulers_paused",
    "deploy_six_agent_runtime_resources",
    "apply_agent_identity_gateway_policies",
    "bind_runtime_resources_revisions_and_principals",
    "execute_private_database_migration",
    "evaluate_catalog_with_cloud_deploy",
    "request_human_catalog_publication_approval",
    "publish_governed_tool_catalog",
    "execute_approved_calibration_seed_if_configured",
    "emit_deployed_unverified_receipt"
  ]

  /** What an attempt does outside its own memory, beside writing its receipt. */
  datatype Effect =
    | VerifySource | InitState | BootstrapServices | ProvisionTrigger | DescribeTrigger
    | ResolveImages | VerifySupplyChain | EnforceAttestations | QuiesceSchedulers
    | ApplyPlatform | ReadInitialOutputs | DeployAgents | ReadRuntimeReceipt | ConfigureGateways
    | BindRuntime | ReadFinalOutputs | MigrateDatabase | StartCatalogDelivery
    | PollPublication | RunSeedJob

  /** The phase in whose block of the source the effect stands. */
  function PhaseOf(e: Effect): nat {
    match e
    case VerifySource => VERIFY_SOURCE
    case InitState => INITIALIZE_STATE
    case BootstrapServices => ENABLE_SERVICES
    case ProvisionTrigger => CREATE_TRIGGER
    case DescribeTrigger => CREATE_TRIGGER
    case ResolveImages => RESOLVE_IMAGES
    case VerifySupplyChain => VERIFY_PROVENANCE
    case EnforceAttestations => ENFORCE_ATTESTATIONS
    case QuiesceSchedulers => PAUSE_WORK
    case ApplyPlatform => APPLY_PLATFORM
    case ReadInitialOutputs => APPLY_PLATFORM
    case DeployAgents => DEPLOY_AGENTS
    case ReadRuntimeReceipt => DEPLOY_AGENTS
    case ConfigureGateways => APPLY_GATEWAYS
    case BindRuntime => BIND_RUNTIME
    case ReadFinalOutputs => BIND_RUNTIME
    case MigrateDatabase => MIGRATE_DATABASE
    case StartCatalogDelivery => EVALUATE_CATALOG
    case PollPublication => PUBLISH_CATALOG
    case RunSeedJob => SEED_CALIBRATION
  }

  /** Effects that run once, because the checkpoint of their phase guards them; the others
      observe or verify and run in every attempt that gets so far. */
  predicate Once(e: Effect) {
    e in {BootstrapServices, ProvisionTrigger, ResolveImages, EnforceAttestations, ApplyPlatform, DeployAgents,
          ConfigureGateways, BindRuntime, MigrateDatabase, StartCatalogDelivery, RunSeedJob}
  }

  /** The effect whose finishing a phase checkpoints. */
  function WorkOf(p: nat): Option<Effect> {
    if p == VERIFY_SOURCE then Some(VerifySource)
    else if p == INITIALIZE_STATE then Some(InitState)
    else if p == ENABLE_SERVICES then Some(BootstrapServices)
    else if p == CREATE_TRIGGER then Some(ProvisionTrigger)
    else if p == RESOLVE_IMAGES then Some(ResolveImages)
    else if p == VERIFY_PROVENANCE then Some(VerifySupplyChain)
    else if p == ENFORCE_ATTESTATIONS then Some(EnforceAttestations)
    else if p == PAUSE_WORK then Some(QuiesceSchedulers)
    else if p == APPLY_PLATFORM then Some(ApplyPlatform)
    else if p == DEPLOY_AGENTS then Some(DeployAgents)
    else if p == APPLY_GATEWAYS then Some(ConfigureGateways)
    else if p == BIND_RUNTIME then Some(BindRuntime)
    else if p == MIGRATE_DATABASE then Some(MigrateDatabase)
    else if p == EVALUATE_CATALOG then Some(StartCatalogDelivery)
    else if p == PUBLISH_CATALOG then Some(PollPublication)
    else if p == SEED_CALIBRATION then Some(RunSeedJob)
    else None
  }

  /** Every effect that runs once is the work of exactly its phase. */
  lemma OnceIsWork(e: Effect, p: nat)
    requires Once(e)
    ensures WorkOf(p) == Some(e) <==> p == PhaseOf(e)
  {
  }

  datatype Status =
    | InProgress | Failed | Interrupted | AwaitingManagedBuild | AwaitingCatalogApproval | Deployed

  datatype Outputs = Outputs(content: string, seedJob: Option<string>)

  datatype Receipt = Receipt(
    plan: string, status: Status, attempts: nat, phases: seq<nat>,
    commit: Option<string>, remoteUrl: Option<string>, trigger: Option<string>,
    buildId: Option<string>, images: Option<string>, paused: Option<seq<string>>,
    initialOutputs: Option<Outputs>, runtimeReceipt: Option<string>, finalOutputs: Option<Outputs>,
    catalogDelivery: Option<string>, publication: Option<string>)

  function NewReceipt(plan: string): Receipt {
    Receipt(plan, InProgress, 1, [], None, None, None, None, None, None, None, None, None, None, None)
  }

  /** The receipt file: the body and the digest written beside it. */
  datatype Stored = Stored(body: Receipt, sha256: Receipt)

  /** What one effect found. */
  datatype Finding =
    | Nothing
    | SourceAt(commit: string, remoteUrl: string) | TriggerIs(trigger: string) | ImagesAre(images: string)
    | JobsAre(jobs: seq<string>) | InitialOutputsAre(initial: Outputs) | RuntimeReceiptIs(runtime: string)
    | FinalOutputsAre(final: Outputs) | DeliveryIs(delivery: string) | Polled(publication: Option<string>)

  /** The kind of finding an effect has; a poll finds the publication once it has succeeded. */
  predicate Finds(e: Effect, found: Finding) {
    match e
    case VerifySource => found.SourceAt?
    case ProvisionTrigger => found.TriggerIs?
    case DescribeTrigger => found.TriggerIs?
    case ResolveImages => found.ImagesAre?
    case QuiesceSchedulers => found.JobsAre?
    case ApplyPlatform => found.InitialOutputsAre?
    case ReadInitialOutputs => found.InitialOutputsAre?
    case DeployAgents => found.RuntimeReceiptIs?
    case ReadRuntimeReceipt => found.RuntimeReceiptIs?
    case BindRuntime => found.FinalOutputsAre?
    case ReadFinalOutputs => found.FinalOutputsAre?
    case StartCatalogDelivery => found.DeliveryIs?
    case PollPublication => found.Polled?
    case _ => found.Nothing?
  }

  /** The latest findings of an attempt. */
  datatype Findings = Findings(
    commit: Option<string>, remoteUrl: Option<string>, trigger: Option<string>, images: Option<string>,
    jobs: Option<seq<string>>, initialOutputs: Option<Outputs>, runtimeReceipt: Option<string>,
    finalOutputs: Option<Outputs>, delivery: Option<string>, publication: Option<string>)

  const NO_FINDINGS := Findings(None, None, None, None, None, None, None, None, None, None)

  function Noted(seen: Findings, found: Finding): Findings {
    match found
    case Nothing => seen
    case SourceAt(commit, remoteUrl) => seen.(commit := Some(commit), remoteUrl := Some(remoteUrl))
    case TriggerIs(trigger) => seen.(trigger := Some(trigger))
    case ImagesAre(images) => seen.(images := Some(images))
    case JobsAre(jobs) => seen.(jobs := Some(jobs))
    case InitialOutputsAre(initial) => seen.(initialOutputs := Some(initial))
    case RuntimeReceiptIs(runtime) => seen.(runtimeReceipt := Some(runtime))
    case FinalOutputsAre(final) => seen.(finalOutputs := Some(final))
    case DeliveryIs(delivery) => seen.(delivery := Some(delivery))
    case Polled(publication) => seen.(publication := publication)
  }

  /** The `updates` argument of a phase completion. */
  datatype Update =
    | NoUpdate | Source(commit: string, remoteUrl: string) | Trigger(trigger: string) | Build(buildId: string)
    | Images(images: string) | Paused(jobs: seq<string>) | InitialOutputs(initial: Outputs)
    | RuntimeReceipt(runtime: string) | FinalOutputs(final: Outputs) | Delivery(delivery: string)
    | Publication(rollout: string)

  /** The update holds what the attempt has found, or the build it was given. */
  predicate AsFound(u: Update, seen: Findings, build: Option<string>) {
    match u
    case NoUpdate => true
    case Source(commit, remoteUrl) => seen.commit == Some(commit) && seen.remoteUrl == Some(remoteUrl)
    case Trigger(trigger) => seen.trigger == Some(trigger)
    case Build(id) => build == Some(id)
    case Images(images) => seen.images == Some(images)
    case Paused(jobs) => seen.jobs == Some(jobs)
    case InitialOutputs(initial) => seen.initialOutputs == Some(initial)
    case RuntimeReceipt(runtime) => seen.runtimeReceipt == Some(runtime)
    case FinalOutputs(final) => seen.finalOutputs == Some(final)
    case Delivery(delivery) => seen.delivery == Some(delivery)
    case Publication(rollout) => seen.publication == Some(rollout)
  }

  predicate Belongs(u: Update, p: nat) {
    match u
    case NoUpdate => true
    case Source(_, _) => p == VERIFY_SOURCE
    case Trigger(_) => p == CREATE_TRIGGER
    case Build(_) => p == ACCEPT_BUILD
    case Images(_) => p == RESOLVE_IMAGES
    case Paused(_) => p == PAUSE_WORK
    case InitialOutputs(_) => p == APPLY_PLATFORM
    case RuntimeReceipt(_) => p == DEPLOY_AGENTS
    case FinalOutputs(_) => p == BIND_RUNTIME
    case Delivery(_) => p == EVALUATE_CATALOG
    case Publication(_) => p == PUBLISH_CATALOG
  }

  function Updated(r: Receipt, u: Update): Receipt {
    match u
    case NoUpdate => r
    case Source(c, url) => r.(commit := Some(c), remoteUrl := Some(url))
    case Trigger(t) => r.(trigger := Some(t))
    case Build(b) => r.(buildId := Some(b))
    case Images(i) => r.(images := Some(i))
    case Paused(jobs) => r.(paused := Some(jobs))
    case InitialOutputs(o) => r.(initialOutputs := Some(o))
    case RuntimeReceipt(t) => r.(runtimeReceipt := Some(t))
    case FinalOutputs(o) => r.(finalOutputs := Some(o))
    case Delivery(d) => r.(catalogDelivery := Some(d))
    case Publication(p) => r.(publication := Some(p))
  }

  /** The completed phases are the first of the declared ones, in order. */
  predicate ExactPrefix(phases: seq<nat>) {
    |phases| <= PHASE_COUNT && forall k :: 0 <= k < |phases| ==> phases[k] == k
  }

  /** `_resume_release_receipt` accepts the file. */
  predicate AcceptsResume(plan: string, file: Stored) {
    && file.body.plan == plan
    && file.body.status in {Failed, Interrupted, AwaitingManagedBuild}
    && ExactPrefix(file.body.phases)
    && REQUEST_APPROVAL !in file.body.phases
    && file.sha256 == file.body
  }

  /** `resume_after_catalog_approval` accepts the file. */
  predicate AcceptsCatalogResume(plan: string, file: Stored) {
    && file.sha256 == file.body
    && file.body.plan == plan
    && file.body.status in {AwaitingCatalogApproval, Failed, Interrupted}
    && ExactPrefix(file.body.phases)
    && REQUEST_APPROVAL in file.body.phases
  }

  predicate KeepsField<T(==)>(a: Option<T>, b: Option<T>) {
    a.Some? ==> b == a
  }

  /** The later receipt has at least the phases, and exactly the recorded fields, of the
      earlier; the paused jobs are left out, because the attempt after the approval records
      them anew. */
  predicate Extends(a: Receipt, b: Receipt) {
    && a.plan == b.plan && a.phases <= b.phases
    && KeepsField(a.commit, b.commit) && KeepsField(a.remoteUrl, b.remoteUrl)
    && KeepsField(a.trigger, b.trigger) && KeepsField(a.buildId, b.buildId) && KeepsField(a.images, b.images)
    && KeepsField(a.initialOutputs, b.initialOutputs) && KeepsField(a.runtimeReceipt, b.runtimeReceipt)
    && KeepsField(a.finalOutputs, b.finalOutputs) && KeepsField(a.catalogDelivery, b.catalogDelivery)
    && KeepsField(a.publication, b.publication)
  }

  /** Which entry point is running, if any. */
  datatype Entry = Idle | Applying | Cataloguing

  /** `build`: the build ID this attempt was given. `done` and `seen`: the effects finished by
      this attempt and what they found; `ever`: the effects finished by any attempt. */
  datatype State = State(
    durable: Option<Stored>, receipt: Receipt, entry: Entry, written: bool, build: Option<string>,
    pending: Option<Effect>, done: set<Effect>, seen: Findings, ever: set<Effect>)

  datatype Action =
    | OpenNew(build: Option<string>) | OpenResume(build: Option<string>) | OpenCatalog
    | Begin(e: Effect) | Finish(effect: Effect, found: Finding)
    | Append(p: nat) | Record(phase: nat, u: Update) | Repause(jobs: seq<string>)
    | Mark(status: Status) | Write | Return | Fail(end: Status) | Die

  /** The status an attempt may give its receipt at a given number of completed phases. */
  predicate MayMark(status: Status, completed: nat) {
    match status
    case InProgress => true
    case AwaitingManagedBuild => completed == ACCEPT_BUILD
    case AwaitingCatalogApproval => completed == PUBLISH_CATALOG
    case Deployed => completed == PHASE_COUNT
    case _ => false
  }

  predicate SeedConfigured(r: Receipt) {
    r.finalOutputs.Some? && r.finalOutputs.value.seedJob.Some?
  }

  /** Everything recorded so far is durable too. */
  predicate Saved(s: State) {
    s.durable.Some? && Extends(s.receipt, s.durable.value.body)
  }

  predicate Matches<T(==)>(recorded: Option<T>, found: Option<T>) {
    recorded.Some? && found == recorded
  }

  /** The attempt has verified exactly the source of the receipt. */
  predicate SourceMatches(s: State) {
    Matches(s.receipt.commit, s.seen.commit) && Matches(s.receipt.remoteUrl, s.seen.remoteUrl)
  }

  predicate BuildMatches(s: State) {
    s.receipt.buildId.Some? && (s.build.Some? ==> s.build == s.receipt.buildId)
  }

  /** What an attempt has to have verified, observed and compared by itself before it works on
      phase p, however many phases earlier attempts have completed. */
  predicate CurrentAt(s: State, p: nat) {
    && (p > VERIFY_SOURCE ==> SourceMatches(s))
    && (p > PAUSE_WORK ==> QuiesceSchedulers in s.done)
    && (s.entry.Applying? ==>
          && (p > CREATE_TRIGGER ==> Matches(s.receipt.trigger, s.seen.trigger))
          && (p > ACCEPT_BUILD ==> BuildMatches(s))
          && (p > RESOLVE_IMAGES ==> s.receipt.images.Some?)
          && (p > VERIFY_PROVENANCE ==> VerifySupplyChain in s.done)
          && (p > APPLY_PLATFORM ==> Matches(s.receipt.initialOutputs, s.seen.initialOutputs))
          && (p > DEPLOY_AGENTS ==> Matches(s.receipt.runtimeReceipt, s.seen.runtimeReceipt))
          && (p > BIND_RUNTIME ==> Matches(s.receipt.finalOutputs, s.seen.finalOutputs))
          && (p > EVALUATE_CATALOG ==> s.receipt.catalogDelivery.Some?))
    && (s.entry.Cataloguing? && p > PUBLISH_CATALOG ==>
          s.seen.publication.Some? && Matches(s.receipt.finalOutputs, s.seen.finalOutputs))
  }

  /** What the attempt that completes a phase has done itself for it. */
  predicate Earned(s: State, p: nat) {
    && (WorkOf(p).Some? ==> WorkOf(p).value in s.done || (p == SEED_CALIBRATION && !SeedConfigured(s.receipt)))
    && (p == ACCEPT_BUILD ==> s.build.Some?)
    && (p == PUBLISH_CATALOG ==> s.seen.publication.Some?)
  }

  /** An effect that runs once begins only when its phase is the next one, and that is durable. */
  predicate Due(s: State, e: Effect) {
    && Saved(s)
    && (Once(e) ==> PhaseOf(e) == |s.receipt.phases|)
    && (e == RunSeedJob ==> SeedConfigured(s.receipt))
  }

  /** The discipline of one attempt. */
  predicate Enabled(plan: string, s: State, a: Action) {
    var running := !s.entry.Idle? && s.written && s.pending.None?;
    match a
    case OpenNew(build) => s.entry.Idle? && s.durable.None?
    case OpenResume(build) => s.entry.Idle? && s.durable.Some? && AcceptsResume(plan, s.durable.value)
    case OpenCatalog => s.entry.Idle? && s.durable.Some? && AcceptsCatalogResume(plan, s.durable.value)
    case Begin(e) => running && CurrentAt(s, PhaseOf(e)) && Due(s, e)
    case Finish(e, found) => !s.entry.Idle? && s.pending == Some(e) && Finds(e, found)
    case Append(p) =>
      && running && s.receipt.status.InProgress? && p == |s.receipt.phases| < PHASE_COUNT
      && CurrentAt(s, p) && Earned(s, p)
      && (p <= REQUEST_APPROVAL ==> s.entry.Applying?) && (p > REQUEST_APPROVAL ==> s.entry.Cataloguing?)
    case Record(p, u) =>
      && running && Belongs(u, p) && p + 1 == |s.receipt.phases|
      && Unrecorded(s.receipt, u) && AsFound(u, s.seen, s.build)
    case Repause(jobs) => running && s.entry.Cataloguing? && s.seen.jobs == Some(jobs)
    case Mark(status) =>
      && running && MayMark(status, |s.receipt.phases|)
      && (!status.InProgress? ==> CurrentAt(s, |s.receipt.phases|))
    case Write => !s.entry.Idle? && s.pending.None?
    case Return => running && s.durable == Some(Stored(s.receipt, s.receipt)) && !s.receipt.status.InProgress?
    case Fail(status) => !s.entry.Idle? && s.written && status in {Failed, Interrupted}
    case Die => !s.entry.Idle?
  }

  /** Nothing that the update would set is set already. */
  predicate Unrecorded(r: Receipt, u: Update) {
    match u
    case NoUpdate => true
    case Source(_, _) => r.commit.None? && r.remoteUrl.None?
    case Trigger(_) => r.trigger.None?
    case Build(_) => r.buildId.None?
    case Images(_) => r.images.None?
    case Paused(_) => true
    case InitialOutputs(_) => r.initialOutputs.None?
    case RuntimeReceipt(_) => r.runtimeReceipt.None?
    case FinalOutputs(_) => r.finalOutputs.None?
    case Delivery(_) => r.catalogDelivery.None?
    case Publication(_) => r.publication.None?
  }

  function Reopened(r: Receipt): Receipt {
    r.(status := InProgress, attempts := r.attempts + 1)
  }

  /** A new attempt has done and found nothing yet. */
  function Opened(s: State, receipt: Receipt, entry: Entry, build: Option<string>): State {
    State(s.durable, receipt, entry, false, build, None, {}, NO_FINDINGS, s.ever)
  }

  function Apply(plan: string, s: State, a: Action): State
    requires Enabled(plan, s, a)
  {
    match a
    case OpenNew(build) => Opened(s, NewReceipt(plan), Applying, build)
    case OpenResume(build) => Opened(s, Reopened(s.durable.value.body), Applying, build)
    case OpenCatalog => Opened(s, Reopened(s.durable.value.body), Cataloguing, None)
    case Begin(e) => s.(pending := Some(e))
    case Finish(e, found) =>
      s.(pending := None, done := s.done + {e}, seen := Noted(s.seen, found), ever := s.ever + {e})
    case Append(p) => s.(receipt := s.receipt.(phases := s.receipt.phases + [p]))
    case Record(p, u) => s.(receipt := Updated(s.receipt, u))
    case Repause(jobs) => s.(receipt := s.receipt.(paused := Some(jobs)))
    case Mark(status) => s.(receipt := s.receipt.(status := status))
    case Write => s.(durable := Some(Stored(s.receipt, s.receipt)), written := true)
    case Return => s.(entry := Idle)
    case Fail(status) =>
      var last := s.receipt.(status := status);
      s.(durable := Some(Stored(last, last)), entry := Idle)
    case Die => s.(entry := Idle)
  }

  const START := State(None, NewReceipt(""), Idle, false, None, None, {}, NO_FINDINGS, {})

  predicate Runs(plan: string, run: seq<Action>)
    decreases |run|, 0
  {
    run == [] ||
    (Runs(plan, run[..|run| - 1]) && Enabled(plan, After(plan, run[..|run| - 1]), run[|run| - 1]))
  }

  /** The state a run leads to. */
  function After(plan: string, run: seq<Action>): State
    requires Runs(plan, run)
    decreases |run|, 1
  {
    if run == [] then START
    else Apply(plan, After(plan, run[..|run| - 1]), run[|run| - 1])
  }
}
