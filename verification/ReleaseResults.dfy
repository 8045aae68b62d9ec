/**
 What stands in a release receipt, in terms of what the effects of the run found, and where its
 phases stand in the declared plan (tools/deploy_release.py).
 */
module ReleaseResults {
  import opened Common
  import opened ReleaseProtocol
  import opened ReleaseSafety

  /** Every effect stands in its phase of the plan. */
  lemma EffectsByName(e: Effect)
    ensures |PHASES| == PHASE_COUNT && PhaseOf(e) < PHASE_COUNT
    ensures PHASES[PhaseOf(e)] == match e
      case VerifySource => "verify_clean_published_commit"
      case InitState => "initialize_remote_terraform_state"
      case BootstrapServices => "enable_build_services_and_create_repository"
      case ProvisionTrigger => "create_managed_cloud_build_trigger_identity_and_exact_iam"
      case DescribeTrigger => "create_managed_cloud_build_trigger_identity_and_exact_iam"
      case ResolveImages => "resolve_all_images_to_immutable_digests"
      case VerifySupplyChain => "verify_cloud_build_provenance_and_attestor"
      case EnforceAttestations => "enforce_cloud_build_attestations_with_binary_authorization"
      case QuiesceSchedulers => "pause_automated_work_before_any_image_rolls"
      case ApplyPlatform => "apply_platform_with_schedulers_paused"
      case ReadInitialOutputs => "apply_platform_with_schedulers_paused"
      case DeployAgents => "deploy_six_agent_runtime_resources"
      case ReadRuntimeReceipt => "deploy_six_agent_runtime_resources"
      case ConfigureGateways => "apply_agent_identity_gateway_policies"
      case BindRuntime => "bind_runtime_resources_revisions_and_principals"
      case ReadFinalOutputs => "bind_runtime_resources_revisions_and_principals"
      case MigrateDatabase => "execute_private_database_migration"
      case StartCatalogDelivery => "evaluate_catalog_with_cloud_deploy"
      case PollPublication => "publish_governed_tool_catalog"
      case RunSeedJob => "execute_approved_calibration_seed_if_configured"
    ensures PHASES[ACCEPT_BUILD] == "accept_managed_cloud_build"
    ensures PHASES[REQUEST_APPROVAL] == "request_human_catalog_publication_approval"
    ensures PHASES[EMIT_RECEIPT] == "emit_deployed_unverified_receipt"
  {
  }

  /** What runs again in every attempt: verification, and what only observes. */
  lemma EveryTime(e: Effect)
    ensures !Once(e) <==> e in {
      VerifySource, InitState, DescribeTrigger, VerifySupplyChain, QuiesceSchedulers,
      ReadInitialOutputs, ReadRuntimeReceipt, ReadFinalOutputs, PollPublication}
    ensures (exists p: nat :: WorkOf(p) == Some(e)) <==>
      e !in {DescribeTrigger, ReadInitialOutputs, ReadRuntimeReceipt, ReadFinalOutputs}
  {
    if e !in {DescribeTrigger, ReadInitialOutputs, ReadRuntimeReceipt, ReadFinalOutputs} {
      assert WorkOf(PhaseOf(e)) == Some(e);
    }
  }

  function Upto(n: nat): seq<nat> { seq(n, k => k) }

  /** Who may continue from a file: one at the gate of the build or behind a failure, with fewer
      than sixteen phases, all from the front of the plan, its digest intact and its plan the same. */
  lemma ResumeIsExact(plan: string, file: Stored)
    ensures AcceptsResume(plan, file) <==>
      && file.sha256 == file.body && file.body.plan == plan
      && !file.body.status.InProgress? && !file.body.status.Deployed? && !file.body.status.AwaitingCatalogApproval?
      && |file.body.phases| <= 15 && file.body.phases == Upto(|file.body.phases|)
    ensures AcceptsCatalogResume(plan, file) <==>
      && file.sha256 == file.body && file.body.plan == plan
      && !file.body.status.InProgress? && !file.body.status.Deployed? && !file.body.status.AwaitingManagedBuild?
      && 16 <= |file.body.phases| <= 19 && file.body.phases == Upto(|file.body.phases|)
  {
    var phases := file.body.phases;
    assert phases == Upto(|phases|) <==> forall k :: 0 <= k < |phases| ==> phases[k] == k;
    if ExactPrefix(phases) {
      Members(phases);
    }
  }

  /** Some effect among these has found it. */
  ghost predicate FoundBy(run: seq<Action>, effects: set<Effect>, found: Finding) {
    exists i :: 0 <= i < |run| && run[i].Finish? && run[i].effect in effects && run[i].found == found
  }

  /** An attempt was given this build. */
  ghost predicate Given(run: seq<Action>, id: string) {
    exists i :: 0 <= i < |run| && (run[i] == OpenNew(Some(id)) || run[i] == OpenResume(Some(id)))
  }

  /** Every field of the receipt is what an effect of the run has found, or a build it was given. */
  ghost predicate Sourced(r: Receipt, run: seq<Action>) {
    && (r.commit.Some? <==> r.remoteUrl.Some?)
    && (r.commit.Some? && r.remoteUrl.Some? ==>
          FoundBy(run, {VerifySource}, SourceAt(r.commit.value, r.remoteUrl.value)))
    && (r.trigger.Some? ==> FoundBy(run, {ProvisionTrigger, DescribeTrigger}, TriggerIs(r.trigger.value)))
    && (r.buildId.Some? ==> Given(run, r.buildId.value))
    && (r.images.Some? ==> FoundBy(run, {ResolveImages}, ImagesAre(r.images.value)))
    && (r.paused.Some? ==> FoundBy(run, {QuiesceSchedulers}, JobsAre(r.paused.value)))
    && (r.initialOutputs.Some? ==>
          FoundBy(run, {ApplyPlatform, ReadInitialOutputs}, InitialOutputsAre(r.initialOutputs.value)))
    && (r.runtimeReceipt.Some? ==>
          FoundBy(run, {DeployAgents, ReadRuntimeReceipt}, RuntimeReceiptIs(r.runtimeReceipt.value)))
    && (r.finalOutputs.Some? ==> FoundBy(run, {BindRuntime, ReadFinalOutputs}, FinalOutputsAre(r.finalOutputs.value)))
    && (r.catalogDelivery.Some? ==> FoundBy(run, {StartCatalogDelivery}, DeliveryIs(r.catalogDelivery.value)))
    && (r.publication.Some? ==> FoundBy(run, {PollPublication}, Polled(r.publication)))
  }

  /** The same of what an attempt has seen. */
  ghost predicate SeenSourced(seen: Findings, run: seq<Action>) {
    && (seen.commit.Some? <==> seen.remoteUrl.Some?)
    && (seen.commit.Some? && seen.remoteUrl.Some? ==>
          FoundBy(run, {VerifySource}, SourceAt(seen.commit.value, seen.remoteUrl.value)))
    && (seen.trigger.Some? ==> FoundBy(run, {ProvisionTrigger, DescribeTrigger}, TriggerIs(seen.trigger.value)))
    && (seen.images.Some? ==> FoundBy(run, {ResolveImages}, ImagesAre(seen.images.value)))
    && (seen.jobs.Some? ==> FoundBy(run, {QuiesceSchedulers}, JobsAre(seen.jobs.value)))
    && (seen.initialOutputs.Some? ==>
          FoundBy(run, {ApplyPlatform, ReadInitialOutputs}, InitialOutputsAre(seen.initialOutputs.value)))
    && (seen.runtimeReceipt.Some? ==>
          FoundBy(run, {DeployAgents, ReadRuntimeReceipt}, RuntimeReceiptIs(seen.runtimeReceipt.value)))
    && (seen.finalOutputs.Some? ==>
          FoundBy(run, {BindRuntime, ReadFinalOutputs}, FinalOutputsAre(seen.finalOutputs.value)))
    && (seen.delivery.Some? ==> FoundBy(run, {StartCatalogDelivery}, DeliveryIs(seen.delivery.value)))
    && (seen.publication.Some? ==> FoundBy(run, {PollPublication}, Polled(seen.publication)))
  }

  ghost predicate Traced(s: State, run: seq<Action>) {
    && SeenSourced(s.seen, run) && Sourced(s.receipt, run) && (s.build.Some? ==> Given(run, s.build.value))
    && (s.durable.Some? ==> Sourced(s.durable.value.body, run))
  }

  lemma FoundStays(before: seq<Action>, a: Action, effects: set<Effect>, found: Finding)
    ensures FoundBy(before, effects, found) ==> FoundBy(before + [a], effects, found)
    ensures a.Finish? && a.effect in effects && a.found == found ==> FoundBy(before + [a], effects, found)
  {
    var run := before + [a];
    assert run[|before|] == a;
    if FoundBy(before, effects, found) {
      var i :| 0 <= i < |before| && before[i].Finish? && before[i].effect in effects && before[i].found == found;
      assert run[i] == before[i];
    }
  }

  lemma GivenStays(before: seq<Action>, a: Action, id: string)
    ensures Given(before, id) ==> Given(before + [a], id)
    ensures a == OpenNew(Some(id)) || a == OpenResume(Some(id)) ==> Given(before + [a], id)
  {
    var run := before + [a];
    assert run[|before|] == a;
    if Given(before, id) {
      var i :| 0 <= i < |before| && (before[i] == OpenNew(Some(id)) || before[i] == OpenResume(Some(id)));
      assert run[i] == before[i];
    }
  }

  lemma SourcedStays(r: Receipt, before: seq<Action>, a: Action)
    requires Sourced(r, before)
    ensures Sourced(r, before + [a])
  {
    hide FoundBy, Given;
    forall effects, found ensures FoundBy(before, effects, found) ==> FoundBy(before + [a], effects, found) {
      FoundStays(before, a, effects, found);
    }
    if r.buildId.Some? {
      GivenStays(before, a, r.buildId.value);
    }
  }

  lemma SeenStays(seen: Findings, before: seq<Action>, a: Action)
    requires SeenSourced(seen, before)
    ensures SeenSourced(seen, before + [a])
  {
    hide FoundBy;
    forall effects, found ensures FoundBy(before, effects, found) ==> FoundBy(before + [a], effects, found) {
      FoundStays(before, a, effects, found);
    }
  }

  /** What an effect finds is the effect's to find. */
  lemma NotedSourced(seen: Findings, before: seq<Action>, e: Effect, found: Finding)
    requires SeenSourced(seen, before) && Finds(e, found)
    ensures SeenSourced(Noted(seen, found), before + [Finish(e, found)])
  {
    hide FoundBy;
    SeenStays(seen, before, Finish(e, found));
    forall effects | e in effects ensures FoundBy(before + [Finish(e, found)], effects, found) {
      FoundStays(before, Finish(e, found), effects, found);
    }
  }

  lemma UpdatedSourced(r: Receipt, u: Update, seen: Findings, build: Option<string>, run: seq<Action>)
    requires Sourced(r, run) && SeenSourced(seen, run) && AsFound(u, seen, build)
    requires build.Some? ==> Given(run, build.value)
    ensures Sourced(Updated(r, u), run)
  {
    hide FoundBy, Given;
  }

  lemma SameFields(a: Receipt, b: Receipt, run: seq<Action>)
    requires Sourced(a, run) && b == a.(status := b.status, attempts := b.attempts, phases := b.phases, plan := b.plan)
    ensures Sourced(b, run)
  {
    hide FoundBy, Given;
  }

  lemma StepTraced(plan: string, s: State, a: Action, before: seq<Action>)
    requires Enabled(plan, s, a) && Traced(s, before)
    ensures Traced(Apply(plan, s, a), before + [a])
  {
    hide FoundBy, Given, Sourced, SeenSourced, CurrentAt, Earned, Due, AcceptsResume, AcceptsCatalogResume,
         Noted, Updated, Belongs, Unrecorded, AsFound, Finds, MayMark;
    var t, run := Apply(plan, s, a), before + [a];
    SourcedStays(s.receipt, before, a);
    SeenStays(s.seen, before, a);
    if s.durable.Some? {
      SourcedStays(s.durable.value.body, before, a);
    }
    if s.build.Some? {
      GivenStays(before, a, s.build.value);
    }
    match a
    case OpenNew(build) => OpenTraced(plan, s, a, before);
    case OpenResume(build) => OpenTraced(plan, s, a, before);
    case OpenCatalog => OpenTraced(plan, s, a, before);
    case Finish(e, found) => NotedSourced(s.seen, before, e, found);
    case Append(p) => SameFields(s.receipt, t.receipt, run);
    case Mark(status) => SameFields(s.receipt, t.receipt, run);
    case Fail(status) => SameFields(s.receipt, t.durable.value.body, run);
    case Record(p, u) => UpdatedSourced(s.receipt, u, s.seen, s.build, run);
    case Repause(jobs) => RepauseTraced(s, run, jobs);
    case _ =>
  }

  lemma RepauseTraced(s: State, run: seq<Action>, jobs: seq<string>)
    requires Sourced(s.receipt, run) && SeenSourced(s.seen, run) && s.seen.jobs == Some(jobs)
    ensures Sourced(s.receipt.(paused := Some(jobs)), run)
  {
    hide FoundBy, Given;
  }

  lemma OpenTraced(plan: string, s: State, a: Action, before: seq<Action>)
    requires Enabled(plan, s, a) && Opens(a) && (s.durable.Some? ==> Sourced(s.durable.value.body, before + [a]))
    ensures Traced(Apply(plan, s, a), before + [a])
  {
    hide FoundBy, Given, AcceptsResume, AcceptsCatalogResume;
    match a
    case OpenNew(build) =>
      if build.Some? { GivenStays(before, a, build.value); }
    case OpenResume(build) =>
      if build.Some? { GivenStays(before, a, build.value); }
      SameFields(s.durable.value.body, Reopened(s.durable.value.body), before + [a]);
    case OpenCatalog =>
      SameFields(s.durable.value.body, Reopened(s.durable.value.body), before + [a]);
  }

  lemma {:induction false} RunTraced(plan: string, run: seq<Action>)
    requires Runs(plan, run)
    ensures Traced(After(plan, run), run)
    decreases |run|
  {
    hide Enabled, Apply, Traced;
    if run == [] {
      StartTraced();
    } else {
      var before, last := run[..|run| - 1], run[|run| - 1];
      RunTraced(plan, before);
      StepTraced(plan, After(plan, before), last, before);
      assert before + [last] == run;
    }
  }

  lemma StartTraced()
    ensures Traced(START, [])
  {
  }

  /** Over every run each field of a durable receipt is what the effect of its phase found, or the
      build an attempt was given. */
  lemma FieldsWereFound(plan: string, run: seq<Action>)
    requires Runs(plan, run) && After(plan, run).durable.Some?
    ensures Sourced(After(plan, run).durable.value.body, run)
  {
    hide Sourced, SeenSourced;
    RunTraced(plan, run);
  }

  /** All that the phases up to the approval request observe is recorded. */
  predicate Whole(r: Receipt) {
    && r.commit.Some? && r.remoteUrl.Some? && r.trigger.Some? && r.buildId.Some? && r.images.Some?
    && r.initialOutputs.Some? && r.runtimeReceipt.Some? && r.finalOutputs.Some? && r.catalogDelivery.Some?
  }

  /** What a receipt holds at and behind its two gates. */
  predicate GateFits(r: Receipt) {
    && (|r.phases| > REQUEST_APPROVAL ==> Whole(r))
    && (r.status.AwaitingManagedBuild? ==> r.commit.Some? && r.remoteUrl.Some? && r.trigger.Some?)
  }

  predicate GatesFit(s: State) {
    && (s.durable.Some? ==> GateFits(s.durable.value.body))
    && (!s.entry.Idle? ==> GateFits(s.receipt))
  }

  lemma StepGates(plan: string, s: State, a: Action)
    requires Inv(plan, s) && Enabled(plan, s, a) && GatesFit(s)
    ensures GatesFit(Apply(plan, s, a))
  {
    hide Earned, Due, Noted, Finds, Belongs, AsFound, Inv, CurrentAt, AcceptsResume, AcceptsCatalogResume,
         Updated, Unrecorded, GateFits, MayMark;
    match a
    case Append(p) => AppendGates(plan, s, p);
    case Mark(status) => MarkGates(plan, s, status);
    case Record(p, u) => RecordGates(s.receipt, u);
    case Repause(jobs) => FieldsKeepGates(s.receipt, Apply(plan, s, a).receipt);
    case Fail(status) => FieldsKeepGates(s.receipt, Apply(plan, s, a).durable.value.body);
    case OpenNew(build) => NewGates(plan);
    case OpenResume(build) => FieldsKeepGates(s.durable.value.body, Apply(plan, s, a).receipt);
    case OpenCatalog => FieldsKeepGates(s.durable.value.body, Apply(plan, s, a).receipt);
    case _ =>
  }

  lemma NewGates(plan: string)
    ensures GateFits(NewReceipt(plan))
  {
  }

  lemma FieldsKeepGates(a: Receipt, b: Receipt)
    requires GateFits(a) && b == a.(status := b.status, attempts := b.attempts, paused := b.paused)
    requires !b.status.AwaitingManagedBuild? || b.status == a.status
    ensures GateFits(b)
  {
  }

  lemma RecordGates(r: Receipt, u: Update)
    requires GateFits(r)
    ensures GateFits(Updated(r, u))
  {
  }

  lemma AppendGates(plan: string, s: State, p: nat)
    requires Inv(plan, s) && Enabled(plan, s, Append(p)) && GatesFit(s)
    ensures GatesFit(Apply(plan, s, Append(p)))
  {
    hide Earned, Worked, Extends, FieldsFit, WorkOf, ExactPrefix;
  }

  lemma MarkGates(plan: string, s: State, status: Status)
    requires Inv(plan, s) && Enabled(plan, s, Mark(status)) && GatesFit(s)
    ensures GatesFit(Apply(plan, s, Mark(status)))
  {
    hide Worked, Extends, FieldsFit, WorkOf, ExactPrefix;
  }

  lemma {:induction false} RunGates(plan: string, run: seq<Action>)
    requires Runs(plan, run)
    ensures GatesFit(After(plan, run))
    decreases |run|
  {
    hide Enabled, Apply, GatesFit, Inv;
    if run == [] {
      StartGates();
    } else {
      var before := run[..|run| - 1];
      RunInv(plan, before);
      RunGates(plan, before);
      StepGates(plan, After(plan, before), run[|run| - 1]);
    }
  }

  lemma StartGates()
    ensures GatesFit(START)
  {
  }

  /** Over every run the receipt that awaits the catalog approval, and every later one, holds the
      source, trigger, build, images, outputs, runtime receipt and catalog delivery that the run
      found; the one that awaits the managed build holds source and trigger. */
  lemma GatesAreComplete(plan: string, run: seq<Action>)
    requires Runs(plan, run) && After(plan, run).durable.Some?
    ensures var r := After(plan, run).durable.value.body;
      && (r.status.AwaitingCatalogApproval? || |r.phases| >= 16 ==> Whole(r))
      && (r.status.AwaitingManagedBuild? ==> r.commit.Some? && r.remoteUrl.Some? && r.trigger.Some?)
      && Sourced(r, run)
      && (r.catalogDelivery.Some? ==>
            exists i :: 0 <= i < |run| && run[i] == Finish(StartCatalogDelivery, DeliveryIs(r.catalogDelivery.value)))
  {
    hide Sourced, Whole;
    RunGates(plan, run);
    EveryDurableReceipt(plan, run);
    FieldsWereFound(plan, run);
    DeliveryFound(After(plan, run).durable.value.body, run);
  }

  lemma DeliveryFound(r: Receipt, run: seq<Action>)
    requires Sourced(r, run)
    ensures r.catalogDelivery.Some? ==>
      exists i :: 0 <= i < |run| && run[i] == Finish(StartCatalogDelivery, DeliveryIs(r.catalogDelivery.value))
  {
    if r.catalogDelivery.Some? {
      assert FoundBy(run, {StartCatalogDelivery}, DeliveryIs(r.catalogDelivery.value));
    }
  }

  /** How many attempts of a run have written their first receipt. */
  function Attempts(plan: string, run: seq<Action>): nat
    requires Runs(plan, run)
  {
    if run == [] then 0
    else
      var before := run[..|run| - 1];
      Attempts(plan, before) + if run[|run| - 1].Write? && !After(plan, before).written then 1 else 0
  }

  predicate Counted(s: State, n: nat) {
    && (s.durable.None? <==> n == 0) && (s.durable.Some? ==> s.durable.value.body.attempts == n)
    && (!s.entry.Idle? ==> s.receipt.attempts == if s.written then n else n + 1)
  }

  lemma UpdatedKeepsAttempts(r: Receipt, u: Update)
    ensures Updated(r, u).attempts == r.attempts
  {
  }

  lemma CountedStep(plan: string, s: State, a: Action, n: nat)
    requires Inv(plan, s) && Enabled(plan, s, a) && Counted(s, n)
    ensures Counted(Apply(plan, s, a), n + if a.Write? && !s.written then 1 else 0)
  {
    hide CurrentAt, Earned, Due, AcceptsResume, AcceptsCatalogResume, Noted, Finds, Updated, Belongs, Unrecorded;
    if a.Record? {
      UpdatedKeepsAttempts(s.receipt, a.u);
    }
  }

  /** Over every run the durable receipt counts the attempts that wrote one. */
  lemma {:induction false} AttemptsAreCounted(plan: string, run: seq<Action>)
    requires Runs(plan, run)
    ensures Counted(After(plan, run), Attempts(plan, run))
    decreases |run|
  {
    hide Enabled, Apply, Counted, Inv;
    if run == [] {
      assert Counted(START, 0) by { NoneCounted(); }
    } else {
      var before := run[..|run| - 1];
      RunInv(plan, before);
      AttemptsAreCounted(plan, before);
      CountedStep(plan, After(plan, before), run[|run| - 1], Attempts(plan, before));
    }
  }

  lemma NoneCounted()
    ensures Counted(START, 0)
  {
  }
}
