/**
 `apply_release` and `resume_after_catalog_approval` of tools/deploy_release.py as they
 execute. Observations and failures are nondeterministic, so one call stands for all of its
 executions. `Valid` says that what has happened so far is a run of `ReleaseProtocol`.
 */
module ReleaseRunner {
  import opened Common
  import opened ReleaseProtocol
  import opened ReleaseResults
  import opened ReleaseSafety

  /** Whether a statement raised. */
  datatype Outcome = Done | Raised {
    predicate IsFailure() { Raised? }
    function PropagateFailure(): Outcome requires Raised? { Raised }
  }

  /** How an attempt ends; `Killed` includes an error that escapes the handlers. */
  datatype Exit = Refused | Returned | Failure | Interruption | Killed

  class Runner {
    const plan: string
    /** Whether nothing fails: no call raises, no attempt is stopped, every check finds what the
        receipt records, and the publication is approved in time. */
    const reliable: bool
    var durable: Option<Stored>
    var receipt: Receipt
    var completed: set<nat>
    ghost var entry: Entry
    ghost var written: bool
    ghost var build: Option<string>
    ghost var pending: Option<Effect>
    ghost var done: set<Effect>
    ghost var seen: Findings
    ghost var ever: set<Effect>
    ghost var run: seq<Action>

    ghost function View(): State
      reads `durable, `receipt, `entry, `written, `build, `pending, `done, `seen, `ever
    {
      State(durable, receipt, entry, written, build, pending, done, seen, ever)
    }

    ghost predicate Valid()
      reads `durable, `receipt, `entry, `written, `build, `pending, `done, `seen, `ever, `run
    {
      Runs(plan, run) && View() == After(plan, run)
    }

    /** Inside a `try`, where an exception reaches the handlers. */
    ghost predicate Catchable()
      reads `durable, `receipt, `entry, `written, `build, `pending, `done, `seen, `ever, `run
    {
      Valid() && !entry.Idle? && written
    }

    /** Between two statements of a `try`. */
    ghost predicate Working()
      reads `durable, `receipt, `entry, `written, `build, `pending, `done, `seen, `ever, `run
    {
      Catchable() && pending.None? && receipt.status.InProgress?
    }

    /** Between two phases of a `try`: all that was recorded is durable. */
    ghost predicate Ready()
      reads `durable, `receipt, `entry, `written, `build, `pending, `done, `seen, `ever, `run
    {
      Working() && Saved(View())
    }

    /** The local set agrees with the receipt. */
    ghost predicate Tracks() reads this {
      forall p: nat :: p in completed <==> p < |receipt.phases|
    }

    constructor (plan: string, reliable: bool)
      ensures Valid() && entry.Idle? && durable.None? && this.plan == plan && this.reliable == reliable && run == []
    {
      this.plan, this.reliable := plan, reliable;
      durable, receipt, completed := None, NewReceipt(""), {};
      entry, written, build, pending, done, seen, ever, run := Idle, false, None, None, {}, NO_FINDINGS, {}, [];
    }

    ghost method Log(a: Action, before: State)
      requires Runs(plan, run) && before == After(plan, run)
      requires Enabled(plan, before, a) && View() == Apply(plan, before, a)
      modifies `run
      ensures Valid() && run == old(run) + [a]
    {
      hide Enabled, Apply;
      run := run + [a];
      assert run[..|run| - 1] == old(run);
    }

    method MayRaise() returns (r: Outcome)
      ensures reliable ==> r.Done?
    {
      var raised: bool := *;
      r := if raised && !reliable then Raised else Done;
    }

    /** What a check finds of something that may be recorded. */
    method Observe<T(0)>(recorded: Option<T>) returns (found: T)
      ensures reliable && recorded.Some? ==> found == recorded.value
    {
      found := *;
      if reliable && recorded.Some? {
        found := recorded.value;
      }
    }

    /** An external effect, which may raise before, during or after taking hold. */
    method Perform(e: Effect, found: Finding) returns (r: Outcome)
      requires Ready() && CurrentAt(View(), PhaseOf(e)) && Due(View(), e) && Finds(e, found)
      modifies `pending, `done, `seen, `ever, `run
      ensures Catchable()
      ensures r.Done? ==> Ready() && done == old(done) + {e} && seen == Noted(old(seen), found)
      ensures reliable ==> r.Done?
      ensures r.Done? ==> CurrentAt(View(), PhaseOf(e))
    {
      hide Runs, After, Finds, Noted, CurrentAt, PhaseOf;
      ghost var first := View();
      pending := Some(e);
      Log(Begin(e), first);
      r := MayRaise();
      if r.Done? {
        FinishEffect(e, found);
        NotedKeepsCurrent(first, View(), e, found);
      }
    }

    method FinishEffect(e: Effect, found: Finding)
      requires Catchable() && pending == Some(e) && Finds(e, found)
      modifies `pending, `done, `seen, `ever, `run
      ensures Catchable() && pending.None? && done == old(done) + {e} && seen == Noted(old(seen), found)
    {
      hide Runs, After, Finds, Noted, CurrentAt, PhaseOf;
      ghost var before := View();
      pending, done, seen, ever := None, done + {e}, Noted(seen, found), ever + {e};
      Log(Finish(e, found), before);
    }

    /** `_write_release_receipt`: atomic, or raising without effect. */
    method WriteReceipt() returns (r: Outcome)
      requires Catchable() && pending.None?
      modifies `durable, `run
      ensures Catchable()
      ensures reliable ==> r.Done?
      ensures r.Done? ==> durable == Some(Stored(receipt, receipt))
    {
      hide Runs, After;
      r := MayRaise();
      if r.Done? {
        ghost var before := View();
        durable := Some(Stored(receipt, receipt));
        Log(Write, before);
      }
    }

    method AppendPhase(p: nat)
      requires Working() && p == |receipt.phases| < PHASE_COUNT && CurrentAt(View(), p) && Earned(View(), p)
      requires if p <= REQUEST_APPROVAL then entry.Applying? else entry.Cataloguing?
      modifies `receipt, `run
      ensures Working() && receipt == old(receipt).(phases := old(receipt.phases) + [p])
    {
      hide Runs, After, CurrentAt, Earned;
      ghost var before := View();
      receipt := receipt.(phases := receipt.phases + [p]);
      Log(Append(p), before);
    }

    method RecordUpdate(p: nat, u: Update)
      requires Working() && Belongs(u, p) && p + 1 == |receipt.phases|
      requires Unrecorded(receipt, u) && AsFound(u, seen, build)
      modifies `receipt, `run
      ensures Working() && receipt == Updated(old(receipt), u)
    {
      hide Runs, After, Belongs, Unrecorded, AsFound;
      ghost var before := View();
      receipt := Updated(receipt, u);
      Log(Record(p, u), before);
    }

    /** `_complete_release_phase`. */
    method CompletePhase(p: nat, u: Update) returns (r: Outcome)
      requires Ready() && p == |receipt.phases| < PHASE_COUNT && CurrentAt(View(), p) && Earned(View(), p)
      requires Belongs(u, p) && AsFound(u, seen, build)
      requires if p <= REQUEST_APPROVAL then entry.Applying? else entry.Cataloguing?
      modifies `receipt, `durable, `run
      ensures Catchable() && pending.None?
      ensures reliable ==> r.Done?
      ensures r.Done? ==> Ready() && CurrentAt(View(), p)
      ensures r.Done? ==> receipt == Updated(old(receipt).(phases := old(receipt.phases) + [p]), u)
      ensures r.Done? ==> durable == Some(Stored(receipt, receipt))
    {
      hide Runs, After, CurrentAt, Earned, Belongs, AsFound, Unrecorded, Updated;
      ghost var before := View();
      RunInv(plan, run);
      Members(receipt.phases);
      if p > 0 && p - 1 !in receipt.phases {
        return Raised;
      }
      if p !in receipt.phases {
        AppendPhase(p);
      }
      :- MayRaise();
      NextIsUnrecorded(before, p, u);
      RecordUpdate(p, u);
      :- WriteReceipt();
      CompletedKeepsCurrent(before, View(), p, u);
      return Done;
    }

    /** An attempt of `apply_release` with the first n phases complete, which has itself verified
        and compared all that working on phase n needs. */
    ghost predicate At(n: nat) reads this {
      Ready() && entry.Applying? && Tracks() && n <= |receipt.phases| && CurrentAt(View(), n)
    }

    /** The same, just behind phase p. */
    ghost predicate Behind(p: nat) reads this {
      At(p) && p < |receipt.phases|
    }

    /** A phase that is due, and whose work this attempt has finished. */
    method Complete(p: nat, u: Update) returns (r: Outcome)
      requires At(p) && p <= REQUEST_APPROVAL && p !in completed && Earned(View(), p)
      requires Belongs(u, p) && AsFound(u, seen, build)
      modifies `receipt, `durable, `completed, `run
      ensures Catchable()
      ensures reliable ==> r.Done?
      ensures r.Done? ==> Behind(p) && receipt == Updated(old(receipt).(phases := old(receipt.phases) + [p]), u)
    {
      hide Runs, After, Earned, Belongs, AsFound, CurrentAt, Saved;
      r := CompletePhase(p, u);
      if r.Raised? {
        return;
      }
      completed := completed + {p};
      return Done;
    }

    /** A due phase whose work runs once: work, then checkpoint. */
    method Work(p: nat, e: Effect, found: Finding, u: Update) returns (r: Outcome)
      requires At(p) && p <= REQUEST_APPROVAL && p !in completed && Once(e) && PhaseOf(e) == p
      requires Finds(e, found) && Belongs(u, p) && AsFound(u, Noted(seen, found), build)
      modifies `receipt, `durable, `completed, `pending, `done, `seen, `ever, `run
      ensures Catchable()
      ensures reliable ==> r.Done?
      ensures r.Done? ==> Behind(p) && seen == Noted(old(seen), found)
      ensures r.Done? ==> receipt == Updated(old(receipt).(phases := old(receipt.phases) + [p]), u)
    {
      hide Runs, After, Belongs, AsFound, CurrentAt, Saved, Noted, Finds, Updated;
      r := Perform(e, found);
      if r.Raised? {
        return;
      }
      WorkIsEarned(View(), e);
      :- Complete(p, u);
      return Done;
    }

    /** The block of such a phase when it has nothing to compare: nothing at all once it is complete. */
    method Advance(p: nat, e: Effect) returns (r: Outcome)
      requires At(p) && p <= REQUEST_APPROVAL && Once(e) && PhaseOf(e) == p && Finds(e, Nothing)
      modifies `receipt, `durable, `completed, `pending, `done, `seen, `ever, `run
      ensures Catchable()
      ensures reliable ==> r.Done?
      ensures r.Done? ==> Behind(p) && seen == old(seen)
      ensures r.Done? ==>
        receipt == if |old(receipt).phases| == p then old(receipt).(phases := old(receipt.phases) + [p])
                   else old(receipt)
    {
      hide Runs, After, CurrentAt, Saved, Finds, PhaseOf;
      if p !in completed {
        :- Work(p, e, Nothing, NoUpdate);
      }
      return Done;
    }

    /** The checkpoint of a phase whose work this attempt has finished in any case. */
    method Checkpoint(p: nat, u: Update) returns (r: Outcome)
      requires At(p) && p <= REQUEST_APPROVAL && Earned(View(), p) && Belongs(u, p) && AsFound(u, seen, build)
      modifies `receipt, `durable, `completed, `run
      ensures Catchable()
      ensures reliable ==> r.Done?
      ensures r.Done? ==> Behind(p)
      ensures r.Done? ==>
        receipt == if |old(receipt).phases| == p then Updated(old(receipt).(phases := old(receipt.phases) + [p]), u)
                   else old(receipt)
    {
      hide Runs, After, Earned, Belongs, AsFound, CurrentAt, Saved;
      if p !in completed {
        :- Complete(p, u);
      }
      return Done;
    }

    /** Source verification, remote state and the generated variables. */
    method VerifySourceAndState() returns (r: Outcome)
      requires At(VERIFY_SOURCE)
      modifies `receipt, `durable, `completed, `pending, `done, `seen, `ever, `run
      ensures Catchable()
      ensures reliable || r.Done? ==> Moved(old(receipt), VERIFY_SOURCE, r, receipt, ENABLE_SERVICES, build)
      ensures r.Done? ==> At(ENABLE_SERVICES) && SourceMatches(View())
    {
      hide Runs, After, Saved, CurrentAt;
      var commit := Observe(receipt.commit);
      var remoteUrl := Observe(receipt.remoteUrl);
      NothingToPass(View());
      r := Perform(Effect.VerifySource, SourceAt(commit, remoteUrl));
      if r.Raised? {
        return;
      }
      if VERIFY_SOURCE in completed {
        if receipt.commit != Some(commit) || receipt.remoteUrl != Some(remoteUrl) {
          return Raised;
        }
      } else {
        :- Complete(VERIFY_SOURCE, Source(commit, remoteUrl));
      }
      NextIsCurrent(View(), VERIFY_SOURCE);
      :- InitializeState();
      CurrentHasSource(View(), ENABLE_SERVICES);
      return Done;
    }

    method InitializeState() returns (r: Outcome)
      requires At(INITIALIZE_STATE)
      modifies `receipt, `durable, `completed, `pending, `done, `seen, `ever, `run
      ensures Catchable()
      ensures reliable || r.Done? ==> Moved(old(receipt), INITIALIZE_STATE, r, receipt, ENABLE_SERVICES, build)
      ensures r.Done? ==> At(ENABLE_SERVICES)
    {
      hide Runs, After, Saved, CurrentAt;
      r := Perform(InitState, Nothing);
      if r.Raised? {
        return;
      }
      :- Checkpoint(INITIALIZE_STATE, NoUpdate);
      NextIsCurrent(View(), INITIALIZE_STATE);
      :- MayRaise();
      return Done;
    }

    /** The managed build boundary. */
    method BuildBoundary() returns (r: Outcome)
      requires At(ENABLE_SERVICES)
      modifies `receipt, `durable, `completed, `pending, `done, `seen, `ever, `run
      ensures Catchable()
      ensures reliable || r.Done? ==> Moved(old(receipt), ENABLE_SERVICES, r, receipt, ACCEPT_BUILD, build)
      ensures r.Done? ==> At(ACCEPT_BUILD) && Matches(receipt.trigger, seen.trigger)
    {
      hide Runs, After, Saved, CurrentAt;
      r := Advance(ENABLE_SERVICES, BootstrapServices);
      if r.Raised? {
        return;
      }
      NextIsCurrent(View(), ENABLE_SERVICES);
      var trigger := Observe(receipt.trigger);
      if CREATE_TRIGGER in completed {
        :- Perform(DescribeTrigger, TriggerIs(trigger));
        if receipt.trigger != Some(trigger) {
          return Raised;
        }
      } else {
        :- Work(CREATE_TRIGGER, ProvisionTrigger, TriggerIs(trigger), Trigger(trigger));
      }
      NextIsCurrent(View(), CREATE_TRIGGER);
      return Done;
    }

    /** Accept the managed build, or stop at the gate that waits for one. */
    method AcceptBuild(managedBuildId: Option<string>) returns (r: Outcome, gated: bool)
      requires At(ACCEPT_BUILD) && build == managedBuildId
      modifies `receipt, `durable, `completed, `pending, `done, `seen, `ever, `run
      ensures Catchable()
      ensures (reliable || r.Done?) && !gated ==> Moved(old(receipt), ACCEPT_BUILD, r, receipt, RESOLVE_IMAGES, build)
      ensures reliable && (|old(receipt).phases| <= ACCEPT_BUILD) && managedBuildId.None? ==> r.Done?
      ensures gated <==> r.Done? && ACCEPT_BUILD !in old(completed) && managedBuildId.None?
      ensures r.Done? && !gated ==> At(RESOLVE_IMAGES) && receipt.buildId.Some?
      ensures r.Done? && !gated && managedBuildId.Some? ==> receipt.buildId == managedBuildId
      ensures r.Done? && gated ==> Finished(AwaitingManagedBuild)
    {
      hide Runs, After, Saved, CurrentAt;
      gated := false;
      if ACCEPT_BUILD in completed {
        if receipt.buildId.None? || (managedBuildId.Some? && managedBuildId != receipt.buildId) {
          return Raised, gated;
        }
      } else {
        if managedBuildId.None? {
          :- StopAt(AwaitingManagedBuild);
          return Done, true;
        }
        :- Complete(ACCEPT_BUILD, Build(managedBuildId.value));
      }
      NextIsCurrent(View(), ACCEPT_BUILD);
      return Done, gated;
    }

    /** Image digests, supply chain and admission policy. Every resume rechecks provenance,
        checkpointed or not, before the policy. */
    method ResolveAndEnforce() returns (r: Outcome)
      requires At(RESOLVE_IMAGES)
      modifies `receipt, `durable, `completed, `pending, `done, `seen, `ever, `run
      ensures Catchable()
      ensures reliable || r.Done? ==> Moved(old(receipt), RESOLVE_IMAGES, r, receipt, PAUSE_WORK, build)
      ensures r.Done? ==> At(PAUSE_WORK) && VerifySupplyChain in done && receipt.images.Some?
    {
      hide Runs, After, Saved, CurrentAt;
      var images: string := *;
      if RESOLVE_IMAGES in completed {
        if receipt.images.None? {
          return Raised;
        }
      } else {
        :- Work(RESOLVE_IMAGES, ResolveImages, ImagesAre(images), Images(images));
      }
      NextIsCurrent(View(), RESOLVE_IMAGES);
      :- VerifyProvenance();
      :- Advance(ENFORCE_ATTESTATIONS, EnforceAttestations);
      NextIsCurrent(View(), ENFORCE_ATTESTATIONS);
      return Done;
    }

    method VerifyProvenance() returns (r: Outcome)
      requires At(VERIFY_PROVENANCE)
      modifies `receipt, `durable, `completed, `pending, `done, `seen, `ever, `run
      ensures Catchable()
      ensures reliable || r.Done? ==> Moved(old(receipt), VERIFY_PROVENANCE, r, receipt, ENFORCE_ATTESTATIONS, build)
      ensures r.Done? ==> At(ENFORCE_ATTESTATIONS)
    {
      hide Runs, After, Saved, CurrentAt;
      r := Perform(VerifySupplyChain, Nothing);
      if r.Raised? {
        return;
      }
      :- Checkpoint(VERIFY_PROVENANCE, NoUpdate);
      NextIsCurrent(View(), VERIFY_PROVENANCE);
      return Done;
    }

    /** Quiesce, then the full platform apply. */
    method QuiesceAndApply() returns (r: Outcome)
      requires At(PAUSE_WORK)
      modifies `receipt, `durable, `completed, `pending, `done, `seen, `ever, `run
      ensures Catchable()
      ensures reliable || r.Done? ==> Moved(old(receipt), PAUSE_WORK, r, receipt, DEPLOY_AGENTS, build)
      ensures r.Done? ==> At(DEPLOY_AGENTS) && Matches(receipt.initialOutputs, seen.initialOutputs)
    {
      hide Runs, After, Saved, CurrentAt;
      var jobs: seq<string> := *;
      :- PauseWork(jobs);
      var first := Observe(receipt.initialOutputs);
      if APPLY_PLATFORM in completed {
        :- Perform(ReadInitialOutputs, InitialOutputsAre(first));
      } else {
        :- Work(APPLY_PLATFORM, ApplyPlatform, InitialOutputsAre(first), InitialOutputs(first));
      }
      if receipt.initialOutputs != Some(first) {
        return Raised;
      }
      NextIsCurrent(View(), APPLY_PLATFORM);
      return Done;
    }

    method PauseWork(jobs: seq<string>) returns (r: Outcome)
      requires At(PAUSE_WORK)
      modifies `receipt, `durable, `completed, `pending, `done, `seen, `ever, `run
      ensures Catchable()
      ensures reliable || r.Done? ==> Moved(old(receipt), PAUSE_WORK, r, receipt, APPLY_PLATFORM, build)
      ensures r.Done? ==> At(APPLY_PLATFORM) && seen.jobs == Some(jobs)
      ensures r.Done? && |old(receipt).phases| == PAUSE_WORK ==> receipt.paused == Some(jobs)
    {
      hide Runs, After, Saved, CurrentAt;
      r := Perform(QuiesceSchedulers, JobsAre(jobs));
      if r.Raised? {
        return;
      }
      :- Checkpoint(PAUSE_WORK, Paused(jobs));
      NextIsCurrent(View(), PAUSE_WORK);
      return Done;
    }

    /** Agent runtimes and their gateways. */
    method DeployRuntime() returns (r: Outcome)
      requires At(DEPLOY_AGENTS)
      modifies `receipt, `durable, `completed, `pending, `done, `seen, `ever, `run
      ensures Catchable()
      ensures reliable || r.Done? ==> Moved(old(receipt), DEPLOY_AGENTS, r, receipt, BIND_RUNTIME, build)
      ensures r.Done? ==> At(BIND_RUNTIME) && Matches(receipt.runtimeReceipt, seen.runtimeReceipt)
    {
      hide Runs, After, Saved, CurrentAt;
      r := DeployAgentRuntimes();
      if r.Raised? {
        return;
      }
      :- Advance(APPLY_GATEWAYS, ConfigureGateways);
      NextIsCurrent(View(), APPLY_GATEWAYS);
      CurrentHasRuntime(View(), BIND_RUNTIME);
      :- MayRaise();
      return Done;
    }

    /** The agents are deployed, or their receipt is read back; it has to be the recorded one. */
    method DeployAgentRuntimes() returns (r: Outcome)
      requires At(DEPLOY_AGENTS)
      modifies `receipt, `durable, `completed, `pending, `done, `seen, `ever, `run
      ensures Catchable()
      ensures reliable || r.Done? ==> Moved(old(receipt), DEPLOY_AGENTS, r, receipt, APPLY_GATEWAYS, build)
      ensures r.Done? ==> At(APPLY_GATEWAYS)
    {
      hide Runs, After, Saved, CurrentAt;
      var runtime := Observe(receipt.runtimeReceipt);
      if DEPLOY_AGENTS in completed {
        :- Perform(ReadRuntimeReceipt, RuntimeReceiptIs(runtime));
      } else {
        :- Work(DEPLOY_AGENTS, Effect.DeployAgents, RuntimeReceiptIs(runtime), RuntimeReceipt(runtime));
      }
      if receipt.runtimeReceipt != Some(runtime) {
        return Raised;
      }
      NextIsCurrent(View(), DEPLOY_AGENTS);
      return Done;
    }

    /** Final bindings and the database migration. */
    method BindAndMigrate() returns (r: Outcome)
      requires At(BIND_RUNTIME)
      modifies `receipt, `durable, `completed, `pending, `done, `seen, `ever, `run
      ensures Catchable()
      ensures reliable || r.Done? ==> Moved(old(receipt), BIND_RUNTIME, r, receipt, EVALUATE_CATALOG, build)
      ensures r.Done? ==> At(EVALUATE_CATALOG) && Matches(receipt.finalOutputs, seen.finalOutputs)
    {
      hide Runs, After, Saved, CurrentAt;
      r := BindRuntimeOutputs();
      if r.Raised? {
        return;
      }
      :- MayRaise();
      :- Advance(MIGRATE_DATABASE, Effect.MigrateDatabase);
      NextIsCurrent(View(), MIGRATE_DATABASE);
      CurrentHasRuntime(View(), EVALUATE_CATALOG);
      return Done;
    }

    /** The bindings are applied, or their outputs are read back; they have to be the recorded ones. */
    method BindRuntimeOutputs() returns (r: Outcome)
      requires At(BIND_RUNTIME)
      modifies `receipt, `durable, `completed, `pending, `done, `seen, `ever, `run
      ensures Catchable()
      ensures reliable || r.Done? ==> Moved(old(receipt), BIND_RUNTIME, r, receipt, MIGRATE_DATABASE, build)
      ensures r.Done? ==> At(MIGRATE_DATABASE)
    {
      hide Runs, After, Saved, CurrentAt;
      var final := Observe(receipt.finalOutputs);
      if BIND_RUNTIME in completed {
        :- Perform(ReadFinalOutputs, FinalOutputsAre(final));
      } else {
        :- Work(BIND_RUNTIME, Effect.BindRuntime, FinalOutputsAre(final), FinalOutputs(final));
      }
      if receipt.finalOutputs != Some(final) {
        return Raised;
      }
      NextIsCurrent(View(), BIND_RUNTIME);
      return Done;
    }

    /** Catalog evaluation and the human gate. */
    method EvaluateCatalog() returns (r: Outcome)
      requires At(EVALUATE_CATALOG)
      modifies `receipt, `durable, `completed, `pending, `done, `seen, `ever, `run
      ensures Catchable()
      ensures reliable || r.Done? ==> Moved(old(receipt), EVALUATE_CATALOG, r, receipt, PUBLISH_CATALOG, build)
      ensures r.Done? ==> Finished(AwaitingCatalogApproval) && |receipt.phases| == PUBLISH_CATALOG && Whole(receipt)
    {
      hide Runs, After, Saved, CurrentAt, Whole;
      r := StartEvaluation();
      if r.Raised? {
        return;
      }
      :- Checkpoint(REQUEST_APPROVAL, NoUpdate);
      RunInv(plan, run);
      NextIsCurrent(View(), REQUEST_APPROVAL);
      :- StopAt(AwaitingCatalogApproval);
      GatesAreComplete(plan, run);
      return Done;
    }

    method StartEvaluation() returns (r: Outcome)
      requires At(EVALUATE_CATALOG)
      modifies `receipt, `durable, `completed, `pending, `done, `seen, `ever, `run
      ensures Catchable()
      ensures reliable || r.Done? ==> Moved(old(receipt), EVALUATE_CATALOG, r, receipt, REQUEST_APPROVAL, build)
      ensures r.Done? ==> At(REQUEST_APPROVAL) && receipt.catalogDelivery.Some?
      ensures r.Done? && |old(receipt).phases| == EVALUATE_CATALOG ==> receipt.catalogDelivery == seen.delivery
    {
      hide Runs, After, Saved, CurrentAt;
      var delivery: string := *;
      if EVALUATE_CATALOG in completed {
        if receipt.catalogDelivery.None? {
          return Raised;
        }
      } else {
        :- Work(EVALUATE_CATALOG, StartCatalogDelivery, DeliveryIs(delivery), Delivery(delivery));
      }
      NextIsCurrent(View(), EVALUATE_CATALOG);
      return Done;
    }

    /** The `try` of `apply_release`. */
    method ApplyBody(managedBuildId: Option<string>) returns (r: Outcome)
      requires At(VERIFY_SOURCE) && build == managedBuildId
      modifies `receipt, `durable, `completed, `pending, `done, `seen, `ever, `run
      ensures Catchable()
      ensures reliable || r.Done? ==> (r.Done? <==> Intact(old(receipt), VERIFY_SOURCE, managedBuildId))
      ensures r.Done? ==>
        Finished(if |old(receipt).phases| <= ACCEPT_BUILD && managedBuildId.None? then AwaitingManagedBuild
                 else AwaitingCatalogApproval)
      ensures r.Done? ==> Finished(AwaitingManagedBuild) || Finished(AwaitingCatalogApproval)
    {
      hide Runs, After, Saved, CurrentAt;
      r := BeforeBuild();
      if r.Raised? {
        return;
      }
      var gated: bool;
      assert ACCEPT_BUILD !in completed ==> Intact(receipt, ACCEPT_BUILD, build);
      r, gated := AcceptBuild(managedBuildId);
      if r.Raised? || gated {
        return;
      }
      :- ResolveAndEnforce();
      :- QuiesceAndApply();
      :- DeployRuntime();
      :- BindAndMigrate();
      :- EvaluateCatalog();
      return Done;
    }

    method BeforeBuild() returns (r: Outcome)
      requires At(VERIFY_SOURCE)
      modifies `receipt, `durable, `completed, `pending, `done, `seen, `ever, `run
      ensures Catchable()
      ensures reliable || r.Done? ==> Moved(old(receipt), VERIFY_SOURCE, r, receipt, ACCEPT_BUILD, build)
      ensures r.Done? ==> At(ACCEPT_BUILD)
    {
      hide Runs, After, Saved, CurrentAt;
      r := VerifySourceAndState();
      if r.Raised? {
        return;
      }
      :- BuildBoundary();
      return Done;
    }

    /** The attempt has persisted its last status and may return. */
    ghost predicate Finished(status: Status) reads this {
      Catchable() && pending.None? && receipt.status == status && durable == Some(Stored(receipt, receipt))
    }

    /** Set the status that ends the attempt and persist it. */
    method StopAt(status: Status) returns (r: Outcome)
      requires Ready() && MayMark(status, |receipt.phases|) && CurrentAt(View(), |receipt.phases|)
      modifies `receipt, `durable, `run
      ensures Catchable()
      ensures reliable ==> r.Done?
      ensures r.Done? ==> Finished(status) && receipt.phases == old(receipt.phases)
    {
      hide Runs, After, Saved, CurrentAt;
      ghost var before := View();
      receipt := receipt.(status := status);
      Log(Mark(status), before);
      :- WriteReceipt();
      return Done;
    }

    /** An attempt after the catalog approval. */
    ghost predicate Late() reads this {
      Ready() && entry.Cataloguing? && PUBLISH_CATALOG <= |receipt.phases|
    }

    /** Such an attempt with the first n phases complete, which has itself verified and compared
        all that working on phase n needs. */
    ghost predicate Past(n: nat) reads this {
      Late() && n <= |receipt.phases| && CurrentAt(View(), n)
    }

    /** Source and schedulers are checked again before anything is read or run. */
    method RecheckAndQuiesce() returns (r: Outcome)
      requires Late()
      modifies `receipt, `durable, `pending, `done, `seen, `ever, `run
      ensures Catchable()
      ensures reliable && Whole(old(receipt)) ==> r.Done? && Whole(receipt)
      ensures r.Done? ==> Past(PUBLISH_CATALOG) && SourceMatches(View())
      ensures r.Done? ==> seen.jobs.Some? && receipt.paused == seen.jobs
    {
      hide Runs, After, Saved, CurrentAt;
      var jobs: seq<string> := *;
      var commit := Observe(receipt.commit);
      var remoteUrl := Observe(receipt.remoteUrl);
      NothingToPass(View());
      r := Perform(Effect.VerifySource, SourceAt(commit, remoteUrl));
      if r.Raised? {
        return;
      }
      if receipt.commit != Some(commit) || receipt.remoteUrl != Some(remoteUrl) {
        return Raised;
      }
      LateNeedsSourceOnly(View());
      :- Perform(QuiesceSchedulers, JobsAre(jobs));
      RepauseJobs(jobs);
      LateIsCurrent(View());
      if receipt.catalogDelivery.None? {
        return Raised;
      }
      return Done;
    }

    method RepauseJobs(jobs: seq<string>)
      requires Late() && seen.jobs == Some(jobs)
      modifies `receipt, `run
      ensures Late() && receipt == old(receipt).(paused := Some(jobs))
    {
      hide Runs, After, CurrentAt;
      ghost var before := View();
      receipt := receipt.(paused := Some(jobs));
      Log(Repause(jobs), before);
    }

    /** A phase past the gate, once: `completed` is the receipt's own list here. */
    method CompleteLate(p: nat, u: Update) returns (r: Outcome)
      requires Past(p) && REQUEST_APPROVAL < p < PHASE_COUNT && Belongs(u, p) && AsFound(u, seen, build)
      requires |receipt.phases| == p ==> Earned(View(), p)
      modifies `receipt, `durable, `run
      ensures Catchable()
      ensures reliable ==> r.Done?
      ensures r.Done? ==> Past(p) && p < |receipt.phases| && receipt.finalOutputs == old(receipt).finalOutputs
      ensures r.Done? && |old(receipt).phases| > p ==> receipt == old(receipt)
      ensures r.Done? && |old(receipt).phases| == p ==>
        receipt == Updated(old(receipt).(phases := old(receipt.phases) + [p]), u)
    {
      hide Runs, After, CurrentAt, Saved, Earned, AsFound;
      RunInv(plan, run);
      Members(receipt.phases);
      if p !in receipt.phases {
        :- CompletePhase(p, u);
      }
      return Done;
    }

    /** Wait for the approved publication, then checkpoint it: only after a poll found it. */
    method AwaitPublication() returns (r: Outcome)
      requires Past(PUBLISH_CATALOG)
      modifies `receipt, `durable, `pending, `done, `seen, `ever, `run
      ensures Catchable()
      ensures reliable && Whole(old(receipt)) ==> r.Done? && Whole(receipt)
      ensures r.Done? ==> Past(PUBLISH_CATALOG) && PUBLISH_CATALOG < |receipt.phases|
      ensures r.Done? ==> PollPublication in done && seen.publication.Some?
      ensures r.Done? && |old(receipt).phases| == PUBLISH_CATALOG ==> receipt.publication == seen.publication
    {
      hide Runs, After, Saved, CurrentAt;
      var publication: Option<string>;
      ghost var polls: nat;
      r, publication, polls := Poll();
      if r.Raised? || publication.None? {
        return Raised;
      }
      :- CompleteLate(PUBLISH_CATALOG, Update.Publication(publication.value));
      return Done;
    }

    /** The polling loop; what it returns is what its last poll found, and it gives up after 240. */
    method Poll() returns (r: Outcome, publication: Option<string>, ghost polls: nat)
      requires Past(PUBLISH_CATALOG)
      modifies `pending, `done, `seen, `ever, `run
      ensures Catchable()
      ensures reliable ==> r.Done? && publication.Some?
      ensures r.Done? ==> Past(PUBLISH_CATALOG)
      ensures r.Done? && publication.Some? ==> PollPublication in done && seen.publication == publication
      ensures polls <= 240 && (r.Done? && publication.None? ==> polls == 240)
    {
      hide Runs, After, Saved, CurrentAt;
      r, publication, polls := Done, None, 0;
      for attempt := 0 to 240
        invariant Past(PUBLISH_CATALOG) && publication.None? && polls == attempt && (reliable ==> attempt == 0)
      {
        publication, polls := *, polls + 1;
        if reliable && publication.None? {
          var rollout: string := *;
          publication := Some(rollout);
        }
        r := Perform(PollPublication, Polled(publication));
        if r.Raised? || publication.Some? {
          return;
        }
        r := MayRaise();
        if r.Raised? {
          return;
        }
      }
      r := Done;
    }

    /** The seed job if one is configured, then the last two checkpoints. */
    method SeedAndEmit() returns (r: Outcome)
      requires Past(PUBLISH_CATALOG) && PUBLISH_CATALOG < |receipt.phases| && seen.publication.Some?
      modifies `receipt, `durable, `pending, `done, `seen, `ever, `run
      ensures Catchable()
      ensures reliable && Whole(old(receipt)) ==> r.Done?
      ensures r.Done? ==> Past(PHASE_COUNT) && |receipt.phases| == PHASE_COUNT
      ensures r.Done? ==> Matches(receipt.finalOutputs, seen.finalOutputs)
    {
      hide Runs, After, Saved, CurrentAt;
      var outputs := Observe(receipt.finalOutputs);
      LateIsCurrent(View());
      r := Perform(ReadFinalOutputs, FinalOutputsAre(outputs));
      LateIsCurrent(View());
      if r.Raised? {
        return;
      }
      if receipt.finalOutputs != Some(outputs) {
        return Raised;
      }
      NextIsCurrent(View(), PUBLISH_CATALOG);
      :- Seed(outputs);
      :- CompleteLate(EMIT_RECEIPT, NoUpdate);
      RunInv(plan, run);
      NextIsCurrent(View(), EMIT_RECEIPT);
      LateHasOutputs(View(), EMIT_RECEIPT);
      return Done;
    }

    method Seed(outputs: Outputs) returns (r: Outcome)
      requires Past(SEED_CALIBRATION) && receipt.finalOutputs == Some(outputs)
      modifies `receipt, `durable, `pending, `done, `seen, `ever, `run
      ensures Catchable()
      ensures reliable ==> r.Done?
      ensures r.Done? ==> Past(EMIT_RECEIPT)
    {
      hide Runs, After, Saved, CurrentAt;
      RunInv(plan, run);
      Members(receipt.phases);
      if SEED_CALIBRATION !in receipt.phases && outputs.seedJob.Some? {
        :- Perform(RunSeedJob, Nothing);
      }
      :- CompleteLate(SEED_CALIBRATION, NoUpdate);
      NextIsCurrent(View(), SEED_CALIBRATION);
      return Done;
    }

    /** The `try` of `resume_after_catalog_approval`. */
    method CatalogBody() returns (r: Outcome)
      requires Late()
      modifies `receipt, `durable, `pending, `done, `seen, `ever, `run
      ensures Catchable()
      ensures reliable && Whole(old(receipt)) ==> r.Done?
      ensures r.Done? ==> Finished(Deployed)
    {
      hide Runs, After, Saved, CurrentAt;
      r := RecheckAndQuiesce();
      if r.Raised? {
        return;
      }
      :- AwaitPublication();
      :- SeedAndEmit();
      :- StopAt(Deployed);
      return Done;
    }

    /** The attempt ends in one of the ways it can: returned, killed, or through the handlers,
        which an interruption after the last statement of the `try` reaches too. */
    method End(r: Outcome, interrupted: bool) returns (exit: Exit)
      requires Catchable() && (reliable ==> !interrupted)
      requires r.Done? ==> exists status :: Finished(status) && !status.InProgress?
      modifies `durable, `entry, `run
      ensures Valid() && entry.Idle?
      ensures exit in {Returned, Failure, Interruption, Killed} && (exit == Returned ==> r.Done?)
      ensures (exit == Failure ==> !interrupted) && (exit == Interruption ==> interrupted)
      ensures exit in {Returned, Killed} ==> durable == old(durable)
      ensures exit == Failure ==> durable.Some? && durable.value.body == receipt.(status := Failed)
      ensures exit == Interruption ==> durable.Some? && durable.value.body == receipt.(status := Interrupted)
      ensures reliable ==> exit == if r.Done? then Returned else Failure
    {
      hide Runs, After;
      var killed: bool := *;
      ghost var before := View();
      if killed && !reliable {
        exit, entry := Killed, Idle;
        Log(Die, before);
      } else if r.Done? && !interrupted {
        exit, entry := Returned, Idle;
        Log(Return, before);
      } else {
        exit := if interrupted then Interruption else Failure;
        var status := if interrupted then Interrupted else Failed;
        durable := Some(Stored(receipt.(status := status), receipt.(status := status)));
        entry := Idle;
        Log(Fail(status), before);
      }
    }

    /** The first write of an attempt is outside its `try`. */
    method FirstWrite() returns (r: Outcome)
      requires Valid() && !entry.Idle? && pending.None?
      modifies `durable, `entry, `written, `run
      ensures Valid()
      ensures r.Done? ==> entry == old(entry) && written && Saved(View())
      ensures r.Raised? ==> entry.Idle?
      ensures reliable ==> r.Done?
    {
      hide Runs, After;
      r := MayRaise();
      ghost var before := View();
      if r.Done? {
        durable, written := Some(Stored(receipt, receipt)), true;
        Log(Write, before);
      } else {
        entry := Idle;
        Log(Die, before);
      }
    }

    /** A new receipt, or the exact interrupted one. */
    method OpenReceipt(resume: bool, managedBuildId: Option<string>)
      requires Valid() && entry.Idle?
      requires if resume then durable.Some? && AcceptsResume(plan, durable.value) else durable.None?
      modifies `receipt, `entry, `written, `build, `pending, `done, `seen, `run
      ensures Valid() && entry.Applying? && !written && pending.None? && receipt.status.InProgress?
      ensures build == managedBuildId && receipt == if resume then Reopened(durable.value.body) else NewReceipt(plan)
    {
      hide Runs, After, AcceptsResume;
      ghost var before := View();
      receipt := if resume then Reopened(durable.value.body) else NewReceipt(plan);
      entry, written, build, pending, done, seen := Applying, false, managedBuildId, None, {}, NO_FINDINGS;
      Log(if resume then OpenResume(managedBuildId) else OpenNew(managedBuildId), before);
    }

    /** The receipt and the set of its completed phases. */
    method Open(resume: bool, managedBuildId: Option<string>)
      requires Valid() && entry.Idle?
      requires if resume then durable.Some? && AcceptsResume(plan, durable.value) else durable.None?
      modifies `receipt, `completed, `entry, `written, `build, `pending, `done, `seen, `run
      ensures Valid() && entry.Applying? && !written && pending.None? && receipt.status.InProgress? && Tracks()
      ensures build == managedBuildId && receipt == if resume then Reopened(durable.value.body) else NewReceipt(plan)
    {
      hide Runs, After, AcceptsResume;
      OpenReceipt(resume, managedBuildId);
      RunInv(plan, run);
      Members(receipt.phases);
      completed := set k | 0 <= k < |receipt.phases| :: receipt.phases[k];
      assert forall p :: p in completed <==> p in receipt.phases;
    }

    /** The receipt at or beyond the approval gate. */
    method OpenLate()
      requires Valid() && entry.Idle? && durable.Some? && AcceptsCatalogResume(plan, durable.value)
      modifies `receipt, `entry, `written, `build, `pending, `done, `seen, `run
      ensures Valid() && entry.Cataloguing? && !written && pending.None? && receipt.status.InProgress?
      ensures PUBLISH_CATALOG <= |receipt.phases| && receipt == Reopened(durable.value.body)
    {
      hide Runs, After;
      ghost var before := View();
      receipt := Reopened(durable.value.body);
      entry, written, build, pending, done, seen := Cataloguing, false, None, None, {}, NO_FINDINGS;
      Log(OpenCatalog, before);
      RunInv(plan, run);
    }

    /** `apply_release`: refused without any effect unless its entry conditions hold. */
    method ApplyRelease(managedBuildId: Option<string>, resume: bool) returns (exit: Exit)
      requires Valid() && entry.Idle?
      modifies this
      ensures Valid() && entry.Idle?
      ensures exit == Refused <==>
        if resume then old(durable).None? || !AcceptsResume(plan, old(durable).value) else old(durable).Some?
      ensures exit == Refused ==> View() == old(View())
      ensures exit == Failure ==> durable.Some? && durable.value.body.status == Failed
      ensures exit == Interruption ==> durable.Some? && durable.value.body.status == Interrupted
      ensures exit == Returned || (reliable && exit != Refused) ==>
        var receipt := if resume then old(durable).value.body else NewReceipt(plan);
        if !Intact(receipt, 0, managedBuildId) then exit == Failure
        else
          && exit == Returned && durable.Some?
          && durable.value.body.status ==
               if |receipt.phases| <= 4 && managedBuildId.None? then AwaitingManagedBuild else AwaitingCatalogApproval
    {
      hide Runs, After, CurrentAt, Saved;
      var refused := if resume then durable.None? || !AcceptsResume(plan, durable.value) else durable.Some?;
      if refused {
        return Refused;
      }
      Open(resume, managedBuildId);
      var r := FirstWrite();
      if r.Raised? {
        return Killed;
      }
      NothingToPass(View());
      r := ApplyBody(managedBuildId);
      var interrupted: bool := *;
      exit := End(r, interrupted && !reliable);
    }

    /** `resume_after_catalog_approval`. */
    method ResumeAfterCatalogApproval() returns (exit: Exit)
      requires Valid() && entry.Idle?
      modifies this
      ensures Valid() && entry.Idle?
      ensures exit == Refused <==> old(durable).None? || !AcceptsCatalogResume(plan, old(durable).value)
      ensures exit == Refused ==> View() == old(View())
      ensures exit == Returned ==> durable.Some? && durable.value.body.status == Deployed
      ensures exit == Failure ==> durable.Some? && durable.value.body.status == Failed
      ensures exit == Interruption ==> durable.Some? && durable.value.body.status == Interrupted
      ensures reliable && exit != Refused ==> exit == Returned
    {
      hide Runs, After, CurrentAt, Saved;
      if durable.None? || !AcceptsCatalogResume(plan, durable.value) {
        return Refused;
      }
      GatesAreComplete(plan, run);
      OpenLate();
      var r := FirstWrite();
      if r.Raised? {
        return Killed;
      }
      r := CatalogBody();
      var interrupted: bool := *;
      exit := End(r, interrupted && !reliable);
    }
  }

  /** The receipt has the fields of its completed phases from the nth on, and the build is the one
      given, if one is. */
  predicate Intact(r: Receipt, n: nat, build: Option<string>) {
    var completed := |r.phases|;
    && (n <= 0 < completed ==> r.commit.Some? && r.remoteUrl.Some?)
    && (n <= 3 < completed ==> r.trigger.Some?)
    && (n <= 4 < completed ==> r.buildId.Some? && (build.Some? ==> build == r.buildId))
    && (n <= 5 < completed ==> r.images.Some?)
    && (n <= 9 < completed ==> r.initialOutputs.Some?)
    && (n <= 10 < completed ==> r.runtimeReceipt.Some?)
    && (n <= 12 < completed ==> r.finalOutputs.Some?)
    && (n <= 14 < completed ==> r.catalogDelivery.Some?)
  }

  /** Phases n to m are completed, of which none had lost its field; where nothing fails, they are
      unless one has. */
  predicate Moved(before: Receipt, n: nat, r: Outcome, after: Receipt, m: nat, build: Option<string>) {
    if r.Raised? then !Intact(before, n, build)
    else
      && |after.phases| == (if |before.phases| < m then m else |before.phases|)
      && (Intact(after, m, build) <==> Intact(before, n, build))
  }

  lemma Next(plan: string, run: seq<Action>, a: Action)
    requires Runs(plan, run) && Enabled(plan, After(plan, run), a)
    ensures Runs(plan, run + [a]) && After(plan, run + [a]) == Apply(plan, After(plan, run), a)
  {
    hide Enabled, Apply;
    assert (run + [a])[..|run + [a]| - 1] == run;
  }

  /** An interruption between a phase and its fields leaves a receipt that has lost them, and that
      is accepted for a resume all the same. */
  lemma FieldsMayBeLost(plan: string)
    ensures exists run ::
      && Runs(plan, run) && After(plan, run).durable.Some?
      && AcceptsResume(plan, After(plan, run).durable.value) && !Intact(After(plan, run).durable.value.body, 0, None)
  {
    assert Runs(plan, []) && After(plan, []) == START;
    hide Runs, After;
    var found := SourceAt("commit", "url");
    Next(plan, [], OpenNew(None));
    var run := [] + [OpenNew(None)];
    Next(plan, run, Write);
    run := run + [Write];
    Next(plan, run, Begin(Effect.VerifySource));
    run := run + [Begin(Effect.VerifySource)];
    Next(plan, run, Finish(Effect.VerifySource, found));
    run := run + [Finish(Effect.VerifySource, found)];
    Next(plan, run, Append(0));
    run := run + [Append(0)];
    Next(plan, run, Fail(Interrupted));
    run := run + [Fail(Interrupted)];
    assert After(plan, run).durable.value.body.phases == [0];
  }

  /** Finishing an effect, whatever it found, leaves what its phase needed. */
  lemma NotedKeepsCurrent(s: State, t: State, e: Effect, found: Finding)
    requires CurrentAt(s, PhaseOf(e)) && Finds(e, found)
    requires t == s.(pending := t.pending, done := s.done + {e}, seen := Noted(s.seen, found), ever := t.ever)
    ensures CurrentAt(t, PhaseOf(e))
  {
  }

  lemma CurrentHasSource(s: State, p: nat)
    requires CurrentAt(s, p) && p > VERIFY_SOURCE
    ensures SourceMatches(s)
  {
  }

  lemma CurrentHasRuntime(s: State, p: nat)
    requires CurrentAt(s, p) && s.entry.Applying?
    ensures p > DEPLOY_AGENTS ==> Matches(s.receipt.runtimeReceipt, s.seen.runtimeReceipt)
    ensures p > BIND_RUNTIME ==> Matches(s.receipt.finalOutputs, s.seen.finalOutputs)
  {
  }

  /** The first phase needs nothing. */
  lemma NothingToPass(s: State)
    ensures CurrentAt(s, VERIFY_SOURCE)
  {
  }

  /** An attempt after the approval needs the source for quiescing, and both for all phases up
      to the publication. */
  lemma LateNeedsSourceOnly(s: State)
    requires s.entry.Cataloguing? && SourceMatches(s)
    ensures CurrentAt(s, PAUSE_WORK)
  {
  }

  lemma LateIsCurrent(s: State)
    ensures s.entry.Cataloguing? && SourceMatches(s) && QuiesceSchedulers in s.done ==>
      CurrentAt(s, PUBLISH_CATALOG) && CurrentAt(s, BIND_RUNTIME)
    ensures s.entry.Cataloguing? && CurrentAt(s, PUBLISH_CATALOG) ==> SourceMatches(s) && QuiesceSchedulers in s.done
  {
  }

  lemma LateHasOutputs(s: State, p: nat)
    requires s.entry.Cataloguing? && CurrentAt(s, p) && p > PUBLISH_CATALOG
    ensures Matches(s.receipt.finalOutputs, s.seen.finalOutputs)
  {
  }

  /** What a phase adds to the needs of the next one. */
  predicate Passed(s: State, p: nat) {
    && (p == VERIFY_SOURCE ==> SourceMatches(s))
    && (p == PAUSE_WORK ==> QuiesceSchedulers in s.done)
    && (s.entry.Applying? ==>
          && (p == CREATE_TRIGGER ==> Matches(s.receipt.trigger, s.seen.trigger))
          && (p == ACCEPT_BUILD ==> BuildMatches(s))
          && (p == RESOLVE_IMAGES ==> s.receipt.images.Some?)
          && (p == VERIFY_PROVENANCE ==> VerifySupplyChain in s.done)
          && (p == APPLY_PLATFORM ==> Matches(s.receipt.initialOutputs, s.seen.initialOutputs))
          && (p == DEPLOY_AGENTS ==> Matches(s.receipt.runtimeReceipt, s.seen.runtimeReceipt))
          && (p == BIND_RUNTIME ==> Matches(s.receipt.finalOutputs, s.seen.finalOutputs))
          && (p == EVALUATE_CATALOG ==> s.receipt.catalogDelivery.Some?))
    && (s.entry.Cataloguing? && p == PUBLISH_CATALOG ==>
          s.seen.publication.Some? && Matches(s.receipt.finalOutputs, s.seen.finalOutputs))
  }

  lemma NextIsCurrent(s: State, p: nat)
    requires CurrentAt(s, p) && Passed(s, p)
    ensures CurrentAt(s, p + 1)
  {
  }

  lemma WorkIsEarned(s: State, e: Effect)
    requires Once(e) && e in s.done
    ensures Earned(s, PhaseOf(e))
  {
  }

  /** The update of the next phase has not been recorded by an earlier one. */
  lemma NextIsUnrecorded(s: State, p: nat, u: Update)
    requires FieldsFit(s.receipt) && p == |s.receipt.phases| && Belongs(u, p)
    ensures Unrecorded(s.receipt.(phases := s.receipt.phases + [p]), u)
  {
  }

  /** Completing a phase leaves what it needed. */
  lemma CompletedKeepsCurrent(s: State, t: State, p: nat, u: Update)
    requires CurrentAt(s, p) && Unrecorded(s.receipt.(phases := s.receipt.phases + [p]), u)
    requires t.entry == s.entry && t.done == s.done && t.seen == s.seen && t.build == s.build
    requires t.receipt == Updated(s.receipt.(phases := s.receipt.phases + [p]), u)
    ensures CurrentAt(t, p)
  {
  }

  datatype Attempt = FirstApply(build: Option<string>) | ResumedApply(build: Option<string>) | AfterApproval

  /** Any sequence of attempts at one release, each ending in any way, is a run of the protocol. */
  method Campaign(plan: string, attempts: seq<Attempt>, reliable: bool) returns (runner: Runner)
    ensures runner.Valid() && runner.plan == plan
    ensures runner.durable.Some? ==>
      && runner.durable.value.sha256 == runner.durable.value.body
      && ExactPrefix(runner.durable.value.body.phases)
      && (runner.durable.value.body.status in {Failed, Interrupted} ==>
            (AcceptsResume(plan, runner.durable.value) <==> !AcceptsCatalogResume(plan, runner.durable.value)))
      && Sourced(runner.durable.value.body, runner.run)
      && (|runner.durable.value.body.phases| >= 16 ==> Whole(runner.durable.value.body))
  {
    runner := new Runner(plan, reliable);
    for k := 0 to |attempts|
      invariant runner.Valid() && runner.entry.Idle? && runner.plan == plan && fresh(runner)
    {
      match attempts[k]
      case FirstApply(build) => var exit := runner.ApplyRelease(build, false);
      case ResumedApply(build) => var exit := runner.ApplyRelease(build, true);
      case AfterApproval => var exit := runner.ResumeAfterCatalogApproval();
    }
    if runner.durable.Some? {
      EveryDurableReceipt(plan, runner.run);
      WhoMayResume(plan, runner.run);
      GatesAreComplete(plan, runner.run);
    }
  }
}
