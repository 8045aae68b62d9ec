/**
 What every run of the release machine keeps, whatever stops its attempts and wherever
 (tools/deploy_release.py).
 */
module ReleaseSafety {
  import opened Common
  import opened ReleaseProtocol

  /** A status names its position. */
  predicate StatusFits(r: Receipt) {
    && (r.status == AwaitingManagedBuild ==> |r.phases| == ACCEPT_BUILD)
    && (r.status == AwaitingCatalogApproval ==> |r.phases| == PUBLISH_CATALOG)
    && (r.status == Deployed ==> |r.phases| == PHASE_COUNT)
  }

  /** A field is recorded by the phase that observed it. */
  predicate FieldsFit(r: Receipt) {
    && (r.commit.Some? || r.remoteUrl.Some? ==> |r.phases| > VERIFY_SOURCE)
    && (r.trigger.Some? ==> |r.phases| > CREATE_TRIGGER)
    && (r.buildId.Some? ==> |r.phases| > ACCEPT_BUILD)
    && (r.images.Some? ==> |r.phases| > RESOLVE_IMAGES)
    && (r.initialOutputs.Some? ==> |r.phases| > APPLY_PLATFORM)
    && (r.runtimeReceipt.Some? ==> |r.phases| > DEPLOY_AGENTS)
    && (r.finalOutputs.Some? ==> |r.phases| > BIND_RUNTIME)
    && (r.catalogDelivery.Some? ==> |r.phases| > EVALUATE_CATALOG)
    && (r.publication.Some? ==> |r.phases| > PUBLISH_CATALOG)
  }

  predicate Good(plan: string, r: Receipt) {
    r.plan == plan && ExactPrefix(r.phases) && StatusFits(r) && FieldsFit(r)
  }

  /** Every completed phase has had its work done, except a seed that is not configured. */
  predicate Worked(r: Receipt, ever: set<Effect>) {
    forall p: nat :: p < |r.phases| && WorkOf(p).Some? && (p == SEED_CALIBRATION ==> SeedConfigured(r))
      ==> WorkOf(p).value in ever
  }

  predicate Inv(plan: string, s: State) {
    && s.done <= s.ever
    && (s.durable.Some? ==>
          && s.durable.value.sha256 == s.durable.value.body
          && Good(plan, s.durable.value.body) && Worked(s.durable.value.body, s.ever))
    && (!s.entry.Idle? ==>
          && Good(plan, s.receipt) && Worked(s.receipt, s.ever)
          && (s.durable.Some? ==> Extends(s.durable.value.body, s.receipt))
          && (s.written ==> s.durable.Some?)
          && (s.entry.Applying? ==> |s.receipt.phases| <= PUBLISH_CATALOG)
          && (s.entry.Cataloguing? ==> |s.receipt.phases| >= PUBLISH_CATALOG))
  }

  predicate Opens(a: Action) {
    a.OpenNew? || a.OpenResume? || a.OpenCatalog?
  }

  /** Appending the next phase earns it, in order. */
  lemma AppendKeeps(plan: string, s: State, p: nat)
    requires Inv(plan, s) && Enabled(plan, s, Append(p))
    ensures Inv(plan, Apply(plan, s, Append(p)))
  {
    hide CurrentAt, WorkOf;
    assert Good(plan, Apply(plan, s, Append(p)).receipt);
  }

  lemma RecordKeeps(plan: string, s: State, p: nat, u: Update)
    requires Inv(plan, s) && Enabled(plan, s, Record(p, u))
    ensures Inv(plan, Apply(plan, s, Record(p, u)))
  {
    hide AsFound, WorkOf;
    assert Extends(s.receipt, Updated(s.receipt, u));
    assert Good(plan, Updated(s.receipt, u));
  }

  lemma OpenKeeps(plan: string, s: State, a: Action)
    requires Inv(plan, s) && Enabled(plan, s, a) && Opens(a)
    ensures Inv(plan, Apply(plan, s, a))
  {
    hide CurrentAt, WorkOf, Earned, Noted, AsFound, Due;
    if !a.OpenNew? {
      Members(s.durable.value.body.phases);
    }
  }

  /** The handlers persist what the attempt holds. */
  lemma FailKeeps(plan: string, s: State, status: Status)
    requires Inv(plan, s) && Enabled(plan, s, Fail(status))
    ensures Inv(plan, Apply(plan, s, Fail(status)))
  {
    hide WorkOf;
  }

  lemma ActionKeeps(plan: string, s: State, a: Action)
    requires Inv(plan, s) && Enabled(plan, s, a)
    ensures Inv(plan, Apply(plan, s, a))
  {
    hide CurrentAt, WorkOf, Earned, Noted, AsFound, Due, Finds, AcceptsResume, AcceptsCatalogResume, ExactPrefix;
    match a
    case Append(p) => AppendKeeps(plan, s, p);
    case Record(p, u) => RecordKeeps(plan, s, p, u);
    case OpenNew(build) => OpenKeeps(plan, s, a);
    case OpenResume(build) => OpenKeeps(plan, s, a);
    case OpenCatalog => OpenKeeps(plan, s, a);
    case Fail(status) => FailKeeps(plan, s, status);
    case _ =>
  }

  lemma Members(phases: seq<nat>)
    requires ExactPrefix(phases)
    ensures forall p: nat :: p in phases <==> p < |phases|
  {
    forall p: nat | p < |phases| ensures p in phases {
      assert phases[p] == p;
    }
  }

  lemma {:induction false} RunInv(plan: string, run: seq<Action>)
    requires Runs(plan, run)
    ensures Inv(plan, After(plan, run))
    decreases |run|
  {
    if run != [] {
      RunInv(plan, run[..|run| - 1]);
      ActionKeeps(plan, After(plan, run[..|run| - 1]), run[|run| - 1]);
    }
  }

  /** Every durable receipt is self-hashed, bound to the plan, an exact ordered prefix of the
      declared phases, and its status fixes how many phases those are. */
  lemma EveryDurableReceipt(plan: string, run: seq<Action>)
    requires Runs(plan, run) && After(plan, run).durable.Some?
    ensures var file := After(plan, run).durable.value;
      && file.sha256 == file.body && file.body.plan == plan
      && ExactPrefix(file.body.phases)
      && (file.body.status == AwaitingManagedBuild ==> |file.body.phases| == 4)
      && (file.body.status == AwaitingCatalogApproval ==> |file.body.phases| == 16)
      && (file.body.status == Deployed ==> |file.body.phases| == 19)
  {
    RunInv(plan, run);
  }

  lemma ExtendsTransitive(a: Receipt, b: Receipt, c: Receipt)
    requires Extends(a, b) && Extends(b, c)
    ensures Extends(a, c)
  {
  }

  lemma ActionExtends(plan: string, s: State, a: Action)
    requires Inv(plan, s) && Enabled(plan, s, a) && s.durable.Some?
    ensures Apply(plan, s, a).durable.Some?
    ensures Extends(s.durable.value.body, Apply(plan, s, a).durable.value.body)
  {
  }

  /** Once durable, a completed phase, the commit, the build, the image digests and every other
      recorded observation but the paused jobs are in all later durable receipts. */
  lemma {:induction false} DurableOnlyExtends(plan: string, run: seq<Action>, k: nat)
    requires Runs(plan, run) && k <= |run|
    ensures Runs(plan, run[..k])
    ensures After(plan, run[..k]).durable.Some? ==>
      && After(plan, run).durable.Some?
      && Extends(After(plan, run[..k]).durable.value.body, After(plan, run).durable.value.body)
    decreases |run|
  {
    if k == |run| {
      assert run[..k] == run;
    } else {
      var before := run[..|run| - 1];
      DurableOnlyExtends(plan, before, k);
      assert before[..k] == run[..k];
      RunInv(plan, before);
      var s, t := After(plan, before), After(plan, run);
      if After(plan, run[..k]).durable.Some? {
        ActionExtends(plan, s, run[|run| - 1]);
        ExtendsTransitive(After(plan, run[..k]).durable.value.body, s.durable.value.body, t.durable.value.body);
      }
    }
  }

  /** The same between any two moments of a run. */
  lemma DurableExtends(plan: string, run: seq<Action>, j: nat, k: nat)
    requires Runs(plan, run) && j <= k <= |run|
    ensures Runs(plan, run[..j]) && Runs(plan, run[..k])
    ensures After(plan, run[..j]).durable.Some? ==>
      && After(plan, run[..k]).durable.Some?
      && Extends(After(plan, run[..j]).durable.value.body, After(plan, run[..k]).durable.value.body)
  {
    DurableOnlyExtends(plan, run, k);
    DurableOnlyExtends(plan, run[..k], j);
    assert run[..k][..j] == run[..j];
  }

  /** No attempt begins at position i or later. */
  ghost predicate SameAttempt(run: seq<Action>, i: nat) {
    forall k :: i <= k < |run| ==> !Opens(run[k])
  }

  predicate Finishes(a: Action, e: Effect) { a.Finish? && a.effect == e }

  /** The last attempt of the run has finished the effect. */
  ghost predicate FinishedHere(run: seq<Action>, e: Effect) {
    exists i :: 0 <= i < |run| && Finishes(run[i], e) && SameAttempt(run, i)
  }

  /** The last attempt of the run has finished the effect with the finding. */
  ghost predicate FoundHere(run: seq<Action>, e: Effect, found: Finding) {
    exists i :: 0 <= i < |run| && run[i] == Finish(e, found) && SameAttempt(run, i)
  }

  /** One more action that opens no attempt. */
  lemma StillHere(run: seq<Action>, i: nat)
    requires run != [] && !Opens(run[|run| - 1]) && i < |run| && SameAttempt(run[..|run| - 1], i)
    ensures SameAttempt(run, i)
  {
    forall k | i <= k < |run| ensures !Opens(run[k]) {
      assert k < |run| - 1 ==> run[k] == run[..|run| - 1][k];
    }
  }

  /** What one action does to what its attempt has finished and found. */
  lemma DoneStep(plan: string, s: State, a: Action, e: Effect)
    requires Enabled(plan, s, a) && e in Apply(plan, s, a).done && !Finishes(a, e)
    ensures e in s.done && !Opens(a)
  {
    hide CurrentAt, Earned, Due, AcceptsResume, AcceptsCatalogResume, Noted, Finds;
  }

  lemma SourceStep(plan: string, s: State, a: Action)
    requires Enabled(plan, s, a)
    requires Apply(plan, s, a).seen.commit.Some? && Apply(plan, s, a).seen.remoteUrl.Some?
    ensures var seen := Apply(plan, s, a).seen;
      || a == Finish(VerifySource, SourceAt(seen.commit.value, seen.remoteUrl.value))
      || (!Opens(a) && seen.commit == s.seen.commit && seen.remoteUrl == s.seen.remoteUrl)
  {
    hide CurrentAt, Earned, Due, AcceptsResume, AcceptsCatalogResume;
  }

  lemma PublicationStep(plan: string, s: State, a: Action)
    requires Enabled(plan, s, a) && Apply(plan, s, a).seen.publication.Some?
    ensures var seen := Apply(plan, s, a).seen;
      || a == Finish(PollPublication, Polled(seen.publication))
      || (!Opens(a) && seen.publication == s.seen.publication)
  {
    hide CurrentAt, Earned, Due, AcceptsResume, AcceptsCatalogResume;
  }

  /** `done` holds effects finished since the last attempt began. */
  lemma {:induction false} DoneHasFinished(plan: string, run: seq<Action>, e: Effect)
    requires Runs(plan, run) && e in After(plan, run).done
    ensures FinishedHere(run, e)
    decreases |run|
  {
    hide Enabled, Apply;
    if run != [] {
      var before, last := run[..|run| - 1], run[|run| - 1];
      if Finishes(last, e) {
        assert SameAttempt(run, |run| - 1);
      } else {
        DoneStep(plan, After(plan, before), last, e);
        DoneHasFinished(plan, before, e);
        var i :| 0 <= i < |before| && Finishes(before[i], e) && SameAttempt(before, i);
        StillHere(run, i);
        assert Finishes(run[i], e);
      }
    }
  }

  /** The source an attempt has seen is the one a verification of this attempt found. */
  lemma {:induction false} SeenSourceWasFound(plan: string, run: seq<Action>)
    requires Runs(plan, run) && After(plan, run).seen.commit.Some? && After(plan, run).seen.remoteUrl.Some?
    ensures var seen := After(plan, run).seen;
      FoundHere(run, VerifySource, SourceAt(seen.commit.value, seen.remoteUrl.value))
    decreases |run|
  {
    hide Enabled, Apply;
    if run != [] {
      var before, last := run[..|run| - 1], run[|run| - 1];
      var seen := After(plan, run).seen;
      SourceStep(plan, After(plan, before), last);
      FoundStep(run, VerifySource, SourceAt(seen.commit.value, seen.remoteUrl.value));
      if last != Finish(VerifySource, SourceAt(seen.commit.value, seen.remoteUrl.value)) {
        SeenSourceWasFound(plan, before);
      }
    }
  }

  /** The publication an attempt has seen is one that a poll of this attempt found. */
  lemma {:induction false} SeenPublicationWasFound(plan: string, run: seq<Action>)
    requires Runs(plan, run) && After(plan, run).seen.publication.Some?
    ensures FoundHere(run, PollPublication, Polled(After(plan, run).seen.publication))
    decreases |run|
  {
    hide Enabled, Apply;
    if run != [] {
      var before, last := run[..|run| - 1], run[|run| - 1];
      var found := Polled(After(plan, run).seen.publication);
      PublicationStep(plan, After(plan, before), last);
      FoundStep(run, PollPublication, found);
      if last != Finish(PollPublication, found) {
        SeenPublicationWasFound(plan, before);
      }
    }
  }

  /** A finding of the attempt is its last action's, or an earlier one's. */
  lemma FoundStep(run: seq<Action>, e: Effect, found: Finding)
    requires run != []
    ensures run[|run| - 1] == Finish(e, found) ==> FoundHere(run, e, found)
    ensures !Opens(run[|run| - 1]) && FoundHere(run[..|run| - 1], e, found) ==> FoundHere(run, e, found)
  {
    hide FoundHere, Opens;
    var n := |run| - 1;
    if run[n] == Finish(e, found) {
      FoundLast(run, e, found);
    } else if !Opens(run[n]) && FoundHere(run[..n], e, found) {
      FoundEarlier(run, e, found);
    }
  }

  lemma FoundLast(run: seq<Action>, e: Effect, found: Finding)
    requires run != [] && run[|run| - 1] == Finish(e, found)
    ensures FoundHere(run, e, found)
  {
    assert SameAttempt(run, |run| - 1);
  }

  lemma FoundEarlier(run: seq<Action>, e: Effect, found: Finding)
    requires run != [] && !Opens(run[|run| - 1]) && FoundHere(run[..|run| - 1], e, found)
    ensures FoundHere(run, e, found)
  {
    hide Opens;
    var front := run[..|run| - 1];
    var i :| 0 <= i < |front| && front[i] == Finish(e, found) && SameAttempt(front, i);
    StillHere(run, i);
    assert run[i] == Finish(e, found);
  }

  lemma EverStep(plan: string, s: State, a: Action, e: Effect)
    requires Enabled(plan, s, a) && e in Apply(plan, s, a).ever && !Finishes(a, e)
    ensures e in s.ever
  {
    hide CurrentAt, Earned, Due, AcceptsResume, AcceptsCatalogResume, Noted, Finds;
  }

  lemma {:induction false} EverHasFinished(plan: string, run: seq<Action>, e: Effect)
    requires Runs(plan, run) && e in After(plan, run).ever
    ensures exists i :: 0 <= i < |run| && Finishes(run[i], e)
    decreases |run|
  {
    hide Enabled, Apply;
    if run != [] {
      var before, last := run[..|run| - 1], run[|run| - 1];
      if Finishes(last, e) {
        assert Finishes(run[|run| - 1], e);
      } else {
        EverStep(plan, After(plan, before), last, e);
        EverHasFinished(plan, before, e);
        var i :| 0 <= i < |before| && Finishes(before[i], e);
        assert Finishes(run[i], e);
      }
    }
  }

  /** The work of a phase has finished at least once before the phase is in a durable receipt.
      The calibration seed is the one exception, and only when none is configured. */
  lemma CheckpointFollowsEffect(plan: string, run: seq<Action>, e: Effect)
    requires Runs(plan, run) && After(plan, run).durable.Some?
    requires WorkOf(PhaseOf(e)) == Some(e) && PhaseOf(e) in After(plan, run).durable.value.body.phases
    requires e == RunSeedJob ==> SeedConfigured(After(plan, run).durable.value.body)
    ensures exists i :: 0 <= i < |run| && Finishes(run[i], e)
  {
    RunInv(plan, run);
    EverHasFinished(plan, run, e);
  }

  /** The seed job has begun, and not been broken off, or has finished in some attempt. */
  predicate SeedStarted(s: State) {
    s.pending == Some(RunSeedJob) || RunSeedJob in s.ever
  }

  lemma SeedStep(plan: string, s: State, a: Action)
    requires Enabled(plan, s, a) && SeedStarted(Apply(plan, s, a)) && !SeedStarted(s)
    ensures s.durable.Some? && SeedConfigured(s.durable.value.body)
  {
    hide CurrentAt, Earned, AcceptsResume, AcceptsCatalogResume, Noted, Finds, Updated;
  }

  /** The seed job only ever starts under a durable receipt that configures it. */
  lemma {:induction false} StartedIsConfigured(plan: string, run: seq<Action>)
    requires Runs(plan, run) && SeedStarted(After(plan, run))
    ensures After(plan, run).durable.Some? && SeedConfigured(After(plan, run).durable.value.body)
    decreases |run|
  {
    hide Enabled, Apply, SeedStarted, Inv;
    if run == [] {
      NotStarted();
    } else {
      var before, last := run[..|run| - 1], run[|run| - 1];
      if SeedStarted(After(plan, before)) {
        StartedIsConfigured(plan, before);
      } else {
        SeedStep(plan, After(plan, before), last);
      }
      RunInv(plan, before);
      ActionExtends(plan, After(plan, before), last);
    }
  }

  lemma NotStarted()
    ensures !SeedStarted(START)
  {
  }

  lemma FinishedIsEver(plan: string, s: State, a: Action, e: Effect)
    requires Enabled(plan, s, a) && (Finishes(a, e) || e in s.ever)
    ensures e in Apply(plan, s, a).ever
  {
    hide CurrentAt, Earned, Due, AcceptsResume, AcceptsCatalogResume, Noted, Finds, Updated;
  }

  lemma {:induction false} HasFinishedIsEver(plan: string, run: seq<Action>, i: nat, e: Effect)
    requires Runs(plan, run) && i < |run| && Finishes(run[i], e)
    ensures e in After(plan, run).ever
    decreases |run|
  {
    hide Enabled, Apply, Finishes;
    var before, last := run[..|run| - 1], run[|run| - 1];
    if i < |run| - 1 {
      HasFinishedIsEver(plan, before, i, e);
    }
    FinishedIsEver(plan, After(plan, before), last, e);
  }

  /** Behind its checkpoint the seed job has run exactly if one is configured. */
  lemma SeedRanExactly(plan: string, run: seq<Action>)
    requires Runs(plan, run) && After(plan, run).durable.Some?
    requires SEED_CALIBRATION in After(plan, run).durable.value.body.phases
    ensures (exists i :: 0 <= i < |run| && Finishes(run[i], RunSeedJob))
            <==> SeedConfigured(After(plan, run).durable.value.body)
  {
    hide Runs, After, Enabled, Apply, Finishes;
    if SeedConfigured(After(plan, run).durable.value.body) {
      CheckpointFollowsEffect(plan, run, RunSeedJob);
    }
    if i :| 0 <= i < |run| && Finishes(run[i], RunSeedJob) {
      HasFinishedIsEver(plan, run, i, RunSeedJob);
      StartedIsConfigured(plan, run);
    }
  }

  /** When an effect that runs once begins, the durable receipt holds exactly the phases before
      its own, and the work of all of those has finished. */
  lemma BeginsInOrder(plan: string, run: seq<Action>, e: Effect)
    requires Runs(plan, run) && Enabled(plan, After(plan, run), Begin(e)) && Once(e)
    ensures After(plan, run).durable.Some?
    ensures var phases := After(plan, run).durable.value.body.phases;
      ExactPrefix(phases) && |phases| == PhaseOf(e)
    ensures forall earlier :: PhaseOf(earlier) < PhaseOf(e) && WorkOf(PhaseOf(earlier)) == Some(earlier) ==>
      exists i :: 0 <= i < |run| && Finishes(run[i], earlier)
  {
    RunInv(plan, run);
    var s := After(plan, run);
    assert s.durable.value.body.phases == s.receipt.phases;
    Members(s.receipt.phases);
    forall earlier | PhaseOf(earlier) < PhaseOf(e) && WorkOf(PhaseOf(earlier)) == Some(earlier)
      ensures exists i :: 0 <= i < |run| && Finishes(run[i], earlier)
    {
      CheckpointFollowsEffect(plan, run, earlier);
    }
  }

  /** An effect that runs once never begins once its phase has been in a durable receipt. */
  lemma NoEffectAfterCheckpoint(plan: string, run: seq<Action>, e: Effect, k: nat)
    requires Runs(plan, run) && Enabled(plan, After(plan, run), Begin(e)) && Once(e) && k <= |run|
    ensures Runs(plan, run[..k])
    ensures After(plan, run[..k]).durable.Some? ==> PhaseOf(e) !in After(plan, run[..k]).durable.value.body.phases
  {
    BeginsInOrder(plan, run, e);
    DurableOnlyExtends(plan, run, k);
    Members(After(plan, run).durable.value.body.phases);
  }

  /** The action at position i was enabled there. */
  lemma {:induction false} EnabledAt(plan: string, run: seq<Action>, i: nat)
    requires Runs(plan, run) && i < |run|
    ensures Runs(plan, run[..i]) && Enabled(plan, After(plan, run[..i]), run[i])
    decreases |run|
  {
    hide Enabled;
    if i < |run| - 1 {
      EnabledAt(plan, run[..|run| - 1], i);
      assert run[..|run| - 1][..i] == run[..i];
    }
  }

  /** A failure repeats at most the effect in flight: between two beginnings of an effect that
      runs once, over any number of attempts, no other such effect begins. */
  lemma OnlyTheEffectInFlightRepeats(plan: string, run: seq<Action>, i: nat, j: nat, k: nat, e: Effect, other: Effect)
    requires Runs(plan, run) && i < j < k < |run| && Once(e) && Once(other)
    requires run[i] == Begin(e) && run[j] == Begin(other) && run[k] == Begin(e)
    ensures other == e
  {
    hide Enabled, Extends;
    EnabledAt(plan, run, i);
    EnabledAt(plan, run, j);
    EnabledAt(plan, run, k);
    BeginsInOrder(plan, run[..i], e);
    BeginsInOrder(plan, run[..j], other);
    BeginsInOrder(plan, run[..k], e);
    PhasesGrow(plan, run, i, j);
    PhasesGrow(plan, run, j, k);
    OnceIsWork(e, PhaseOf(e));
    OnceIsWork(other, PhaseOf(other));
  }

  lemma PhasesGrow(plan: string, run: seq<Action>, j: nat, k: nat)
    requires Runs(plan, run) && j <= k <= |run|
    ensures Runs(plan, run[..j]) && Runs(plan, run[..k])
    ensures After(plan, run[..j]).durable.Some? ==>
      && After(plan, run[..k]).durable.Some?
      && |After(plan, run[..j]).durable.value.body.phases| <= |After(plan, run[..k]).durable.value.body.phases|
  {
    DurableExtends(plan, run, j, k);
  }

  /** Every effect behind source verification follows, in its own attempt, a verification that
      found exactly the commit and remote URL of the durable receipt. */
  lemma SourceIsVerified(plan: string, run: seq<Action>, e: Effect)
    requires Runs(plan, run) && Enabled(plan, After(plan, run), Begin(e)) && e != VerifySource
    ensures After(plan, run).durable.Some?
    ensures var body := After(plan, run).durable.value.body;
      && body.commit.Some? && body.remoteUrl.Some?
      && FoundHere(run, VerifySource, SourceAt(body.commit.value, body.remoteUrl.value))
  {
    hide Runs, After;
    var s := After(plan, run);
    assert SourceMatches(s) && Saved(s);
    SeenSourceWasFound(plan, run);
  }

  /** All effects of all attempts behind source verification run under one verified commit. */
  lemma OneVerifiedSource(plan: string, run: seq<Action>, i: nat, j: nat)
    requires Runs(plan, run) && i <= j < |run| && run[i].Begin? && run[j].Begin?
    requires run[i].e != VerifySource && run[j].e != VerifySource
    ensures exists commit, remoteUrl ::
      && FoundHere(run[..i], VerifySource, SourceAt(commit, remoteUrl))
      && FoundHere(run[..j], VerifySource, SourceAt(commit, remoteUrl))
  {
    hide Enabled, FoundHere;
    EnabledAt(plan, run, i);
    EnabledAt(plan, run, j);
    SourceIsVerified(plan, run[..i], run[i].e);
    SourceIsVerified(plan, run[..j], run[j].e);
    DurableExtends(plan, run, i, j);
    var body := After(plan, run[..i]).durable.value.body;
    assert FoundHere(run[..i], VerifySource, SourceAt(body.commit.value, body.remoteUrl.value));
  }

  /** Every effect behind quiescing follows quiescing in its own attempt, and in an
      `apply_release` attempt every effect behind supply-chain verification follows that. */
  lemma GuardsInSameAttempt(plan: string, run: seq<Action>, e: Effect)
    requires Runs(plan, run) && Enabled(plan, After(plan, run), Begin(e))
    ensures PhaseOf(e) > PAUSE_WORK ==> FinishedHere(run, QuiesceSchedulers)
    ensures PhaseOf(e) > VERIFY_PROVENANCE && After(plan, run).entry.Applying? ==> FinishedHere(run, VerifySupplyChain)
  {
    hide Runs, After, FinishedHere;
    if PhaseOf(e) > PAUSE_WORK {
      DoneHasFinished(plan, run, QuiesceSchedulers);
    }
    if PhaseOf(e) > VERIFY_PROVENANCE && After(plan, run).entry.Applying? {
      DoneHasFinished(plan, run, VerifySupplyChain);
    }
  }

  /** A phase is completed by an attempt that has itself done the phase's work, behind a source
      verification that found the commit and URL of the receipt; the publication only after a
      poll of the same attempt found it. */
  lemma CheckpointIsEarned(plan: string, run: seq<Action>, p: nat)
    requires Runs(plan, run) && Enabled(plan, After(plan, run), Append(p))
    ensures var r := After(plan, run).receipt;
      && (WorkOf(p).Some? && (p == SEED_CALIBRATION ==> SeedConfigured(r)) ==> FinishedHere(run, WorkOf(p).value))
      && (p > VERIFY_SOURCE ==>
            && r.commit.Some? && r.remoteUrl.Some?
            && FoundHere(run, VerifySource, SourceAt(r.commit.value, r.remoteUrl.value)))
      && (p == PUBLISH_CATALOG ==>
            exists rollout :: FoundHere(run, PollPublication, Polled(Some(rollout))))
  {
    hide Runs, After, FinishedHere, FoundHere;
    var s := After(plan, run);
    if WorkOf(p).Some? && (p == SEED_CALIBRATION ==> SeedConfigured(s.receipt)) {
      DoneHasFinished(plan, run, WorkOf(p).value);
    }
    if p > VERIFY_SOURCE {
      SeenSourceWasFound(plan, run);
    }
    if p == PUBLISH_CATALOG {
      SeenPublicationWasFound(plan, run);
      assert FoundHere(run, PollPublication, Polled(Some(s.seen.publication.value)));
    }
  }

  predicate HasPhase(r: Receipt, p: nat) { p in r.phases }

  /** The phase is in the durable receipt, or in the one of a running attempt. */
  predicate Held(s: State, p: nat) {
    (s.durable.Some? && HasPhase(s.durable.value.body, p)) || (!s.entry.Idle? && HasPhase(s.receipt, p))
  }

  lemma HeldStep(plan: string, s: State, a: Action, p: nat)
    requires Enabled(plan, s, a) && Held(Apply(plan, s, a), p) && a != Append(p)
    ensures Held(s, p)
  {
    hide CurrentAt, Earned, Due, AcceptsResume, AcceptsCatalogResume, Noted, Finds;
  }

  /** A phase that is held was completed by some attempt. */
  lemma {:induction false} HeldWasAppended(plan: string, run: seq<Action>, p: nat)
    requires Runs(plan, run) && Held(After(plan, run), p)
    ensures exists i :: 0 <= i < |run| && run[i] == Append(p)
    decreases |run|
  {
    hide Enabled, Apply;
    if run != [] {
      var before, last := run[..|run| - 1], run[|run| - 1];
      if last == Append(p) {
        assert run[|run| - 1] == Append(p);
      } else {
        HeldStep(plan, After(plan, before), last, p);
        HeldWasAppended(plan, before, p);
        var i :| 0 <= i < |before| && before[i] == Append(p);
        assert run[i] == Append(p);
      }
    }
  }

  /** The catalog publication is never in a durable receipt unless a poll had found it. */
  lemma PublishedWasPolled(plan: string, run: seq<Action>)
    requires Runs(plan, run) && After(plan, run).durable.Some?
    requires PUBLISH_CATALOG in After(plan, run).durable.value.body.phases
    ensures exists i, rollout :: 0 <= i < |run| && run[i] == Finish(PollPublication, Polled(Some(rollout)))
  {
    hide Enabled, After;
    assert HasPhase(After(plan, run).durable.value.body, PUBLISH_CATALOG);
    HeldWasAppended(plan, run, PUBLISH_CATALOG);
    var i :| 0 <= i < |run| && run[i] == Append(PUBLISH_CATALOG);
    EnabledAt(plan, run, i);
    CheckpointIsEarned(plan, run[..i], PUBLISH_CATALOG);
    var rollout :| FoundHere(run[..i], PollPublication, Polled(Some(rollout)));
    var k :| 0 <= k < i && run[..i][k] == Finish(PollPublication, Polled(Some(rollout)));
    assert run[k] == Finish(PollPublication, Polled(Some(rollout)));
  }

  /** Who may continue from a durable receipt: exactly one entry point after a failure or an
      interruption and at each gate, none while in progress or when deployed. */
  lemma WhoMayResume(plan: string, run: seq<Action>)
    requires Runs(plan, run) && After(plan, run).durable.Some?
    ensures var file := After(plan, run).durable.value;
      && (file.body.status in {Failed, Interrupted} ==>
            (AcceptsResume(plan, file) <==> !AcceptsCatalogResume(plan, file)))
      && (file.body.status in {Failed, Interrupted} ==>
            (AcceptsResume(plan, file) <==> |file.body.phases| < PUBLISH_CATALOG))
      && (file.body.status == AwaitingManagedBuild ==> AcceptsResume(plan, file) && !AcceptsCatalogResume(plan, file))
      && (file.body.status == AwaitingCatalogApproval ==>
            !AcceptsResume(plan, file) && AcceptsCatalogResume(plan, file))
      && (file.body.status in {InProgress, Deployed} ==>
            !AcceptsResume(plan, file) && !AcceptsCatalogResume(plan, file))
  {
    RunInv(plan, run);
    Members(After(plan, run).durable.value.body.phases);
  }
}
