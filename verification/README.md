# Verification of the release tooling and its neighbours

Dafny models of the parts of this repository that must stay correct when they fail halfway and
are run again, and of a few codecs and counting algorithms with exact specifications. Each
protocol comes twice: as a step system over which the theorems quantify, and as the imperative
code, whose every execution is proved to be a run of that step system.

- `AgentProtocol`, `AgentSafety`, `AgentBlocking`, `AgentResults`, `AgentRunner`: the Agent Runtime
  deployer, a durable intent before each remote create and a durable result after it. The provider is
  assumed to show a created resource in every later listing once the create returned; a create
  that raised may have taken effect and be shown later or never; what was shown stays shown;
  a resource carries the labels its create asked for; nothing else creates resources meanwhile.
  An initial attempt starts with every resource listed, at most one exact per agent and at most 100.
- `ReleaseProtocol`, `ReleaseSafety`, `ReleaseResults`, `ReleaseRunner`: the nineteen-phase release
  machine with its self-hashed receipt, its two gates and its two resume entry points.
- `TransactionWrapper`, `Migrations`, `MigrationRuns`: the forward-only migrator, one ledger per schema,
  and the wrapper its scripts are taken out of.
- `SkillPacks`, `SkillResults`, `SkillLoader`: convergence of skill-pack lineages by supersession. Of
  the guidance store the model holds what decides a lineage: definition, drafts, links, lifecycles, head, and the
  constraints of its table; the stored hash is the revision's digest, and nothing is deleted.
- `Png`, `PngProofs`, `Palette`, `PaletteProofs`, `BrandAssets`: the PNG codec, palette snapping and
  the generate/check loop. zlib is a pair of functions of which only `decompress(compress(x)) == x`
  is asked, and only where it is needed; the CRC is an arbitrary function.
- `RateBudget`, `CrashFixture`, `Preimage`, `Scoring`, `ScoringProofs`, `ScoringResults`,
  `ReceiptReference`: the mutation budget, the exactly-once fixture effect, the length-prefixed
  preimage, the evaluation score and the receipt-reference parser. `Common` and `Decimal` hold what
  they share.

Failures are part of every model: wherever the source may raise, be interrupted or be killed,
the imperative code makes a nondeterministic choice, so that a contract covers all of them. Where
`reliable` is set no such choice is taken, and the contracts say when the code then goes through.
What the code and its specification share (labels, rows, revisions, filters, digests) is stated once
more without those functions, in the modules named `Results` and in lemmas named `InFull`.

## What the proofs found

- The calibration-seed job has run behind its checkpoint if and only if a seed is configured
  (tools/deploy_release.py:1712-1732); the work of every other phase precedes its checkpoint.
- The migrator's four refusals are exact only with a fifth: a pending source without its exact
  transaction wrapper, or a migration name that the unique constraint of the ledger already holds
  (tools/target_schema_migrations.py:442-461).
- A pack named `ci-failure-triage` is left out of publication in every family, but only the head
  of `reliability.ci-failure-triage` is cleared; in any other family a head stays as it was
  (tools/load_first_party_skill_packs.py:1049-1118).
- Not every changed pack is converged by supersession, as the loader's docstring has it: a pack that
  changes the owner of its key is refused, by this and every later load, because the definition of
  a key is fixed (src/solvan/persistence/operational_guidance_authoring.py:59-88). Over the stores
  this loader leaves, that is the only case beside no packs or a pack that cannot be bound.
- `mutate` refuses an action recorded under another key, since only a conflict on the key is handled
  (tools/actuator_crash_fixture.py:76-82) while the action is unique too (specs/artifacts/schema.sql:2326-2334).
  So an action takes effect at most once whatever its keys.
- The PNG decoder accepts a last scanline of filter type 0 that lacks up to four bytes
  (tools/generate_brand_assets.py:181-203). The round trip is therefore an equivalence with that
  shape, and the fixed point of generate and check holds for such files too.
- Palette snapping is idempotent under a weaker condition than separate colours; the exact one
  is proved, and the shipped palettes meet the simple one.
- The mutation budget bounds windows shorter than its own by the disorder D of its moments. At a
  limit of two or more that is tight: no window longer than W - D is bounded. At a limit of one
  the full window is kept whatever the disorder (apps/actuator/local_policy.py:83-92).
- A failure of the release repeats at most the one effect that was in flight, and all attempts at
  one release work under one verified commit (tools/deploy_release.py:1229-1242).
- A suite in which no case requires uncertainty cannot pass, because an absent recall counts as
  zero (tools/run_model_quality_evals.py:164-166), and one that expects no observation at all is not
  scored but divides by zero.

- An interruption between appending a phase and recording its fields leaves a receipt that is accepted
  for a resume and never finished: where nothing else fails, `apply_release` reaches its gate if and only
  if every completed phase still has its fields and the build given is the one recorded
  (tools/deploy_release.py:428-458, 1229-1570).

## Model

| member | source | states |
|---|---|---|
| `AgentProtocol.ExactForOneAgent` | tools/deploy_agent_platform.py:186-195 | No resource is exact for two agents of a plan: the `agent` label tells them apart. |
| `AgentProtocol.ExactMeansOfRelease` | tools/deploy_agent_platform.py:186-195 | A resource is exact for an agent if and only if it carries all seven labels: app solvan, the agent, the first 63 characters of the release with dashes for dots, the deployment, the commit, and the first 32 characters of the manifest and requirements digests without `sha256:`. |
| `AgentProtocol.ReconciledKnowsBoth` | tools/deploy_agent_platform.py:422-442 | Reconciliation is refused exactly when a stable field or a creation time known to both differs; what it keeps forgets neither side's creation time and reconciles with both again. |
| `AgentSafety.EveryActionKeeps` | tools/deploy_agent_platform.py:243-419 | Every step of an attempt, every failure point, a hard kill and a late appearance keep the invariant: each existing resource is listed, or its agent is the durable `current_agent`; no agent owns two; the limit of 100 holds; results so far are the plan's prefix. |
| `AgentSafety.EveryRunIsSafe` | tools/deploy_agent_platform.py:243-419 | Over every run of one initial attempt and any resumes, stopped anywhere, including creates that took effect but raised: in every state at most one resource per agent, never more than 100, and an unlisted resource is the one the durable intent announces. |
| `AgentSafety.CreatesAreFirst` | tools/deploy_agent_platform.py:295-388 | A create is only issued for an agent that owns no resource at all, under that agent's durable intent. |
| `AgentSafety.PreflightSeesEverything` | tools/deploy_agent_platform.py:255-293 | Passing the preflight checks means the listing shows every existing resource. |
| `AgentSafety.SuccessIsComplete` | tools/deploy_agent_platform.py:283-293 | The receipt that ends a successful attempt holds one result per target in plan order, each backed by a listed exact resource, and the attempt made exactly the creates its preflight counted as missing. |
| `AgentSafety.ClosingIsComplete` | tools/deploy_agent_platform.py:685-694 | The state behind the last target already holds the complete, ordered and backed result list. |
| `AgentBlocking.UnresolvedIntentStopsEveryAttempt` | tools/deploy_agent_platform.py:271-282 | As long as no listing shows a resource for the agent of an unresolved intent, no later attempt, whatever their number, creates anything, and the intent stays durable. |
| `AgentBlocking.RunsGrow` | tools/deploy_agent_platform.py:255-265 | Over every run, resources and listings only grow and labels never change. |
| `AgentResults.PreflightIsExact` | tools/deploy_agent_platform.py:243-293 | The preflight condition holds if and only if no stored result is of one agent twice or of none of the plan, the unresolved agent is of the plan and shown by a result or a resource, no two resources carry the labels of the release for one agent, and there are at most 100 resources with those to create. |
| `AgentResults.ResultReports` | tools/deploy_agent_platform.py:445-482 | An inspected resource becomes a result exactly when it is attested and carries the seven labels; the result reports its name and what was seen. |
| `AgentResults.SuccessReports` | tools/deploy_agent_platform.py:283-293 | Over every run a completed attempt reports, per target in plan order, a listed resource of this release, keeps name, stable fields and known creation time of what was stored, and has created exactly as many resources as agents had neither result nor resource. |
| `AgentResults.CreatesAreNeeded` | tools/deploy_agent_platform.py:295-388 | Over every run a create is only issued for an agent with no stored result and no resource of the release at all, and makes one with the seven labels. |
| `AgentResults.NeverTwo` | tools/deploy_agent_platform.py:243-419 | In every state of every run no two resources carry the labels of the release for one agent, and there are never more than 100. |
| `AgentResults.AttemptsAreCounted` | tools/deploy_agent_platform.py:596-620 | Over every run the durable receipt counts the attempts that wrote one. |
| `AgentRunner.Runner.StoredWellFormed` | tools/deploy_agent_platform.py:243-253 | The loop over stored results accepts exactly distinct agent keys of the plan. |
| `AgentRunner.Runner.RemoteByKey` | tools/deploy_agent_platform.py:255-265 | The nested listing loop finds, for each target, exactly the listed resources that carry all seven labels of the release for it. |
| `AgentRunner.Runner.MissingCount` | tools/deploy_agent_platform.py:283-286 | The count is the number of agents of the plan with neither a stored result nor a listed resource of the release. |
| `AgentRunner.Runner.Checks` | tools/deploy_agent_platform.py:243-293 | The imperative refusals before the first target are together exactly the preflight condition of the protocol. |
| `AgentRunner.Runner.OnTargetStart` | tools/deploy_agent_platform.py:631-635 | On return the durable receipt names the target as current, before any work on it; a raise anywhere leaves a run of the protocol. |
| `AgentRunner.Runner.OnResult` | tools/deploy_agent_platform.py:637-646 | The results so far, one longer, replace the stored ones and the intent is cleared; on return the durable receipt is that one. |
| `AgentRunner.Runner.Serve` | tools/deploy_agent_platform.py:296-398 | A target is revisited from its stored result, adopted from the listing, or created, exactly as the protocol inspects it, and only created when nothing of the release exists; where nothing fails there is a result. |
| `AgentRunner.Runner.DeployTarget` | tools/deploy_agent_platform.py:296-418 | One target is served: on return its result, last of the durable ones, names a resource with all seven labels of this release; something was created only if nothing of the release existed for the agent, and then one resource of the release. Where nothing fails it does not raise. |
| `AgentRunner.Runner.Deploy` | tools/deploy_agent_platform.py:207-419 | The loop over the targets returns only after every target, any raise leaves a state the handlers persist, and where nothing fails it raises exactly when the preflight condition does not hold. |
| `AgentRunner.Runner.ApplyPlan` | tools/deploy_agent_platform.py:564-696 | `main --apply`, with or without `--resume`: refused without any change exactly when the receipt may not be opened; each exit leaves its status and one attempt more; success leaves one result per target in plan order, each naming a listed resource with the labels of this release, and keeps what was stored. Where nothing fails it succeeds if and only if stored results, intent and listing are clear. |
| `AgentRunner.Runner.Conclude` | tools/deploy_agent_platform.py:647-696 | Success persists the completed receipt; a failure and an interruption persist what memory holds with their own status. |
| `AgentRunner.Campaign` | tools/deploy_agent_platform.py:526-699 | An initial attempt and any number of resumes: at every recorded point at most one resource per agent and at most 100 resources. |
| `ReleaseSafety.ActionKeeps` | tools/deploy_release.py:428-458 | Every step keeps the invariant: exact ordered prefix, plan, digest, fields recorded by their phases, status fitting the position, completed phases worked. |
| `ReleaseSafety.EveryDurableReceipt` | tools/deploy_release.py:420-458 | Every durable receipt of every run is self-hashed, bound to the plan and an exact ordered prefix of the nineteen phases; AWAITING_MANAGED_BUILD means 4 phases, the catalog gate 16, deployed all 19. |
| `ReleaseSafety.DurableOnlyExtends` | tools/deploy_release.py:428-458 | Between any two moments of a run the durable receipt only gains phases, and keeps its plan, commit, remote URL, trigger, build ID, image digests, outputs, runtime receipt, delivery and publication. The paused jobs are left out: the attempt after the approval records them anew. |
| `ReleaseSafety.CheckpointFollowsEffect` | tools/deploy_release.py:1270-1553 | The work of a phase has finished at least once before the phase is durable; for the seed phase, when a seed is configured. |
| `ReleaseSafety.SeedRanExactly` | tools/deploy_release.py:1712-1732 | Behind its durable checkpoint the seed job has run, in some attempt, if and only if the durable receipt has a seed configured: an unconfigured one never runs. |
| `ReleaseSafety.NoEffectAfterCheckpoint` | tools/deploy_release.py:1270-1553 | An effect that runs once never begins once its phase has been in any durable receipt. |
| `ReleaseSafety.BeginsInOrder` | tools/deploy_release.py:428-458 | When an effect that runs once begins, the durable receipt holds exactly the phases before its own, and the work of all of those has finished. |
| `ReleaseSafety.OnlyTheEffectInFlightRepeats` | tools/deploy_release.py:428-458 | Between two beginnings of one effect that runs once, over any number of attempts, no other such effect begins: a failure repeats at most the effect in flight. |
| `ReleaseSafety.SourceIsVerified` | tools/deploy_release.py:1229-1242 | Every effect but source verification itself follows, in its own attempt, a verification that found exactly the commit and remote URL of the durable receipt. |
| `ReleaseSafety.OneVerifiedSource` | tools/deploy_release.py:1229-1242 | Any two such effects, of whatever attempts, follow verifications that found one and the same commit and remote URL. |
| `ReleaseSafety.CheckpointIsEarned` | tools/deploy_release.py:1229-1738 | A phase is completed only by an attempt that has itself finished the work of that phase, behind a verification that found the source of the receipt; the publication only after a poll of the same attempt found it. |
| `ReleaseSafety.PublishedWasPolled` | tools/deploy_release.py:1665-1703 | The publication phase is in a durable receipt only if some poll had reported the publication as succeeded. |
| `ReleaseSafety.GuardsInSameAttempt` | tools/deploy_release.py:1377-1553 | Every effect behind quiescing follows quiescing in its own attempt, and in `apply_release` attempts every effect behind supply-chain verification follows that, however many phases were checkpointed. |
| `ReleaseSafety.WhoMayResume` | tools/deploy_release.py:489-520 | Every FAILED or INTERRUPTED durable receipt is accepted by exactly one of the two resume entry points, decided by whether the approval was requested; each gate status by exactly its own; IN_PROGRESS and deployed by neither. |
| `ReleaseResults.EffectsByName` | tools/deploy_release.py:225-245 | Every effect stands in its phase of the nineteen the plan declares, by name. |
| `ReleaseResults.EveryTime` | tools/deploy_release.py:1229-1570 | Exactly verification, state initialisation, quiescing, reading back and polling run in every attempt; each effect but reading back and describing is the work of a phase. |
| `ReleaseResults.ResumeIsExact` | tools/deploy_release.py:489-520 | Which files each entry point accepts, as an equivalence over digest, plan, status and the exact front of the phases. |
| `ReleaseResults.FieldsWereFound` | tools/deploy_release.py:1229-1570 | Over every run each field of a durable receipt is what an effect of its phase found, or the build an attempt was given. |
| `ReleaseResults.GatesAreComplete` | tools/deploy_release.py:1539-1570 | Over every run a durable receipt at the approval gate or with sixteen phases has source, trigger, build, images, both outputs, runtime receipt and catalog delivery, each found by a finished effect; one at the build gate has source and trigger. |
| `ReleaseResults.AttemptsAreCounted` | tools/deploy_release.py:473-520 | Over every run the durable receipt counts the attempts that wrote one. |
| `ReleaseRunner.Runner.Perform` | tools/deploy_release.py:1244-1304 | An external effect, which may stop before, during or after taking hold, begins only when everything recorded is durable and its attempt is current; what it found is noted. |
| `ReleaseRunner.Runner.CompletePhase` | tools/deploy_release.py:428-458 | Completing a phase appends it in order, records its update and, on return, has both in the durable, self-hashed receipt; otherwise it raises at a point the protocol covers. |
| `ReleaseRunner.Runner.VerifySourceAndState` | tools/deploy_release.py:1229-1268 | Source verification runs in every attempt, checkpointed or not; the method returns only if it found exactly the commit and remote URL of the receipt. |
| `ReleaseRunner.Runner.BuildBoundary` | tools/deploy_release.py:1270-1326 | Build services and trigger are provisioned once; the method returns only if the trigger described or provisioned by this attempt is the checkpointed one. |
| `ReleaseRunner.Runner.AcceptBuild` | tools/deploy_release.py:1328-1358 | The attempt stops at its gate exactly when no build is accepted and none is given; otherwise it returns only with a recorded build ID that is the one given, if one is given. |
| `ReleaseRunner.Runner.ResolveAndEnforce` | tools/deploy_release.py:1360-1407 | Images are resolved once and recorded; supply-chain verification is finished by this attempt, checkpointed or not, and by the protocol precedes the admission policy. |
| `ReleaseRunner.Runner.QuiesceAndApply` | tools/deploy_release.py:1410-1452 | Schedulers are quiesced in every attempt before the platform apply; the outputs applied or read back are the checkpointed ones. |
| `ReleaseRunner.Runner.PauseWork` | tools/deploy_release.py:1410-1426 | Schedulers are quiesced by this attempt, and an open phase records the jobs it paused. |
| `ReleaseRunner.Runner.DeployRuntime` | tools/deploy_release.py:1454-1488 | Agents and gateways are deployed once each, behind the guards of this attempt; the runtime receipt written or read back is the checkpointed one. |
| `ReleaseRunner.Runner.BindAndMigrate` | tools/deploy_release.py:1490-1537 | Bindings and migration run once each, behind the guards of this attempt; the outputs bound or read back are the checkpointed ones. |
| `ReleaseRunner.Runner.StartEvaluation` | tools/deploy_release.py:1539-1552 | On return the receipt has a catalog delivery, and an open phase recorded the one this attempt started. |
| `ReleaseRunner.Runner.EvaluateCatalog` | tools/deploy_release.py:1539-1570 | Evaluation is started once and the attempt stops at the human gate with exactly sixteen phases and every field recorded: source, trigger, build, images, both outputs, runtime receipt and catalog delivery. |
| `ReleaseRunner.Runner.RecheckAndQuiesce` | tools/deploy_release.py:1643-1663 | After the gate the attempt goes on only if its own source verification found the commit and remote URL of the receipt; it has quiesced the schedulers and the receipt names the jobs it paused. |
| `ReleaseRunner.Runner.AwaitPublication` | tools/deploy_release.py:1665-1703 | On return the publication phase is complete and a poll of this attempt found the publication; if the phase was open it records what that poll found. |
| `ReleaseRunner.Runner.Poll` | tools/deploy_release.py:1665-1696 | A publication the loop returns is what its last poll found; it gives up after exactly 240 polls. |
| `ReleaseRunner.Runner.SeedAndEmit` | tools/deploy_release.py:1705-1738 | On return all nineteen phases are complete and durable, and the outputs read back are the checkpointed ones; by the protocol a configured seed job finished before its phase. |
| `ReleaseRunner.Runner.End` | tools/deploy_release.py:1571-1590 | A return and a kill leave the durable receipt, a failure and an interruption persist what memory holds with their status. |
| `ReleaseRunner.Runner.ApplyRelease` | tools/deploy_release.py:1189-1590 | `apply_release` changes nothing exactly when its entry condition fails; every exit leaves its status. Where nothing fails it fails exactly when a completed phase has lost a field or the build given is another one, and otherwise stops at the build gate exactly when no build is accepted or given, or else at the approval gate. |
| `ReleaseRunner.Runner.ResumeAfterCatalogApproval` | tools/deploy_release.py:1593-1768 | `resume_after_catalog_approval` changes nothing exactly when its entry condition fails; a return means deployed, and where nothing fails and the publication is approved it returns. |
| `ReleaseRunner.Campaign` | tools/deploy_release.py:1791-1847 | Any sequence of attempts, ending in any way, leaves a durable receipt that is self-hashed, an exact prefix, with fields that effects of the run found, whole behind the approval request, and after a failure accepted by exactly one entry point. |
| `ReleaseRunner.FieldsMayBeLost` | tools/deploy_release.py:428-458 | Some run leaves an interrupted receipt that may be resumed and whose first phase has lost its commit. |
| `TransactionWrapper.UnwrapsExactly` | tools/target_schema_migrations.py:442-446 | A text unwraps if and only if it is a head, a first `BEGIN;` line, a body, `COMMIT;` and white space. |
| `TransactionWrapper.UnwrappedOf` | tools/target_schema_migrations.py:442-446 | Unwrapping takes exactly the wrapper away, and white space at the end. |
| `Migrations.PendingProceeds` | tools/target_schema_migrations.py:530-543 | The pending loop executes and records all that is pending when every source is exactly wrapped and every name new. |
| `Migrations.PendingRefuses` | tools/target_schema_migrations.py:530-543 | Otherwise it refuses, for a source or a name. |
| `Migrations.RefusalIsExact` | tools/target_schema_migrations.py:482-535 | Without rebuild a schema is refused if and only if the registry is not contiguous, there is an anchor without history, the history is not an exact prefix, there is a history without its anchor, or a pending migration is not exactly wrapped or reuses a name. |
| `Migrations.RebuildRefusalIsExact` | tools/target_schema_migrations.py:482-535 | With rebuild only the first and the fourth of these remain, beside the pending migrations that cannot be executed or recorded. |
| `Migrations.RefusalInFull` | tools/target_schema_migrations.py:482-543 | The refusals without rebuild over versions, the anchor table, the versions, names and sources of the ledger, wrappers and names, without the functions the migrator runs. |
| `Migrations.RebuildRefusalInFull` | tools/target_schema_migrations.py:482-543 | The same with rebuild. |
| `Migrations.ReasonsInOrder` | tools/target_schema_migrations.py:482-529 | The reason of a refusal is the first that applies, in the order of the source. |
| `Migrations.ProceedRecordsAll` | tools/target_schema_migrations.py:536-543 | Whenever a schema proceeds, its ledger is the versions, names and sources of the whole list. |
| `Migrations.BuildMeans` | tools/target_schema_migrations.py:536-543 | Running migrations leaves exactly the tables created or there before and not dropped behind that, and the unwrapped text of each, in order, behind the earlier scripts. |
| `Migrations.RebuildKeepsGood` | tools/target_schema_migrations.py:496-520 | A rebuild of what goes through without one is no different. |
| `Migrations.RebuildStartsOver` | tools/target_schema_migrations.py:502-527 | A rebuild over missing or rewritten history leaves what an empty database would get. |
| `Migrations.LoopGuardsUnreachable` | tools/target_schema_migrations.py:530-535 | The two guards inside the apply loop never fire, with or without rebuild. |
| `Migrations.PendingDecides` | tools/target_schema_migrations.py:530-543 | What the pending loop does behind any applied prefix: it proceeds to exactly the rows and scripts of the whole list, or refuses for a source or a name. |
| `Migrations.ForwardOnly` | tools/target_schema_migrations.py:466-543 | Without rebuild nothing is dropped: the old ledger is a prefix of the new one and the scripts of the schema grow by exactly the pending migrations. |
| `Migrations.ExtensionDeploys` | tools/target_schema_migrations.py:496-543 | A list that extends the deployed one brings the schema to what an empty database would get; the same list changes nothing. |
| `Migrations.DowngradeRefused` | tools/target_schema_migrations.py:511-518 | Deploying an older list over a newer one is refused as rewritten history. |
| `Migrations.RewriteRefused` | tools/target_schema_migrations.py:511-518 | A list that misses, renames or rewrites anything of the recorded history, an applied script included, is refused as rewritten history. |
| `Migrations.LedgerFixesSchema` | tools/target_schema_migrations.py:511-543 | Lists that leave the same ledger build the same schema: a recorded checksum fixes its script. |
| `MigrationRuns.PathIndependence` | tools/target_schema_migrations.py:466-543 | If each release only appends, any sequence of deployments of them, some refused or failed, that ends with the last one going through leaves the ledgers and schemas of deploying the last one directly. |
| `MigrationRuns.RerunChangesNothing` | tools/target_schema_migrations.py:466-543 | Deploying the same registry again changes no ledger and no schema. |
| `MigrationRuns.SameLedgerSameSchema` | tools/target_schema_migrations.py:466-543 | Two databases deployed along any two registries that hold the same ledger for a schema hold the same schema. |
| `MigrationRuns.EmptyAccepts` | tools/target_schema_migrations.py:466-543 | An empty database accepts exactly the registries whose lists are all contiguous, exactly wrapped and distinctly named. |
| `MigrationRuns.AppendedReleaseDeploys` | tools/target_schema_migrations.py:466-543 | Behind any release it appends to, a release whose baselines create their anchors and which never drops them is not refused. |
| `MigrationRuns.ForSchemaMeans` | tools/target_schema_migrations.py:481-482 | The list of a schema holds each of its items of the registry at the place that counting the earlier ones gives, and no more. |
| `MigrationRuns.ForSchemaMembers` | tools/target_schema_migrations.py:481-482 | It holds exactly the items of the registry that are of the schema, as often. |
| `MigrationRuns.SuccessRecordsAll` | tools/target_schema_migrations.py:466-543 | A deployment that goes through records every migration of the registry in its schema's ledger, whatever it found. |
| `MigrationRuns.SuccessRunsAll` | tools/target_schema_migrations.py:466-543 | From nothing, a schema comes of the unwrapped scripts of exactly its items of the registry, in order. |
| `MigrationRuns.Database.SchemaNames` | tools/target_schema_migrations.py:480-480 | Schema names are distinct and exactly those mentioned, in order of first mention. |
| `MigrationRuns.Database.ExecutePending` | tools/target_schema_migrations.py:530-543 | The loop brings ledger and schema to what the pending migrations decide, and touches no other schema. |
| `MigrationRuns.Database.ApplySchema` | tools/target_schema_migrations.py:481-543 | One pass over a schema takes the decision of the specification, with its drops, and touches no other schema. |
| `MigrationRuns.Database.ApplyTargetMigrations` | tools/target_schema_migrations.py:466-543 | The loop succeeds with every schema decided, or raises exactly when some schema is refused; after success the ledger of each schema holds one row for each of its items of the registry, in registry order, and nothing else. |
| `MigrationRuns.Database.Bootstrap` | tools/bootstrap_database.py:1722-1728 | In the caller's transaction a refusal or failure leaves the database as it was, a refusal happens exactly when some schema is refused, and success leaves those ledgers. |
| `Decimal.ValueOfPrint` | tools/load_first_party_skill_packs.py:1003-1012 | Reading back a printed version number gives the number. |
| `SkillPacks.PreparedIsBound` | tools/load_first_party_skill_packs.py:1057-1079 | A pack is bound to exactly its declared agents that are registered and exactly their approved profiles, code repair to its one profile. |
| `SkillPacks.PreparedIsPublishable` | tools/load_first_party_skill_packs.py:1050-1087 | What preparation lets through has distinct keys, none of them the excluded one, and buildable revisions. |
| `SkillPacks.NeverExcluded` | tools/load_first_party_skill_packs.py:1048-1052 | No pack let through has the excluded name in any family. |
| `SkillPacks.ExcludedHeads` | tools/load_first_party_skill_packs.py:1089-1118 | After a load over a sound store the excluded name has a head in a family if and only if it had one before and the family is not `reliability`; in any other family its lineage is untouched. |
| `SkillPacks.NextIsNew` | tools/load_first_party_skill_packs.py:1165-1172 | One more than the maximum is a new version number, larger than every other. |
| `SkillPacks.AdvanceKeepsLinear` | tools/load_first_party_skill_packs.py:1121-1201 | Publishing one pack extends a linear lineage of n versions by exactly the published revision: version n + 1, superseding version n or nothing, and the head; the owner stays, nothing is removed, and no version has two successors. |
| `SkillPacks.AdvanceKeepsUnbranched` | specs/artifacts/operability-schema.target.sql:719-740 | In any lineage, linear or not, publication keeps both uniqueness constraints of the table: one successor per version and one root. |
| `SkillPacks.LinearIsLoadable` | tools/load_first_party_skill_packs.py:1121-1201 | A linear lineage can be converged to a pack if and only if the pack does not change the owner its key is defined with. |
| `SkillPacks.SoundStoreGoes` | tools/load_first_party_skill_packs.py:1015-1202 | Over a store of linear lineages a load goes through if and only if there are packs, each can be bound, and none changes the owner of its key. |
| `SkillPacks.ChangedOwnerStaysRefused` | src/solvan/persistence/operational_guidance_authoring.py:59-88 | Once a key has an owner, every later load of a pack that changes it is refused. |
| `SkillPacks.ChainIsComplete` | tools/load_first_party_skill_packs.py:1155-1172 | In a linear lineage the supersedes chain of version k is k, k - 1 and so on, all the way to 1. |
| `SkillPacks.ClearingKeeps` | tools/load_first_party_skill_packs.py:1103-1118 | Deprecating a head removes nothing and leaves a linear lineage linear and without a head. |
| `SkillPacks.SecondLoadIsSilent` | tools/load_first_party_skill_packs.py:241-330 | A second load over the same packs, agents and profiles publishes nothing and changes nothing: the commit is no part of the digested revision. |
| `SkillResults.HeadIsShown` | tools/load_first_party_skill_packs.py:241-330 | A head is the shipped material if and only if its digest has the pack's content and owner, the bound agents and profiles, and the key family, dot, name, and the pack is one that can be built. |
| `SkillResults.DeliveredPublishes` | tools/load_first_party_skill_packs.py:1121-1201 | A load publishes a pack exactly when its content, owner, agents or profiles differ from those of the head or there is no head; behind it every head shows its pack. |
| `SkillResults.PublishedIsPack` | tools/load_first_party_skill_packs.py:1121-1201 | Every published revision is a bound pack under its key, with its content and owner. |
| `SkillResults.BoundInFull` | tools/load_first_party_skill_packs.py:1057-1079 | A bound pack is published under exactly its registered agents, family by family, and exactly the profiles they lend, for code repair the one. |
| `SkillResults.BindsExactly` | tools/load_first_party_skill_packs.py:1057-1079 | A pack can be bound if and only if it is well formed under its directory's name and its registered agents lend some profile. |
| `SkillResults.PreparesAll` | tools/load_first_party_skill_packs.py:1048-1087 | Preparation lets through every pack not named `ci-failure-triage`, bound, in order, and nothing else. |
| `SkillResults.RefusesExactly` | tools/load_first_party_skill_packs.py:1048-1087 | Preparation is refused if and only if such a pack cannot be bound or two share a key. |
| `SkillLoader.Loader.Publish` | tools/load_first_party_skill_packs.py:899-1000 | The calls on the store go through exactly when the store accepts the revision: owner, draft, predecessor, no other successor, and a head that is the predecessor or vacant; a return means the revision is the approved head; other keys are untouched. |
| `SkillLoader.Loader.CreateDraft` | src/solvan/persistence/operational_guidance_authoring.py:59-192 | A draft is refused exactly for another owner, a missing predecessor, a second successor or root, or different material under its version. |
| `SkillLoader.Loader.Approve` | src/solvan/persistence/operational_guidance_lifecycle.py:109-214 | A submitted revision becomes the head exactly when the head is absent, is its predecessor, or is vacant behind a deprecated or retired one. |
| `SkillLoader.Loader.Maximum` | tools/load_first_party_skill_packs.py:1003-1012 | The maximum release number, refused exactly when some version is not a number. |
| `SkillLoader.Loader.PrepareLoop` | tools/load_first_party_skill_packs.py:1050-1087 | The binding loop computes the preparation of all packs, or refuses. |
| `SkillLoader.Loader.LoadPack` | tools/load_first_party_skill_packs.py:1121-1201 | A converged pack is left alone; any other is published as version 1 or as a successor; afterwards it is converged. It raises exactly when the lineage cannot be converged, as far as no call fails. |
| `SkillLoader.Loader.PublishLoop` | tools/load_first_party_skill_packs.py:1120-1202 | After the loop every bound pack is converged, exactly the stale ones were published in pack order, each extending its lineage by exactly the published revision, one above its maximum and linked to its head or maximum; every other lineage is untouched. |
| `SkillLoader.Loader.Load` | tools/load_first_party_skill_packs.py:1015-1202 | `load`: a raise rolls everything back; otherwise every bound pack's head holds its content, owner, agents and profiles, a pack is published exactly when its head did not, each published revision has extended its lineage by itself alone, the excluded head is cleared and every other lineage is unchanged. Over any store it raises exactly when packs or store do not let it go through, as far as no call fails. |
| `SkillLoader.Loader.LoadAgain` | tools/load_first_party_skill_packs.py:1015-1202 | Loading the same packs again at another commit publishes nothing and leaves the store as the first load made it. |
| `SkillLoader.Loader.Releases` | tools/load_first_party_skill_packs.py:1205-1231 | Over any sequence of loads with changing packs from an empty store, every lineage is linear at every moment and loses no revision, and each load extends exactly the lineages of what it published, from n versions to version n + 1, superseding version n, as the head. |
| `SkillLoader.RefusalStays` | tools/load_first_party_skill_packs.py:1050-1087 | A refusal for one pack refuses the whole preparation. |
| `Png.Pack32` | tools/generate_brand_assets.py:216-219 | Packing a number in four bytes and unpacking it is the identity. |
| `Png.UnfilterInPlace` | tools/generate_brand_assets.py:184-203 | The in-place byte loop reconstructs a scanline, or raises, as specified. |
| `Png.DecodeScanlines` | tools/generate_brand_assets.py:174-206 | The scanline loop accumulates the specified pixels, or raises the specified error. |
| `Png.DecodePng` | tools/generate_brand_assets.py:153-207 | The decoder, chunk loop and scanline loop, computes the specified image or error on every input; `PngProofs.DecodeInFull` says which. |
| `PngProofs.UnfilterInverts` | tools/generate_brand_assets.py:184-203 | The decoder inverts the filters None, Sub, Up, Average and Paeth, written out as sections 6.2 to 6.6 of RFC 2083 give them, on a scanline. |
| `PngProofs.PaethIsNearest` | tools/generate_brand_assets.py:194-201 | The Paeth predictor is a neighbour nearest to left + up - upper left, ties going to left, then up. |
| `PngProofs.ScanlinesInvert` | tools/generate_brand_assets.py:179-206 | Any choice of these filters per scanline is inverted. |
| `PngProofs.ParseInverts` | tools/generate_brand_assets.py:161-170 | Any list of chunks is read back from its bytes. |
| `PngProofs.DecoderInverts` | tools/generate_brand_assets.py:153-207 | Whatever the filters, however the stream is cut into IDAT chunks and whatever other chunks stand among them, the decoder returns the image. |
| `PngProofs.AnyFiltersAnySplit` | tools/generate_brand_assets.py:153-207 | The same for zlib's own output, split at will between an IHDR and an IEND chunk. |
| `PngProofs.RoundTrip` | tools/generate_brand_assets.py:210-230 | Decoding what was encoded returns the image if and only if its pixel data fits its shape, which every array of width x height x 4 bytes does. |
| `PngProofs.DecodedImageFits` | tools/generate_brand_assets.py:153-207 | Every decoded image has pixel data that fits, so it survives being encoded again. |
| `PngProofs.DecodeInFull` | tools/generate_brand_assets.py:153-179 | Which error every input raises, and the header and data the image is made of: the signature, the last header of at least ten bytes, depth 8 and colour type 6, and all image data joined. |
| `PngProofs.CollectInFull` | tools/generate_brand_assets.py:161-173 | The chunk loop collects the last header and the data of all image chunks, and raises exactly for a header of less than ten bytes. |
| `PngProofs.TornTail` | tools/generate_brand_assets.py:161-170 | Behind whole chunks one to three bytes raise, and a torn chunk is taken as far as it goes. |
| `PngProofs.UnfilterFails` | tools/generate_brand_assets.py:184-203 | A scanline is reconstructed if and only if its filter type is at most 4 and its bytes are there, for type 0 up to four fewer; otherwise which error it raises. |
| `PngProofs.RawRowsAt` | tools/generate_brand_assets.py:211-215 | The encoder writes a zero before each row and then exactly its bytes. |
| `PngProofs.EncodedInFull` | tools/generate_brand_assets.py:210-230 | The encoded file, byte by byte: signature, header, one chunk of compressed rows and the end, lengths big-endian and each CRC over kind and payload. |
| `PngProofs.UnpackedIsBigEndian` | tools/generate_brand_assets.py:165-165 | Four bytes are read most significant first. |
| `Palette.FindNearest` | tools/generate_brand_assets.py:247-254 | The role and palette loops find the first role with a colour at the least sum of squared differences. |
| `Palette.NearestIsNearest` | tools/generate_brand_assets.py:247-254 | The role found is the first of those whose nearest colour is nearest of all. |
| `Palette.SnapsToNearest` | tools/generate_brand_assets.py:241-255 | A pixel becomes the canonical colour of a role that has a colour nearest to it in either palette; alpha is kept, or full once composited. |
| `Palette.OverBlends` | tools/generate_brand_assets.py:242-246 | Integer compositing stays between the channel and the ink, and is the channel at full alpha and the ink at none. |
| `Palette.OverIsFloor` | tools/generate_brand_assets.py:242-246 | Compositing is the weighted sum of channel and ink by the alpha, divided by 255 and rounded down. |
| `Palette.SnapInFull` | tools/generate_brand_assets.py:240-255 | One pixel, in full: the canonical colour of the first role with a colour nearest to the one it shows over the ink, and its alpha or 255. |
| `Palette.SnapInPlace` | tools/generate_brand_assets.py:240-255 | The pixel loop gives every pixel, for itself, the canonical colour of the first role nearest to the colour it shows, or raises exactly when a last pixel is not whole. |
| `Palette.RecolorRaster` | tools/generate_brand_assets.py:233-256 | Decode, snap and encode compute the specified file or error. |
| `PaletteProofs.IdempotentExactly` | tools/generate_brand_assets.py:236-255 | Snapping is idempotent, transparent or opaque, if and only if for every role the first role with its canonical colour has that colour as canonical, or an earlier role has its legacy colour. |
| `PaletteProofs.SeparateIsStable` | tools/generate_brand_assets.py:236-238 | No canonical colour occurring in another role suffices. |
| `PaletteProofs.ShippedIsStable` | tools/generate_brand_assets.py:145-146 | The shipped palettes satisfy it. |
| `PaletteProofs.RecolorTwice` | tools/generate_brand_assets.py:233-256 | A regenerated raster regenerates to itself. |
| `PaletteProofs.RecoloredDecodes` | tools/generate_brand_assets.py:233-256 | A regenerated raster decodes to the same shape with every pixel snapped. |
| `PaletteProofs.RecolorFails` | tools/generate_brand_assets.py:233-256 | Regenerating a raster raises what decoding raises, a short pixel for pixel data that is no multiple of four, and otherwise only for what does not fit four bytes. |
| `BrandAssets.IcoLocatesPng` | tools/generate_brand_assets.py:259-265 | The icon's directory entry gives exactly the length and offset of the image it holds. |
| `BrandAssets.IcoInFull` | tools/generate_brand_assets.py:259-265 | The icon file, field by field: one icon of 16 by 16, one plane, 32 bits, little-endian length and offset, then the image. |
| `BrandAssets.Workspace.Run` | tools/generate_brand_assets.py:276-299 | The loop writes what generating specifies, or in check mode reports what drifted and writes nothing. |
| `BrandAssets.Workspace.GenerateThenCheck` | tools/generate_brand_assets.py:276-299 | A check after a generate reports nothing. |
| `BrandAssets.NothingDrifts` | tools/generate_brand_assets.py:276-299 | After any generate run no text, raster or icon drifts. |
| `BrandAssets.GeneratedInFull` | tools/generate_brand_assets.py:276-299 | After a generate run every text is its content and every raster its recolouring of the file as it was, with its own flag. |
| `BrandAssets.IconWrapsRaster` | tools/generate_brand_assets.py:292-296 | The icon generated holds the regenerated raster. |
| `BrandAssets.DriftInFull` | tools/generate_brand_assets.py:276-299 | A check reports exactly the assets whose file is absent or not what it should be. |
| `BrandAssets.CheckIsFixedPoint` | tools/generate_brand_assets.py:276-299 | A check passes on exactly the files that generating leaves as they are. |
| `BrandAssets.ShippedAreWellOrdered` | tools/generate_brand_assets.py:115-143 | No shipped path is generated twice, and the icon comes behind the raster it wraps. |
| `BrandAssets.ShippedKinds` | tools/generate_brand_assets.py:115-143 | Of the shipped rasters exactly the touch icon is composited over the ink, and the one icon is wrapped around the 16 pixel favicon. |
| `RateBudget.WindowBound` | apps/actuator/local_policy.py:80-92 | When moments arrive out of order by at most D, every half-open window of length W - D of every history holds at most `limit` accepted claims; D = 0 gives the full window. |
| `RateBudget.LongerWindowsExceed` | apps/actuator/local_policy.py:80-92 | At every limit of two or more, every window and every disorder D > 0, one history exceeds the limit in every window longer than W - D, so W - D cannot be improved. |
| `RateBudget.FullWindowIsTight` | apps/actuator/local_policy.py:80-92 | At every limit of at least one, moments in order exceed it in every window longer than W. |
| `RateBudget.LimitOneHoldsFullWindow` | apps/actuator/local_policy.py:80-92 | At a limit of one the full window holds at most one accepted claim whatever the disorder. |
| `RateBudget.RefusedExactly` | apps/actuator/local_policy.py:80-92 | With moments in order a claim is refused exactly when `limit` accepted claims lie in the last window. |
| `RateBudget.DroppedWasExpired` | apps/actuator/local_policy.py:84-86 | The deque only drops claims that had left the window of a claim made. |
| `RateBudget.ActionRateBudget.Claim` | apps/actuator/local_policy.py:80-92 | `claim` pops, decides and appends as the history of all claims specifies. |
| `RateBudget.EveryCeilingReads` | apps/actuator/local_policy.py:95-117 | Every ceiling of at least one, with white space around it, is configured as written if it has at most 4300 digits, Python's limit for converting texts, and is invalid otherwise. |
| `RateBudget.ReadsExactly` | apps/actuator/local_policy.py:95-117 | A ceiling is read if and only if, between white space, there is an optional plus sign and at most 4300 digits with single underscores between them, not all zero; it is their value. White space alone is no configuration, everything else invalid. |
| `RateBudget.ReadBudgetLimit` | apps/actuator/local_policy.py:95-117 | No configuration yields a ceiling below one. |
| `CrashFixture.Serializable` | tools/actuator_crash_fixture.py:63-93 | Every interleaving of lock-holding transactions, deaths, failures and retries has the effect of its committed calls, none of which the tables refuse, made whole, one after another. |
| `CrashFixture.ExactlyOnce` | tools/actuator_crash_fixture.py:63-93 | Over every run the generation has advanced once per distinct committed key and once per distinct recorded action, no action is recorded under two keys, and the before/after pairs tile the interval without gap or overlap. |
| `CrashFixture.ActionsTakeEffectOnce` | tools/actuator_crash_fixture.py:63-93 | Over every run from any state an action takes effect at most once, whatever keys it is called with. |
| `CrashFixture.ReconcilesExactly` | tools/actuator_crash_fixture.py:95-112 | Over every run reconciliation confirms exactly the key and action pairs that were first to commit their key, with the version that commit led to. |
| `CrashFixture.RecordsInFull` | tools/actuator_crash_fixture.py:72-90 | Over every run the records are those of the first commits of the keys, each with its action, request and the generations before and after it, counted by the keys committed earlier. |
| `CrashFixture.RefusesExactly` | specs/artifacts/schema.sql:2326-2340 | A call is refused if and only if there is no generation row, or its record is new and no record for its action leaves the constraints of the tables intact. |
| `CrashFixture.TablesAlwaysHold` | specs/artifacts/schema.sql:2326-2340 | The constraints of the tables hold at every moment of every run. |
| `CrashFixture.Connector.Execute` | tools/actuator_crash_fixture.py:72-90 | The statements behind the lock take effect whole or not at all; a refused call changes nothing, and a return means it was not refused. |
| `CrashFixture.Connector.Mutate` | tools/actuator_crash_fixture.py:63-93 | A return means the call was made whole; a kill or a failing database call anywhere leaves it whole or undone. A refused call changes nothing: the generation row is absent, or, under a new key, the action is recorded under another one or the next generation exceeds its column. When nothing else fails it raises exactly when it is refused. |
| `CrashFixture.Connector.Retry` | tools/actuator_crash_fixture.py:63-93 | Retrying a call any number of times has the effect of at most one. |
| `CrashFixture.VersionsDiffer` | tools/actuator_crash_fixture.py:44-44 | Different generations have different version texts. |
| `Preimage.BuildPreimage` | tools/check_relay_contract.py:147-159 | The encoding loop builds the preimage of the looked-up values. |
| `Preimage.PreimageGrows` | tools/check_relay_contract.py:149-159 | A preimage is the version tag and then, between bars, `-1:` for no value and length, colon, bytes for any other. |
| `Preimage.DecodeInvertsExactly` | tools/check_relay_contract.py:149-159 | A total decoder inverts the encoding: a text decodes to a list of optional byte strings if and only if it is that list's preimage, separators inside values included. |
| `Preimage.PreimagesDiffer` | tools/check_relay_contract.py:149-159 | Different value lists have different preimages. |
| `Scoring.CountOne` | tools/run_model_quality_evals.py:123-153 | One turn of the counting loop adds exactly the attempt's tally to the twelve counters. |
| `Scoring.ScoreAttempts` | tools/run_model_quality_evals.py:112-172 | The check, the counting loop and the gates compute the specified score. |
| `ScoringResults.TallyMeans` | tools/run_model_quality_evals.py:123-153 | What one attempt adds to each of the twelve counters, as sizes of sets of keys the case expects and the verdict names. |
| `ScoringResults.TotalsAdd` | tools/run_model_quality_evals.py:119-153 | Every counter of a list of attempts is the sum of those of its parts. |
| `ScoringResults.MetricsInFull` | tools/run_model_quality_evals.py:154-166 | Each metric times its denominator is its numerator, the two optional denominators being at least one. |
| `ScoringResults.PassesExactly` | tools/run_model_quality_evals.py:26-35 | A pass, in whole numbers: 9 of 10 predicted observations right, 17 of 20 expected ones found, 19 of 20 labels right, 4 of 5 first and 19 of 20 among the first three, 19 of 20 valid at once, all after repair, and every required disclosure, at least one. |
| `ScoringResults.LastCaseCounts` | tools/run_model_quality_evals.py:113-113 | Of cases under one identifier the last is scored. |
| `ScoringProofs.CompleteExactly` | tools/run_model_quality_evals.py:114-117 | A list is complete if and only if it attempts each of repetitions 1 to 3 of every case exactly once and nothing else. |
| `ScoringProofs.ScoredExactly` | tools/run_model_quality_evals.py:112-165 | Attempts are scored if and only if they are complete and some observation is expected; then every metric lies in [0, 1] and top-1 is at most top-3. |
| `ScoringProofs.ScoreIsUnordered` | tools/run_model_quality_evals.py:112-172 | The score does not depend on the order of the attempts. |
| `ScoringProofs.PassMeans` | tools/run_model_quality_evals.py:155-172 | A pass means every attempt is schema-valid after repair, every required uncertainty was disclosed, and some was required. |
| `ScoringProofs.PerfectPasses` | tools/run_model_quality_evals.py:112-172 | Flawless attempts pass exactly when some uncertainty is required. |
| `ScoringProofs.ValidLabels` | tools/run_model_quality_evals.py:52-67 | A valid case loses no label to another. |
| `ScoringProofs.VerdictLabels` | tools/run_model_quality_evals.py:87-94 | A valid verdict's labels are its classifications, one key each. |
| `ReceiptReference.ParsesExactly` | platform/guidance_evaluation.py:26-40 | A reference is accepted as a triple if and only if it is `gs://`, bucket, slash, object name, `#generation=` and generation, the bucket holds no slash, no segment of the name is `..`, the generation is digits, and none is empty. |
| `ReceiptReference.PrintedParses` | platform/guidance_evaluation.py:26-40 | Every well-formed triple parses back, even one whose object name contains the generation mark. |
| `ReceiptReference.NotExactExactly` | platform/guidance_evaluation.py:26-32 | A reference is not exact if and only if it lacks the scheme or the mark; all else that is refused is invalid. |
| `ReceiptReference.SegmentsAreExact` | platform/guidance_evaluation.py:38-38 | The segments checked for parent references are the pieces between the slashes, and nothing else. |

## Left out

- Progress of the agent and release runners after failures: both get stuck in some states (a hard kill leaves IN_PROGRESS), so what is claimed is that an attempt in which nothing fails goes through, and exactly when.
- Argument parsing, printing, YAML and JSON text, clocks, random identifiers and file permissions.
- gcloud, Terraform, HTTP, GCS and PostgreSQL calls: each is a nondeterministic step that may succeed, fail, or fail after taking effect.
- SHA-256: a digest is represented by the value digested, so equal digests mean equal values; tampering with a receipt file between attempts is not modelled, only its refusal.
- The name, identity, gateway and regular-expression checks of a listed agent resource are summarised in one observed Boolean; its other stable fields are one text.
- Argument, URL and acknowledgement checks before the first effect of a deployment or release, which refuse without effect.
- Generated variable files of the release: reading them back is a step that may raise, and does not where nothing fails.
- SQL scripts of migrations: each touches its own schema only and is known by its text and the tables it creates and drops; advisory locks are not modelled because one deployment runs at a time.
- The content of a skill revision beyond what tells revisions apart, and the evaluation, import and role bindings around its approval, which are steps that may raise.
- The texts of the SVG builders, which are parameters here.
- Floating point: moments, thresholds and metrics are reals.
- Python texts beyond ASCII: digits other than 0 to 9, which `isdigit` and `int` accept too, and white space outside ASCII; the preimage is modelled on UTF-8 bytes.
- Version texts of more than 4300 digits in a skill-pack lineage, which Python refuses to convert; ceilings of the mutation budget model that limit.
- Characters and lengths that a database column or identifier rejects.
- Threads of one budget: the lock makes claims one sequence, and the sequence is what is modelled.
- CrashFixture.Connector.Mutate: models one process at a time, because a second one waits for the row lock; interleavings are those of `CrashFixture.Serializable`.
- BrandAssets.Workspace.Run: the three loops of the source are one loop over their concatenated, sorted lists.
- Png.DecodePng: the bytes read so far are sequences, and only the scanlines are arrays, so sharing of one buffer between scanlines is not captured.
- SkillLoader.Loader.Load: lineages are values of one store field, so aliasing between rows is not captured.
- The kill switch, audit sinks, dry runs and undo plans of the actuator, and `observe` of the fixture, which only reads.
- live_attempts and write_receipt of the quality evaluation, and `verify` of the guidance verifier.
- Constant tables, grant plans, drift checkers and the contrast mathematics of the design system: finite data or fixed inputs without a deep property.
