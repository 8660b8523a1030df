# Verification of openbao-operator's decision logic

This project models the parts of openbao-operator that decide something irreversible, and
proves what those decisions promise. It is written for Dafny 4.11; `dafny verify dfyconfig.toml`
checks all of it.

| area | modules | what is proved |
|---|---|---|
| CRD compatibility checker | Float64, CelRules, JsonValues, CrdSchema, CrdSnapshot, CrdPaths, CrdCompare, CrdSoundness, CrdRelease, CrdBoundaries | a release that passes rejects no resource that was valid, unless one of a stated list of changes that the tool cannot see was made |
| Restore submission | RestoreRequest, RestoreProtocol, RestoreSafety, RestoreLifecycle, RestoreWitness | at most one destructive submission per request, in every run |
| Restore staging | RestoreStaging | claimed, hashed, stored and submitted bytes are the same bytes |
| Backup upload | BackupPipe | a published backup is the whole snapshot |
| Image garbage collection | OciGraph, OciTermination, OciRun, OciSearch, OciResolver, OciResolve, OciCollection | what is kept is the least closed set, and resolving again after any deletions gives the same result |
| Deletion planning | DeletionPlan, DeletionPlanner | the greedy plan is maximum and fair to tagged versions |
| Configuration rendering | Substitution, ConfigRender | sequential replacement is simultaneous substitution |
| Nightly test plan | KubernetesVersions, NightlyPlan, NightlyProgress | when an accepted manifest can always be planned, and that rotation is fair |
| API policy, performance runs, coverage | ApiPolicy, PerfEscalation, CoverageProfile | order independence, exact escalation, conservative merging |

`Strings` and `Options` hold what several areas share.

## How to read the model

- Code that updates state step by step is a class or a method with loops, proved against a
  function or predicate that is defined independently of it. Protocols between processes are
  state machines whose runs are sequences of states.
- Clocks, the network, object stores, the Kubernetes API and the container registry are
  parameters or steps. An expired context is a failed read or a process that stops.
- SHA-256 is an uninterpreted function. `sort.Slice` is an insertion sort of which only "an
  ordered permutation" is used.
- Validation keywords have the meaning of section 5 of draft-wright-json-schema-validation-00,
  with boolean `exclusiveMinimum` and `exclusiveMaximum`. Referrers are found by the "Referrers
  Tag Schema" of the OCI Distribution Specification v1.1.
- The CRD theorem is about structural schemas: objects are closed unless they keep unknown
  fields, `properties` and `additionalProperties` exclude each other, untyped nodes have no
  `items`, composition branches do not look deeper into the value, and names contain no `.`, do
  not end in `]` and are not `*` or `not`. It only asks this of the one version it speaks about.
- Its other hypothesis, `CrdRelease.NothingHidden`, lists what the tool does not compare: an added
  allOf branch or first anyOf branch, changes below oneOf and not, names that are required but not
  declared, new properties of an object that keeps unknown fields, a first item schema, and integer
  limits that float64 cannot tell apart. The third, `CrdSoundness.FreshRulesGuarded`, concerns only
  reviewed restore rules that the new release adds. Both are sufficient; that they are needed is
  shown for added allOf branches, for limits and for the restore rules, by counterexample.
- Canonical JSON text is treated as the value it stands for, a CEL rule outside the five
  reviewed ones as an opaque predicate, and the NUL-separated node key as a triple.
- In the restore protocol any number of executor processes run at once; a container restart or
  a replacement Pod is another process. Every write is conditional on the version its writer
  read, so reads may be stale and answers may be lost. Runs also contain
  arbitrary writes that the admission policy lets through; only a controlled run of
  `RestoreLifecycle` does not.

## Where the code does less than it could be taken to promise

- The comparison of integer limits goes through float64: a tightened limit passes exactly when both
  convert to the same number (`CrdBoundaries.BoundVerdictIsExact`, `CrdBoundaries.RoundingHidesTightening`).
- The exemption for the restore validation rules does not look at the old schema. It is sound
  when the old request schema rules out the field that an added rule is about
  (`CrdBoundaries.FreshExemptionIgnoresOldSchema`, `CrdBoundaries.FreshExemptionCanReject`).
- An added composition branch is reported as an optional field
  (`CrdBoundaries.AddedCompositionIsNotBlocked`).
- The registry scan trusts the media types in the manifests it keeps
  (`OciCollection.DishonestMediaTypeLosesChild`).
- The recursion of the registry scan looks referrer names up untrimmed, so it need not end on names
  with surrounding white space (`OciTermination.MarkingEndsIff`, `OciTermination.SelfReferrerRuns`).
- Candidates are told by the untrimmed name too, so where the scan does end, a kept referrer index
  with such a name is a candidate (`OciCollection.ReferrerIsCandidateIff`,
  `OciCollection.UntrimmedReferrerIsLost`).
- A restore that target cleanup ends as Failed may have been submitted; the claim tells
  (`RestoreWitness.CleanupCanFailAfterSubmission`). Without a claim nothing was submitted, as long as
  no other writer of the status puts the request back into Running; the modelled admission rule
  protects the claim, not the phase (`RestoreWitness.ReopenedCanSubmit`).
- The manifest validator does not check that rotating lane sets refer to every compatibility
  version, so nights can fail and versions can be left out for good; `NightlyProgress.AlwaysPlannableIff`
  and `NightlyProgress.EverPlannedIff` give the exact conditions.
- `renderConfig` writes its output before the residual check, so a failing call leaves the file.

## Model

| member | source | states |
|---|---|---|
| `CrdRelease.CompatibilitySoundness` | hack/tools/crd_compatibility/main.go:182-204 | Main theorem. If the comparison of two releases has no breaking or review change, every served version is still served, and every resource valid under its old spec and status schemas is valid under the new ones, unless something got stricter that the comparison does not look at |
| `CrdRelease.CheckReleases` | hack/tools/crd_compatibility/main.go:90-113 | The tool from loading to verdict: what enforce mode accepts carries every such resource over |
| `CrdRelease.Transfers` | hack/tools/crd_compatibility/main.go:442-565 | At every place of the old tree, a value valid there is valid at the same place of the new tree; induction over value and path |
| `CrdRelease.FieldTransfers` | hack/tools/crd_compatibility/main.go:288-334 | The same for one field of an object: a property, an additional property, or an unknown field that is kept |
| `CrdRelease.BranchTransfers` | hack/tools/crd_compatibility/main.go:322-333 | The same for one branch of allOf, anyOf or oneOf |
| `CrdRelease.ComposedTransfers` | hack/tools/crd_compatibility/main.go:322-333 | The same for all composition keywords of a node together |
| `CrdRelease.RootTransfers` | hack/tools/crd_compatibility/main.go:270-286 | The same for the spec or the status of one served version, present or absent on either side |
| `CrdRelease.PlaceKept` | hack/tools/crd_compatibility/main.go:442-483 | An unblocked comparison keeps every old place, and the two nodes there differ only compatibly |
| `CrdRelease.RequiredKept` | hack/tools/crd_compatibility/main.go:442-483 | A field that the new tree requires below an old place was already required there, although the comparison only sees it as an added node |
| `CrdRelease.ReleaseMirrors` | hack/tools/crd_compatibility/main.go:221-286 | The flat, keyed snapshot of a release has a node for a path exactly when the schema tree has that place, and it is the node of that place |
| `CrdRelease.Provenance` | hack/tools/crd_compatibility/main.go:833-835 | A node found under a key was produced by exactly the place that the key names: no other CRD, version or path collides with it |
| `CrdRelease.LoadSchemaNodes` | hack/tools/crd_compatibility/main.go:221-268 | Unnamed CRDs and repeats of an earlier name are skipped; all others contribute their nodes, sorted; fails exactly when there are none |
| `CrdRelease.SortNodes` | hack/tools/crd_compatibility/main.go:847-857 | An ordered permutation of the nodes |
| `CrdRelease.CollectCrdNodes` | hack/tools/crd_compatibility/main.go:270-286 | The spec and status trees of every served version, in order, appended to one list |
| `CrdSnapshot.NodeList.CollectNode` | hack/tools/crd_compatibility/main.go:288-334 | The recursion that appends to the shared slice leaves it extended by the flattened tree |
| `CrdSnapshot.ListChildren` | hack/tools/crd_compatibility/main.go:307-333 | The recursive calls of one node: properties in name order, then items, additional properties and composition branches |
| `CrdPaths.ChildPath` | hack/tools/crd_compatibility/main.go:837-845 | The parent path and the last step can both be read back from a child path |
| `CrdPaths.RenderInjective` | hack/tools/crd_compatibility/main.go:837-845 | Two places with clean names never share a path |
| `CrdPaths.NodeToSteps` | hack/tools/crd_compatibility/main.go:288-334 | Every flattened node is a place of the tree |
| `CrdPaths.StepsToNode` | hack/tools/crd_compatibility/main.go:288-334 | Every place of the tree is a flattened node |
| `CrdCompare.CompareSnapshots` | hack/tools/crd_compatibility/main.go:442-483 | Reports exactly the changes of every key of either snapshot, whatever order the maps are visited in |
| `CrdCompare.CompareNode` | hack/tools/crd_compatibility/main.go:485-565 | Reports exactly the header, enum, constraint and CEL differences of two nodes |
| `CrdCompare.CompareConstraints` | hack/tools/crd_compatibility/main.go:661-691 | Visits the keywords of both nodes once each in name order |
| `CrdCompare.AddedUnderOptionalAncestor` | hack/tools/crd_compatibility/main.go:820-831 | Finds whether some ancestor is itself new and optional, as the recursive definition says |
| `CrdCompare.HasBlockingChanges` | hack/tools/crd_compatibility/main.go:803-810 | True exactly when some change is not compatible |
| `CrdCompare.Enforce` | hack/tools/crd_compatibility/main.go:90-113 | Enforce mode accepts exactly the unblocked comparisons |
| `Float64.Float64Monotone` | hack/tools/crd_compatibility/main.go:714-729 | The conversion through float64 never swaps two integers |
| `Float64.RoundingIsNearest` | hack/tools/crd_compatibility/main.go:714-729 | No number of 53 significant bits is closer to an integer than its conversion |
| `Float64.RoundingIsRepresentable` | hack/tools/crd_compatibility/main.go:714-729 | The conversion has 53 significant bits |
| `Float64.ExactFloat64` | hack/tools/crd_compatibility/main.go:714-729 | Integers of magnitude up to 2^53 are unchanged |
| `CrdSoundness.RelaxedNode` | hack/tools/crd_compatibility/main.go:485-565 | Two nodes that differ only compatibly: what the old one accepts without looking inside, the new one accepts |
| `CrdSoundness.RelaxedLimits` | hack/tools/crd_compatibility/main.go:693-731 | The same for all scalar keywords together |
| `CrdSoundness.RelaxedNumber` | hack/tools/crd_compatibility/main.go:693-731 | The same for minimum, maximum, their exclusive flags and multipleOf, which interact |
| `CrdSoundness.RelaxedEnum` | hack/tools/crd_compatibility/main.go:623-659 | The same for enumerations |
| `CrdSoundness.RelaxedCel` | hack/tools/crd_compatibility/main.go:520-564 | The same for CEL rules, opaque except for the reviewed ones |
| `CelRules.TlsGuardPreservesOutcomes` | hack/tools/crd_compatibility/main.go:570-587 | The reviewed TLS rewrite accepts exactly the same values: the added presence test only replaces an evaluation error |
| `CelRules.FreshRulesAcceptLegacy` | hack/tools/crd_compatibility/main.go:589-621 | Each reviewed restore rule accepts every request without the field it is about |
| `CrdBoundaries.SameSnapshotIsSilent` | hack/tools/crd_compatibility/main.go:442-483 | A snapshot compared with itself reports nothing |
| `CrdBoundaries.BoundVerdictIsExact` | hack/tools/crd_compatibility/main.go:693-731 | For all integer bounds: the verdict is compatible if and only if the bound was not tightened or float64 cannot tell the two apart |
| `CrdBoundaries.SmallBoundVerdict` | hack/tools/crd_compatibility/main.go:693-731 | Up to 2^53 the verdict is compatible if and only if the bound was not tightened |
| `CrdBoundaries.RoundingHidesTightening` | hack/tools/crd_compatibility/main.go:714-729 | Counterexample beyond 2^53: a tightened bound is reported as relaxed |
| `CrdBoundaries.AddedOptionalIsNotBlocked` | hack/tools/crd_compatibility/main.go:455-470 | Adding one optional node never blocks |
| `CrdBoundaries.FreshExemptionIgnoresOldSchema` | hack/tools/crd_compatibility/main.go:589-621 | Counterexample: the restore exemption accepts the added rule whatever the old schema was |
| `CrdBoundaries.FreshExemptionCanReject` | hack/tools/crd_compatibility/main.go:589-621 | Counterexample, second half: a plain request schema with targetLifecycle accepts a request, the comparison does not block, and the new schema rejects it |
| `CrdBoundaries.AddedCompositionIsNotBlocked` | hack/tools/crd_compatibility/main.go:322-333 | Counterexample: an added allOf branch is reported as an optional field |
| `CrdBoundaries.AddedCompositionCanReject` | hack/tools/crd_compatibility/main.go:322-333 | Counterexample, second half: that branch rejects a value that was valid |
| `CrdBoundaries.RepositoryShapesArePlain` | config/crd/bases/openbao.org_openbaotenants.yaml:72-76 | Quantities, free-form fields and doubled enumerations, the unusual shapes of the CRDs in this repository, are within the theorem |
| `RestoreSafety.AtMostOneSubmission` | cmd/bao-backup/restore_flow.go:73-114 | In every interleaving of executors, crashes, restarts, Pod replacements and writes, no restore request is submitted twice |
| `RestoreSafety.SubmissionMatchesClaim` | cmd/bao-backup/restore_claim.go:102-166 | For every submission, also one after the request is gone, an earlier state of the run held the request with a claim by that Pod, for that process and for bytes of that digest and size; its Job owns that Pod |
| `RestoreSafety.ClaimWasStored` | internal/service/restore/submission_claim.go:39-45 | Whoever holds an acknowledged claim stored it at a definite earlier state of the run |
| `RestoreSafety.OrphanNeverSubmits` | internal/service/restore/submission_claim.go:15-48 | Once a claim is stored without a live holder, no submission for that request ever follows |
| `RestoreSafety.CrashAfterClaimOrphans` | cmd/bao-backup/restore_flow.go:97-104 | A process that stops between claim and POST leaves such a claim |
| `RestoreSafety.LostAcknowledgementOrphans` | internal/service/restore/submission_claim.go:41-45 | So does a stored claim whose answer was lost |
| `RestoreSafety.ClaimIsPermanent` | config/policy/openbao-protect-restore-execution.yaml:116-119 | A stored claim never changes while its request exists |
| `RestoreLifecycle.SubmissionByRecordedJob` | cmd/bao-backup/restore_claim.go:116-144 | For every submission, when it was claimed the request recorded its Job as the Job UID and expected its bytes, and does so while it exists |
| `RestoreLifecycle.JobUidIsWriteOnce` | internal/service/restore/execution.go:93-105 | A recorded Job UID is never replaced |
| `RestoreLifecycle.ExcludedNeverSubmits` | internal/service/restore/execution.go:149-160 | In every run, whoever else writes: a request without a claim that is being deleted or has left the Running phase was never submitted and never will be, unless somebody else's write opens it again |
| `RestoreRequest.ExcludedIsClosed` | internal/service/restore/execution.go:149-160 | restoreSubmissionExcluded on a failed or deleting request is such a case |
| `RestoreLifecycle.FailedNeverSubmits` | internal/service/restore/manager_status.go:30-71 | When failRestore is stored outside target cleanup, nothing was or will be submitted |
| `RestoreLifecycle.FailedUnclaimedNeverSubmits` | internal/service/restore/target_cleanup.go:174-184 | Whoever stored Failed, target cleanup included: without a claim nothing was or will be submitted, unless somebody else's write opens the request again |
| `RestoreWitness.CleanupCanFailAfterSubmission` | internal/service/restore/target_cleanup.go:174-184 | Counterexample with a claim: target cleanup stores Failed after the snapshot was submitted |
| `RestoreWitness.ReopenedCanSubmit` | config/policy/openbao-protect-restore-execution.yaml:116-119 | Counterexample without one: a Failed request that somebody else puts back into Running is submitted |
| `RestoreProtocol.NextKeeps` | cmd/bao-backup/restore_claim.go:31-166 | Every step of every party keeps the protocol invariant: reads are never newer than the store, and each claim has one holder |
| `RestoreProtocol.WriteClaimChanges` | internal/service/restore/submission_claim.go:18-48 | The conditional write lands exactly when the request is still as it was read, and only on one that meets every condition of a claim, none before it included |
| `RestoreProtocol.ClaimLandsKeeps` | internal/service/restore/submission_claim.go:39-45 | A claim that lands keeps the invariant, whether or not its answer arrives |
| `RestoreRequest.WriteKeeps` | internal/service/restore/manager_effects.go:31-98 | Controller writes keep the request well formed and touch neither identity, claim nor a recorded Job |
| `RestoreRequest.ClosedStaysClosed` | internal/service/restore/manager_reconcile.go:19-71 | No controller write reopens a request that can no longer be claimed |
| `RestoreRequest.FailCloses` | internal/service/restore/manager_decision.go:51-107 | The decision procedure only fails a restore where submission is excluded for good |
| `RestoreWitness.SomeRunSubmits` | cmd/bao-backup/restore_flow.go:73-114 | The protocol is not vacuous: for every non-empty snapshot a run with only controller and executor writes ends in its submission |
| `RestoreStaging.ExecuteRestore` | cmd/bao-backup/restore_flow.go:73-114 | At most one POST, of exactly the bytes whose digest and size were claimed; when the stream delivers given bytes, claim and POST happen if and only if the size matches and nothing failed; no scratch file exceeded the limit, and none is left unless removing it failed, which is reported |
| `RestoreStaging.DownloadRestoreSnapshot` | cmd/bao-backup/restore_staging.go:27-59 | A file is handed out only with the declared, acceptable size and the digest of its bytes; on every failure it is closed, and removed unless that fails |
| `RestoreStaging.StageRestoreSnapshot` | cmd/bao-backup/restore_staging.go:61-85 | The scratch file is kept open exactly on success and never exceeds the declared size |
| `RestoreStaging.WriteRestoreSnapshot` | cmd/bao-backup/restore_staging.go:93-123 | File, hashed bytes and delivered bytes are one sequence of exactly the declared size, for every chunking; succeeds exactly when the stream has that size |
| `RestoreStaging.CopyLimited` | cmd/bao-backup/restore_staging.go:94-99 | The copy stores and hashes the same leading part of the stream, never more than the limit, for every chunking and a full disk |
| `RestoreStaging.Probe` | cmd/bao-backup/restore_staging.go:103-112 | The one-byte probe finds extra data if and only if there is some |
| `RestoreStaging.DeliversNext` | cmd/bao-backup/restore_staging.go:125-135 | Reading any amount from a stream leaves a stream that delivers the rest |
| `BackupPipe.UploadedConserves` | cmd/bao-backup/backup_flow.go:160-213 | In every interleaving, a finished upload means Snapshot ended without error and every byte it wrote was received, hashed and counted in order |
| `BackupPipe.EarlyStopFails` | cmd/bao-backup/backup_flow.go:187-213 | A storage client that stops reading early, even without an error, is reported as a failure |
| `BackupPipe.BlameIsExact` | cmd/bao-backup/backup_flow.go:197-208 | Storage is blamed if and only if the upload failed and Snapshot did not fail by itself |
| `BackupPipe.NeverStuck` | cmd/bao-backup/backup_flow.go:188-195 | Once Upload has returned, some step other than a new write is always possible until the result is decided |
| `BackupPipe.NextKeeps` | cmd/bao-backup/backup_flow.go:148-213 | Every step keeps what was written equal to what was received plus what is in flight, unless a write failed |
| `BackupPipe.PublishBackupSnapshot` | cmd/bao-backup/backup_flow.go:89-125 | Publishes exactly when the upload finished and HEAD reports the positive streamed size; deletes the object exactly otherwise, and leaves it behind exactly when that fails |
| `BackupPipe.PublishedIsTheSnapshot` | cmd/bao-backup/backup_flow.go:215-245 | With a store that keeps some leading part of what it received, a published object is the snapshot byte for byte, and its digest is the recorded one |
| `BackupPipe.EverySnapshotCanBePublished` | cmd/bao-backup/backup_flow.go:89-107 | The machine is not vacuous: every non-empty snapshot has a run that publishes it |
| `OciResolve.ResolveOciGraph` | hack/tools/ghcr_housekeeping/graph.go:40-118 | Keeps nothing without a reason; where kept manifests have honest media types the result is the least set that holds the tagged versions and is closed under manifest references and referrers; no manifest is fetched twice; fails on ambiguous referrers, and otherwise only when a manifest that any reader has to fetch is missing |
| `OciResolve.ResolutionIsSound` | hack/tools/ghcr_housekeeping/graph.go:40-118 | The same of the resolution as a function, which the method computes |
| `OciResolve.IndexVersions` | hack/tools/ghcr_housekeeping/graph.go:51-70 | Fails exactly when two versions claim the same subject; otherwise yields the roots and the referrer of each subject |
| `OciResolver.Resolver.MarkReachable` | hack/tools/ghcr_housekeeping/graph.go:75-92 | For every referrer map on which it can end: the recursive marking terminates and marks and queues exactly what the search as a function does |
| `OciSearch.SearchIsSound` | hack/tools/ghcr_housekeeping/graph.go:96-116 | The whole search keeps what it should, and fails only for want of a manifest that any reader has to fetch |
| `OciSearch.JustMark` | hack/tools/ghcr_housekeeping/graph.go:75-92 | A mark that every reader needs keeps the marks minimal and closed under referrers, and accounts for everything that is marked but not queued |
| `OciSearch.JustFetched` | hack/tools/ghcr_housekeeping/graph.go:100-116 | One pass of the queue loop keeps all of that, and the children of everything fetched |
| `OciRun.MarkedByQueues` | hack/tools/ghcr_housekeeping/graph.go:81-91 | A call queues exactly the referrers it follows and, if asked to, the digest itself |
| `OciRun.TrimmedByQueued` | hack/tools/ghcr_housekeeping/graph.go:81-91 | With trimmed names these are, besides the digest itself, exactly the newly marked referrers |
| `OciRun.SearchedLocal` | hack/tools/ghcr_housekeeping/graph.go:75-116 | The search only depends on the referrers and manifests of what it keeps |
| `OciTermination.MarkingEndsIff` | hack/tools/ghcr_housekeeping/graph.go:75-92 | For names with or without surrounding white space: marking ends on every digest if and only if there is no endless chain of referrers with untrimmed names |
| `OciTermination.TrimmedNamesEnd` | hack/tools/ghcr_housekeeping/graph.go:75-92 | With trimmed names it always ends |
| `OciTermination.SelfReferrerRuns` | hack/tools/ghcr_housekeeping/graph.go:87-91 | Counterexample: marking a tagged version with a leading space in its name, which also carries the referrer tag of its own digest, does not end |
| `OciResolver.Resolver.Drain` | hack/tools/ghcr_housekeeping/graph.go:98-116 | The queue loop terminates over any finite registry, requests no manifest twice and computes the search as a function |
| `OciRun.VisitingCloses` | hack/tools/ghcr_housekeeping/graph.go:75-92 | Marking restores closure under referrers |
| `OciRun.VisitingStaysWithin` | hack/tools/ghcr_housekeeping/graph.go:75-92 | Marking stays inside every set that is closed under referrers, and follows only referrers of that set |
| `OciGraph.SplitGraphTags` | hack/tools/ghcr_housekeeping/graph.go:121-133 | The normal tags and the subjects of the referrer tags, each in order |
| `OciCollection.CollectionIsSafe` | hack/tools/ghcr_housekeeping/graph.go:139-173 | Deleting any subset of the candidates leaves the same roots and the same least closed set |
| `OciCollection.RerunIsSame` | hack/tools/ghcr_housekeeping/graph.go:40-173 | Resolving again after deleting any subset of the candidates ends, and succeeds with the same roots and the same reachable set, whatever the media types |
| `OciCollection.ResolveTwice` | hack/tools/ghcr_housekeeping/graph.go:40-173 | The same for two runs of the resolver itself |
| `OciCollection.DeletableLater` | hack/tools/ghcr_housekeeping/graph.go:139-173 | Deleting in several rounds is no different from deleting at once |
| `OciCollection.KeptReferrer` | hack/tools/ghcr_housekeeping/graph.go:139-173 | Deleting candidates leaves the referrer of every kept subject in place |
| `OciCollection.ReferrerIsCandidateIff` | hack/tools/ghcr_housekeeping/graph.go:147-155 | Why names have to be trimmed for that: an old referrer of a kept subject is a candidate if and only if its name is not |
| `OciCollection.UntrimmedReferrerIsLost` | hack/tools/ghcr_housekeeping/graph.go:147-155 | Counterexample: a kept referrer with a leading space in its name is a candidate, and the resolution after its deletion does not keep it |
| `OciCollection.DishonestMediaTypeLosesChild` | hack/tools/ghcr_housekeeping/graph.go:100-113 | Counterexample: when an index is announced as something else, resolution succeeds without its child, which every closed set keeps |
| `DeletionPlan.PlanSize` | hack/tools/ghcr_housekeeping/planner.go:49-64 | The number planned is min(maxTotal, sum over packages of min(maxPerPackage, candidates)), in any order |
| `DeletionPlan.PlanIsMaximum` | hack/tools/ghcr_housekeeping/planner.go:49-64 | No selection within both caps is larger |
| `DeletionPlan.LeftOutByEarlier` | hack/tools/ghcr_housekeeping/planner.go:51-58 | A candidate is left out only when a cap is full of candidates that sort before it |
| `DeletionPlan.TaggedAllPlanned` | hack/tools/ghcr_housekeeping/planner.go:67-100 | Tagged candidates that fit the caps are all planned, because nothing sorts before them |
| `DeletionPlan.NotLessTransitive` | hack/tools/ghcr_housekeeping/planner.go:67-87 | The comparison handed to the sort is a consistent order |
| `DeletionPlanner.Report.PlanDeletions` | hack/tools/ghcr_housekeeping/planner.go:34-65 | Updates the report in place to exactly the greedy choice over some ordered permutation of all candidates |
| `DeletionPlanner.Report.ValidateTaggedCandidateSafety` | hack/tools/ghcr_housekeeping/planner.go:15-32 | Reports no problem exactly when every package is within the cap, and records one error for each that is not |
| `DeletionPlanner.Report.ApplyDeletionPlan` | hack/tools/ghcr_housekeeping/planner.go:102-136 | Deletes a prefix of the planned order; per-package counts match it also when the next deletion fails, which is recorded once |
| `DeletionPlanner.SortedCandidatePositions` | hack/tools/ghcr_housekeeping/planner.go:67-87 | An ordered permutation of the positions |
| `DeletionPlanner.ReportPlanSize` | hack/tools/ghcr_housekeeping/planner.go:34-65 | The plan size of a whole report, whichever ordered permutation the sort produced |
| `DeletionPlanner.TaggedCandidatesAllPlanned` | hack/tools/ghcr_housekeeping/planner.go:15-65 | A report that passes the safety check, with all tagged candidates fitting maxTotal, has every tagged candidate planned |
| `DeletionPlanner.PlannedAreChosen` | hack/tools/ghcr_housekeeping/planner.go:108-118 | What applyDeletionPlan finds planned is what planDeletions chose |
| `DeletionPlanner.DeletedWithinCaps` | hack/tools/ghcr_housekeeping/main.go:445-460 | Planning and then applying deletes only chosen candidates and respects both caps, wherever it stops |
| `ConfigRender.PassesAreSimultaneous` | cmd/bao-config-init/render.go:87-93 | The four sequential passes equal one left-to-right simultaneous substitution, for all values that share no character with a placeholder |
| `ConfigRender.NoPlaceholderLeft` | cmd/bao-config-init/render.go:87-93 | Neither placeholder is left in the result |
| `ConfigRender.ResidualIsFromSelfInit` | cmd/bao-config-init/render.go:50-55 | The residual check finds a placeholder if and only if the appended self-init text has one |
| `ConfigRender.RenderConfig` | cmd/bao-config-init/render.go:17-58 | When the file is written, with which text, and that rendering succeeds exactly when no appended text holds a placeholder |
| `ConfigRender.AddressesArePlainText` | cmd/bao-config-init/render.go:24-31 | Lower-case host names and IP literals are such values |
| `Substitution.Fusion` | cmd/bao-config-init/render.go:87-93 | One more pass over the output of a substitution is one more rule of that substitution |
| `Substitution.NoneLeft` | cmd/bao-config-init/render.go:50-55 | No pattern of a substitution occurs in its output |
| `Substitution.ContainsAcross` | cmd/bao-config-init/render.go:95-105 | A separator foreign to the pattern keeps an occurrence from straddling it |
| `NightlyProgress.AlwaysPlannableIff` | hack/tools/e2e_manifest/main.go:287-328 | For an accepted manifest with valid emulator settings: every profile can be planned at every rotation index if and only if each rotating lane set refers to every compatibility version |
| `NightlyProgress.ValidatorIsNotEnough` | hack/tools/e2e_manifest/main.go:594-653 | Counterexample: an accepted manifest whose second night cannot be planned |
| `NightlyProgress.PlannableIff` | hack/tools/e2e_plan/main.go:270-365 | The same for one index: only a rotating lane set can make planning fail, and a plan is never empty |
| `NightlyProgress.NightlyIsFair` | hack/tools/e2e_plan/main.go:288-330 | In any window as long as the compatibility list there is a night on which the matrix is built with the lane on the version, provided the version shares a turn with all rotating lane sets of the profile |
| `NightlyProgress.EverPlannedIff` | hack/tools/e2e_plan/main.go:288-330 | A lane set is ever planned on a version it refers to if and only if they share such a turn |
| `NightlyProgress.AllShareTurns` | hack/tools/e2e_plan/main.go:288-330 | They do when every rotating lane set refers to every compatibility version |
| `NightlyProgress.NeverPlanned` | hack/tools/e2e_plan/main.go:288-330 | Counterexample: an accepted manifest in which a lane set is never planned on a version it refers to |
| `NightlyProgress.CompatibilityReferenceSuffices` | hack/tools/e2e_plan/main.go:541-555 | Naming @compatibility satisfies the condition |
| `NightlyProgress.AcceptedRefsResolve` | hack/tools/e2e_manifest/main.go:655-683 | References that the validator accepts resolve to at least one version |
| `NightlyPlan.BuildGithubNightlyMatrix` | hack/tools/e2e_plan/main.go:270-365 | Succeeds exactly when all checks pass and a row is left; holds exactly the rows that lane sets, configured rows, rotation and filters call for |
| `NightlyPlan.PlanLaneSet` | hack/tools/e2e_plan/main.go:288-330 | The rows of one lane set, and when it fails |
| `NightlyPlan.PlanConfig` | hack/tools/e2e_plan/main.go:331-352 | The rows of one configured row, and when it fails |
| `KubernetesVersions.ResolveKubernetesRefs` | hack/tools/e2e_plan/main.go:519-539 | Every version referred to, once, in order of first occurrence; fails exactly on an unknown set or an empty result |
| `KubernetesVersions.RotateCompatibilityVersions` | hack/tools/e2e_plan/main.go:567-597 | Keeps, in order, every other version and of the compatibility versions exactly the one whose turn it is; fails exactly when that one is missing |
| `KubernetesVersions.RotationIsFair` | hack/tools/e2e_plan/main.go:567-597 | In any window as long as the compatibility list there is an index at which rotation succeeds and the version takes part, if it ever has a turn |
| `KubernetesVersions.EverTakesPartIff` | hack/tools/e2e_plan/main.go:567-597 | It has a turn if and only if it is a compatibility version or the lane set has one |
| `KubernetesVersions.RotatesAlwaysIff` | hack/tools/e2e_plan/main.go:567-597 | Rotation works at every index if and only if the lane set has every compatibility version |
| `ApiPolicy.ResolvePolicy` | hack/tools/api_inventory/main.go:640-694 | Every attribute comes from a longest matching rule that sets it or else the defaults, omission and stable values from an exact rule only; with distinct rule paths that rule is unique and the policy is determined |
| `ApiPolicy.OrderDoesNotMatter` | hack/tools/api_inventory/main.go:640-694 | Neither the order of the rules nor an unstable sort changes the policy or the matched rules |
| `ApiPolicy.PolicyIsUnique` | hack/tools/api_inventory/main.go:640-694 | The set of rules alone determines the policy |
| `ApiPolicy.LayeredResolves` | hack/tools/api_inventory/main.go:665-692 | Overwriting from short to long yields the longest rule that sets each attribute |
| `ApiPolicy.MatchingChain` | hack/tools/api_inventory/main.go:696-705 | Rules that match one field form a chain of prefixes of distinct lengths |
| `PerfEscalation.EscalationIsExact` | hack/perfcheck/analysis.go:299-338 | Over any sequence of weekly runs, a finding becomes a failure in week k if and only if it is a warning about a primary measurement that also regressed in week k - 1 |
| `PerfEscalation.EscalationIsStable` | hack/perfcheck/analysis.go:299-338 | Escalating twice is escalating once, and no severity is lowered |
| `PerfEscalation.RegressionsKept` | hack/perfcheck/analysis.go:345-362 | Escalation does not change which measurements count as regressed for the week after |
| `PerfEscalation.RunSummary.ApplyConsecutivePrimaryRegressionPolicy` | hack/perfcheck/analysis.go:299-338 | Updates every scenario in place to its escalated findings and matching status, with matching totals |
| `PerfEscalation.RunSummary.RecomputeSummaryTotals` | hack/perfcheck/analysis.go:364-383 | Statuses follow the findings; totals count the scenarios of each status and add up the samples |
| `PerfEscalation.StatusFromFindings` | hack/perfcheck/analysis.go:463-474 | The worst severity decides |
| `PerfEscalation.PreviousPerformanceFindingSet` | hack/perfcheck/analysis.go:345-362 | Exactly the measurements with a performance finding, escalated or not |
| `PerfEscalation.TotalsAddUp` | hack/perfcheck/analysis.go:364-383 | Passed, warned and failed scenarios add up to all scenarios |
| `CoverageProfile.ParseCoverageProfile` | hack/tools/coverage_check/main.go:76-154 | Accepts exactly the readable, consistent profiles with a known mode and an internal block; layer totals add up to the internal totals |
| `CoverageProfile.OnlyTheLinesMatter` | hack/tools/coverage_check/main.go:90-154 | Profiles with the same lines, in any order and number, are accepted alike and give the same report |
| `CoverageProfile.RepetitionIsHarmless` | hack/tools/coverage_check/main.go:112-126 | A profile followed by its own lines is accepted alike and gives the same report |
| `CoverageProfile.MergeIsUnique` | hack/tools/coverage_check/main.go:108-133 | The merged blocks depend only on the set of lines |
| `CoverageProfile.CoveredWithinTotal` | hack/tools/coverage_check/main.go:141-152 | Covered never exceeds total, overall and in every layer |
| `CoverageProfile.BuildReport` | hack/tools/coverage_check/main.go:141-152 | The sums over all blocks do not depend on the order of the map |

## Left out

- OciResolve.ResolveOciGraph: assumes that no chain of referrers with untrimmed names is endless, also of digests that the scan would not reach; on an endless chain it does reach, the source does not return.
- OciCollection.RerunIsSame: assumes that the referrers of kept subjects have trimmed names, without which it is false.
- CrdRelease.CompatibilitySoundness: covers spec and status only, as the tool does; rules and keywords on the root schema are not collected by it.
- CrdCompare.CompareSnapshots: the detail text and the final sorting of changes are not modelled, because they do not affect the verdict.
- CoverageProfile.ParseCoverageProfile: lines are already matched against the pattern, and sums do not wrap at 64 bits.
- ApiPolicy.ResolvePolicy: stable values are a multiset, because the source sorts them by text.
- PerfEscalation.RunSummary.ApplyConsecutivePrimaryRegressionPolicy: the messages of findings are not modelled.
- BackupPipe.PublishBackupSnapshot: error texts are not modelled.
- NightlyPlan.BuildGithubNightlyMatrix: states which rows there are, not their order and repetition; image, timeout and parallelism columns of a row are left out, and so are the texts and counts of validation errors.
- The suite checks of the manifest validator, which do not affect planning.
- Composition branches with properties or items of their own, boolean `additionalProperties` and defaulting in the CRD theorem.
- The time of a claim, lease renewal and target restarts in the restore protocol.
- Violation of measurement policies and the statistics of a performance run, which are single expressions.
- The tagged-transient retention rules, report rendering, command-line parsing, the blue/green and upgrade controllers, generated code and all client adapters: easy or pure wiring.
