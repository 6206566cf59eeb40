# Verified model of the factory control plane, engineering pod, reliability controller and real-estate inventory

This project models five stateful cores of the repository and proves what they promise over every input and every run.

1. **Dependency planning.** `Graphs`, `TaskGraph`, `Orchestration`, `Scopes`, `PlanSearches`, `WorkPackages`,
   `PlanValidator`, `Places`, `EvidenceValidator`, `Scheduling`, `Integration`, `Revision` and `EngineeringPod` (with
   the concrete plans, scopes and run of `SamplePlans`, `PlaceSamples` and `SampleRun`) model the two depth-first cycle checks, the
   explicit-stack reachability search, the breadth-first invalidation, the write-scope overlap test, the layered
   execution order, the bounded revision of plans and evidence, and the integration. The end-to-end result: a plan the
   validator accepts is always scheduled, its order passes every order check of integration, and what can still stop
   integration is named exactly.
2. **Event-sourced missions.** `Ledger`, `AuditArchive`, `TaskStates`, `Runner`, `MissionRuns`, `MissionNumbering`,
   `ReviewHistory`, `ReleaseSafety`, `Replays`, `ReviewWitness` and `MissionStore` model the hash-chained ledger, the
   13-state task machine, the runner that commits a task record with each ledger event, replay and restore. A run is
   any sequence of accepted and refused calls, release rounds and foreign appends on a shared ledger.
3. **Durable reliability control.** `ReliabilityContracts`, `ReliabilityEngine`, `ReliabilityRuns`,
   `ReliabilityWitnesses`, `ReliabilityController` and `Recovery` model retry, reconciliation, circuit breaker and
   attempt journal. `Sound` is the invariant all accepted calls keep; the attempt bounds and the meaning of a RETRY
   follow from it.
4. **Search and alerts.** `Base64Url`, `Search`, `Alerts`, `AlertStore`, `StaleSearches`, `AlertCollisions` and
   `SampleSearches` model cursors, cursor-delimited pages and the alert outbox. The history of evaluations that
   `Alerts` carries is what the exactly-once statements speak about; the code stores only its consequences.
5. **Canonical inventory.** `Listings` and `Inventory` model source records, canonical rows, membership and the
   lifecycle log as a materialised view.

`Wrappers`, `Text`, `Decimal` and `StringOrder` hold the shared vocabulary: results, stripping, numerals, and Python's
string order with `sorted`.

How the model is laid out: an object the code updates in place is a class (`AuditLedger`, `SQLiteAuditLedger`,
`MissionRunner`, `SQLiteMissionStore`, `SQLiteReliabilityStore`, `DurableOperationController`,
`SQLiteSavedSearchStore`, `SQLiteInventoryStore`), and each of its methods is proved to do what a specification
function says (`TryTransition`, `ReleaseAll`, `ReplayEvents`, `Inserted`, `RecordStep`, `ReconcileStep`, `ProbeStep`,
`SaveStep`, `BaselineStep`, `MarkStep`, `EvaluateStep`, `AddStep`, `TransitionStep`). What the code promises over runs
is proved about these functions. SHA-256 over canonical JSON is a free constructor, so different contents have
different hashes. A SQL transaction is one atomic step. Clocks are integer parameters.

## What the code does not promise

Each of these is a lemma with an input or a run that shows it, and the condition under which the expected behaviour
does hold.

- An accepted plan can be empty or belong to another mission, so integration can still refuse it
  (`EngineeringPod.EmptyPlanAccepted`, `EngineeringPod.AcceptedPlanOfAnotherMission`); with clean evidence integration
  succeeds exactly when neither is the case and the deliveries do not clash
  (`EngineeringPod.AcceptedIntegratesExactly`).
- `transition` does not look at dependencies, so work can start before them (`ReleaseSafety.WorkBeforeDependency`).
  Every release of a run is justified by earlier DONE events exactly if no direct transition takes a task from BACKLOG
  to READY while a dependency has none (`ReleaseSafety.JustifiedExactly`).
- A transition to DONE may overwrite the reviewers with the worker: a run of six calls that ends so
  (`ReviewWitness.DoneNamesItsWorker`, `ReviewHistory.DoneMayNameAWorker`); the record stays independent exactly when
  the DONE event's own reviewers are (`ReviewHistory.DoneRecordReviewers`).
- Two live runners of one mission can each accept the same move, and then no replay of the ledger ever succeeds again
  (`Replays.TwoRunnersBreakReplay`). A mission's events replay exactly when they are readable, under distinct ids, and
  pass the guards task by task (`Replays.ReplayExactly`); with one live runner they always do
  (`MissionRuns.ReplayRefinesRun`).
- The store accepts a further attempt while an ambiguous external write awaits reconciliation, although the engine's
  comment says such a write must never become a blind retry (`ReliabilityRuns.BlindSecondAttempt`). Every later attempt
  is either promised by name or made blind, and it is blind exactly when it is recorded while RECONCILE_REQUIRED
  (`ReliabilityRuns.EveryAttemptIsPromisedOrBlind`, `ReliabilityRuns.StatusIsTheJournals`), when it is accepted as
  `ReliabilityRuns.AmbiguousWriteMayBeAttemptedAgain` says.
- RETRY_READY can stand beside an OPEN circuit: every external write with a budget above the threshold can get there
  (`ReliabilityWitnesses.RetryReadyBesideOpenHappens`). The circuit is then not CLOSED exactly from the threshold on,
  and the retry was decided directly after a reconciliation that confirmed NOT_APPLIED
  (`ReliabilityRuns.RetryReadyBesideOpen`).
- Alert event ids collide when canonical ids contain `|`: a run of two searches in which the second one's evaluation
  fails (`AlertCollisions.CollisionHappens`). A marking is accepted exactly when no new match needs a taken id
  (`Alerts.MarkAllAcceptedExactly`), and ids made from fingerprints without a bar are safe
  (`AlertCollisions.CanonicalIdIsClean`).
- A baseline established with a stale copy of a search makes every current match alert
  (`StaleSearches.StaleBaselineAlertsAll`, and a run of it in `StaleSearches.StaleBaselineHappens`); for a search still
  to be primed the tables stay true exactly when the versions agree (`StaleSearches.BaselineSoundExactly`).
- Write isolation is about normalised texts: scopes with empty or `.` segments can name one place and not overlap
  (`PlaceSamples.DotSegmentsShareAPlace`). Two unordered packages of an accepted plan can reach one place exactly when
  the places of some scope of each are nested, never when their scopes are all plain
  (`Places.PlaceIsolationExactly`, `Places.PlainScopesIsolate`).
- Adding a known source version again returns the right group exactly when the two fingerprints give the same
  canonical id (`Inventory.KnownSourceReturns`); a listing that moved city is dropped
  (`Inventory.RelocationIsDropped`, `Inventory.RelocationHappens`).
- Scope texts are refused when they merely start with two dots, as `..foo` does (`PlaceSamples.DotsInFrontRefused`);
  when exactly a text is accepted is `Scopes.NormalizeExact`.

## Model

| member | source | states |
|---|---|---|
| TaskGraph.Visit | factory/control_plane/graph.py:14-21 | The recursive search ends (on nodes neither visiting nor visited); a refusal means a real cycle, success leaves every visited task finished with all its dependencies. |
| TaskGraph.CheckDependencies | factory/control_plane/graph.py:8-22 | Passes exactly when every dependency is a task and no task depends on itself. |
| TaskGraph.SearchForCycle | factory/control_plane/graph.py:8-22 | True exactly when the dependency graph is acyclic. |
| TaskGraph.ValidateGraph | factory/control_plane/graph.py:8-22 | Accepts exactly when ids are unique, dependencies closed and the graph acyclic; duplicate ids and cycles are reported exactly when they are the first fault. |
| TaskGraph.ReadyTasks | factory/control_plane/graph.py:28-43 | Answers exactly for a well-formed graph with a state for each task; the answer is the ascending list of exactly the BACKLOG tasks whose dependencies are DONE. |
| TaskGraph.NoReleaseDeadlock | factory/control_plane/graph.py:28-43 | While some task is BACKLOG and all others are DONE, some task is ready. |
| Orchestration.BuildChildren | factory/control_plane/orchestration.py:13-22 | The child table has an edge for exactly the declared dependencies, duplicates of a task id included. |
| Orchestration.InvalidateDownstream | factory/control_plane/orchestration.py:13-22 | Ends on cyclic input too and returns exactly the tasks reachable from the changed one by one or more dependent edges. |
| Orchestration.StaleAreTransitiveDependents | factory/control_plane/orchestration.py:13-22 | With unique ids, stale is the same as transitively depending on the changed task. |
| Orchestration.ValidTasksHaveValidDependencies | factory/control_plane/orchestration.py:13-22 | A task left valid depends neither on the changed task nor on any stale one. |
| PlanSearches.Visit | factory/engineering_pod/validator.py:195-206 | Ends; true means a real cycle, false leaves every visited package finished. |
| PlanSearches.HasCycle | factory/engineering_pod/validator.py:191-208 | True exactly when the graph restricted to its keys has a cycle. |
| PlanSearches.Ordered | factory/engineering_pod/validator.py:211-222 | Ends on cyclic graphs too; true exactly when `before` is a transitive dependency of `after`. |
| Scopes.NormalizeExact | factory/engineering_pod/validator.py:18-22 | A scope is accepted exactly when its trimmed text is non-empty, does not start with two dots and has no `..` segment; the normal form is that text, without backslash or outer slash. |
| Scopes.TrimmedExactly | factory/engineering_pod/validator.py:18-22 | The trimmed text is a stretch of the scope with its backslashes turned; only space and slashes stand around it, and no slash borders on it. |
| Scopes.ParentTestIsSegmentTest | factory/engineering_pod/validator.py:20-21 | The substring test for `/../` finds exactly the texts with a `..` segment. |
| Scopes.InsideIsSegmentPrefix | factory/engineering_pod/validator.py:25-28 | Equal-or-starts-with-slash is exactly the prefix order on path segments. |
| Scopes.PathInScopeExactly | factory/engineering_pod/validator.py:25-28 | A path is judged exactly when both texts normalise, and is inside exactly when the scope's segments begin its own. |
| Scopes.ScopesOverlap | factory/engineering_pod/validator.py:225-239 | True exactly when a valid scope of one list is inside a valid scope of the other. |
| Scopes.CommonPathCompares | factory/engineering_pod/validator.py:225-239 | Of two scopes around one path, one is inside the other. |
| Scopes.CommonPathOverlaps | factory/engineering_pod/validator.py:225-239 | Two lists that both cover some normalised path overlap. |
| Scopes.OverlapHasCommonPath | factory/engineering_pod/validator.py:225-239 | Two lists that overlap both cover some path, so the overlap test is exact. |
| PlanValidator.CheckPackage | factory/engineering_pod/validator.py:50-85 | The findings of one package are exactly its faults; an invalid package has no further ones. |
| PlanValidator.CheckCoverage | factory/engineering_pod/validator.py:91-100 | A finding for exactly the ids of requirements with priority MUST that no package lists. |
| PlanValidator.CheckConflicts | factory/engineering_pod/validator.py:102-116 | A finding for exactly the pairs that overlap and are ordered neither way. |
| PlanValidator.Validate | factory/engineering_pod/validator.py:34-118 | Answers exactly for a complete design with known priorities; every reported finding is justified and every justified finding is reported. |
| WorkPackages.ContractExactly | factory/engineering_pod/contracts.py:28-48 | A package is refused exactly when it is not identified, not owned by the one agent of its discipline, or lists nothing, itself or something twice; the error names a clause it breaks. |
| WorkPackages.EvidenceRefusedExactly | factory/engineering_pod/contracts.py:58-82 | Evidence is refused exactly for an empty id or list, and for a result that leaves something out or says neither PASS nor FAIL. |
| PlanValidator.MustReportedExactly | factory/engineering_pod/validator.py:91-100 | A requirement id is reported exactly if it is that of a MUST and no package lists it; a requirement of another priority never is. |
| SamplePlans.UncoveredMustRefused | factory/engineering_pod/validator.py:91-100 | The empty plan for a design with one MUST is refused, with that finding. |
| PlanValidator.AcceptedExactly | factory/engineering_pod/validator.py:34-118 | Acceptance read off design and plan: distinct ids, kept contracts, existing requirements and dependencies, valid scopes, no cycle, each MUST listed by a package, overlapping packages ordered. |
| PlanValidator.AcceptedMeans | factory/engineering_pod/validator.py:34-118 | No finding at all exactly when ids are distinct, packages valid, requirements and dependencies known, scopes valid, the graph acyclic, MUST requirements covered and overlapping pairs ordered. |
| PlanValidator.WriteIsolation | factory/engineering_pod/validator.py:102-116 | In an accepted plan two packages not ordered by transitive dependency can never both cover the same normalised path. |
| Places.ShareExactly | factory/engineering_pod/validator.py:25-28 | Two scope lists cover paths of one place exactly if the places of some scope of each are nested. |
| Places.PlaceIsolationExactly | factory/engineering_pod/validator.py:102-116 | Two unordered packages of an accepted plan cover one place exactly if the places of some scope of each are nested, which takes a scope that is not plain. |
| Places.PlainScopesIsolate | factory/engineering_pod/validator.py:102-116 | Two unordered packages of an accepted plan whose scopes are all plain share no place, however the paths are spelled. |
| Places.PlainSpellsItsPlace | factory/engineering_pod/validator.py:18-22 | A normalised path is the list of the segments that lead somewhere exactly if none of its segments is empty or `.`. |
| PlaceSamples.DotSegmentsShareAPlace | factory/engineering_pod/validator.py:18-22 | An accepted plan of two packages in no order whose scopes differ only by a `.` segment and share a place. |
| PlaceSamples.DotsInFrontRefused | factory/engineering_pod/validator.py:20-21 | `..foo` is refused although none of its segments is `..`. |
| EvidenceValidator.CheckPaths | factory/engineering_pod/validator.py:138-152 | Findings for exactly the changed paths that are invalid (as the scope loop meets them) or outside all scopes. |
| EvidenceValidator.CheckArtifacts | factory/engineering_pod/validator.py:154-163 | Findings for exactly the expected artifacts not produced. |
| EvidenceValidator.CheckVerifications | factory/engineering_pod/validator.py:165-186 | Findings for exactly the failed verifications and the required methods without a PASS. |
| EvidenceValidator.ValidateEvidence | factory/engineering_pod/validator.py:120-188 | Raises exactly for an invalid package; otherwise reports exactly the justified findings. |
| EvidenceValidator.CleanMeans | factory/engineering_pod/validator.py:120-188 | Clean evidence names its package, stays inside the write scopes, has every expected artifact, no failed verification and a PASS for every required method. |
| EvidenceValidator.AnyScopeExactly | factory/engineering_pod/validator.py:138-152 | The scopes are tried in turn and the first that does not simply say no decides, an invalid text included. |
| EvidenceValidator.CoveredExactly | factory/engineering_pod/validator.py:138-152 | With valid scopes a path is let through exactly if it normalises and one of them covers it. |
| EvidenceValidator.CleanExactly | factory/engineering_pod/validator.py:120-188 | Evidence is clean exactly if the package keeps its contract and the evidence names it, lists paths, artifacts and results, stays in scope, misses nothing expected, and every result and required method passed. |
| Scheduling.ScheduleExact | factory/engineering_pod/coordinator.py:78-93 | The layered order exists exactly when dependencies are known and acyclic, and then holds every package once with each dependency earlier. |
| Scheduling.ScheduleByLevel | factory/engineering_pod/coordinator.py:78-93 | The order ascends by the length of the longest dependency chain and by package id where that is equal. |
| Scheduling.LevelsAgree | factory/engineering_pod/coordinator.py:82-92 | A plan has only one assignment of such levels, so the order is fixed by the plan alone. |
| Scheduling.OrderedIsAcyclic | factory/engineering_pod/coordinator.py:78-93 | Any order with dependencies first proves the graph acyclic and its dependencies known. |
| Scheduling.SomethingReady | factory/engineering_pod/coordinator.py:83-88 | While packages remain and the plan is acyclic, the ready layer is not empty. |
| Scheduling.EmitLayer | factory/engineering_pod/coordinator.py:89-92 | One layer moves exactly the ready packages, in order, from remaining to emitted and completed. |
| Scheduling.ExecutionOrder | factory/engineering_pod/coordinator.py:78-93 | The loop computes the specified layered order, deadlock included. |
| Scheduling.ListingDoesNotMatter | factory/engineering_pod/coordinator.py:78-93 | Plans listing the same packages in another order have the same execution order, or the same deadlock. |
| Integration.Claim | factory/engineering_pod/integration.py:102-108 | A package's names are claimed exactly when no other package holds one of them. |
| Integration.CheckDependencies | factory/engineering_pod/integration.py:75-83 | Passes exactly when every dependency stands earlier in the order. |
| Integration.CheckInputs | factory/engineering_pod/integration.py:55-83 | Passes exactly when the mission, packages, order and evidence fit each other. |
| Integration.Merge | factory/engineering_pod/integration.py:85-122 | Succeeds exactly when all evidence is clean, artifacts and paths are unshared and verification ids distinct, and then records exactly what the evidence says. |
| Integration.ConcatStretch | factory/engineering_pod/integration.py:90-122 | In a merged list each package's own list stands as one stretch, after those of all packages before it. |
| Integration.ConcatDistinctExactly | factory/engineering_pod/integration.py:90-122 | A merged list repeats nothing exactly if no package repeats itself and no two packages share an entry. |
| Integration.MergeOne | factory/engineering_pod/integration.py:90-122 | One package's step keeps the owner tables and lists exact for the packages merged so far. |
| Integration.CombineEvidence | factory/engineering_pod/integration.py:85-135 | Merging and validating the manifest succeeds exactly when the parts are compatible. |
| Integration.Finish | factory/engineering_pod/integration.py:124-135 | The manifest built from a merge passes its own validation exactly when the order is non-empty, no artifact name is empty and changed paths are distinct. |
| Integration.ValidExactly | factory/engineering_pod/integration.py:23-37 | What the manifest's own validation still adds after merging. |
| Integration.Integrate | factory/engineering_pod/integration.py:47-135 | Succeeds exactly for fitting inputs and compatible parts; the manifest then holds exactly the artifacts, changed paths and verification ids of the evidence, each artifact under its package, every expected one included, without duplicates and in package order. An order error only when the order checks fail. |
| Integration.ExpectedAreIntegrated | factory/engineering_pod/integration.py:85-135 | The manifest holds every expected artifact of every package under that package. |
| Integration.RecordsTell | factory/engineering_pod/integration.py:85-135 | A manifest that records the merged lists holds what some evidence lists, and nothing else: artifacts with their owner, changed paths, verification ids. |
| EngineeringPod.AcceptedPlanSchedules | factory/engineering_pod/coordinator.py:133-155 | An accepted plan always has an execution order, with every package once, that passes every order check of integration. |
| EngineeringPod.TopologicalPassesChecks | factory/engineering_pod/integration.py:62-83 | The ids of any dependencies-first order of all packages pass integration's order checks. |
| EngineeringPod.AcceptedIntegratesExactly | factory/engineering_pod/coordinator.py:161-182 | With an accepted plan and clean evidence, integration fails only for an empty plan, a package of another mission or clashing evidence. |
| EngineeringPod.AcceptedPlanOfAnotherMission | factory/engineering_pod/validator.py:34-118 | An accepted plan that integration refuses whatever evidence and order it gets. |
| EngineeringPod.EmptyPlanAccepted | factory/engineering_pod/validator.py:34-118 | Without MUST requirements the empty plan is accepted, and no evidence integrates it. |
| EngineeringPod.CleanEvidence | factory/engineering_pod/coordinator.py:107-110 | A package's evidence passes exactly when it has no blocking finding. |
| Revision.OutcomeExactly | factory/engineering_pod/coordinator.py:56-76 | A revision loop accepts an answer exactly if, within the rounds allowed, it is the first acceptable one and every revision before it changed something. |
| Revision.FailureExactly | factory/engineering_pod/coordinator.py:58-76 | Which error a failing loop ends with: exhaustion exactly if the last answer allowed is reached and unacceptable, a missing reviser exactly if there is none for an unacceptable first answer with rounds left, no progress exactly if some round's revision changes nothing. |
| Revision.RoundsAreNumbered | factory/engineering_pod/coordinator.py:58-76 | A reviser is told the number of the round, the first revision being round 1. |
| EngineeringPod.RunPackage | factory/engineering_pod/coordinator.py:95-131 | Finds the worker, checks its identity and the workspace, and revises the evidence until it is clean, for the rounds allowed; every failure as specified. |
| EngineeringPod.DispatchExactly | factory/engineering_pod/coordinator.py:95-104 | A package goes to the one owner of its discipline, if that worker is there under its own name and discipline and the workspace fits; each failure for exactly its reason. |
| EngineeringPod.AssignmentExactly | factory/engineering_pod/workspace.py:27-42 | A workspace fits exactly if it is the package's own in mission, id, owner and scopes, is named after mission and package, and its branch name is not blank, has no outer slash and no two dots in a row. |
| EngineeringPod.WorkspacesDiffer | factory/engineering_pod/workspace.py:27-42 | Two packages of one mission that both deliver were worked on in different workspaces. |
| EngineeringPod.DeliveredIsFirstClean | factory/engineering_pod/coordinator.py:105-131 | A dispatched package delivers exactly if some round within the limit answers cleanly; it delivers the first clean answer, made by its worker in its workspace. |
| EngineeringPod.DeliveredIsClean | factory/engineering_pod/coordinator.py:107-110 | What a package's run delivers has no blocking finding. |
| EngineeringPod.RunPackages | factory/engineering_pod/coordinator.py:141-146 | Collects the evidence of every package in execution order exactly when all of them deliver; the first failure ends the run. |
| EngineeringPod.ValidatedPlan | factory/engineering_pod/coordinator.py:56-76 | The plan loop with its revisions: the plan that goes on is accepted, exhaustion, missing reviser and lack of progress are the specified errors. |
| EngineeringPod.PlanIsFirstAcceptable | factory/engineering_pod/coordinator.py:56-76 | The plan that goes on is the first acceptable one of the planner's answers, and there is one exactly if some round within the limit settles it; an invalid design and a failing loop end as such. |
| EngineeringPod.ExecuteAccepted | factory/engineering_pod/coordinator.py:133-172 | An accepted plan runs through to a manifest exactly when its packages deliver and the deliveries combine; otherwise a package's own failure or an integration error that is no order error. |
| EngineeringPod.RunIntegrated | factory/engineering_pod/coordinator.py:161-182 | A run, revisions included, never ends in a dependency deadlock nor in an order error of integration, and succeeds exactly when plan, packages and their combination do. |
| SampleRun.OneRunSucceeds | factory/engineering_pod/coordinator.py:161-182 | A run that succeeds: one plan, one package, one worker, no revision. |
| EngineeringPod.SuccessIsIsolated | factory/engineering_pod/coordinator.py:161-182 | In a run that succeeds, the evidence of two packages not ordered by dependency changes no common normalised path. |
| EngineeringPod.SuccessIsIsolatedByPlace | factory/engineering_pod/coordinator.py:161-182 | The same by place: their evidence meets in one place only if the places of their scopes do, and never when the scopes are all plain. |
| Ledger.AuditLedger.Append | factory/control_plane/ledger.py:49-80 | Appends one sealed, chained event or changes nothing. |
| Ledger.AppendedExactly | factory/control_plane/ledger.py:49-80 | A draft is accepted exactly if its names are given and its id is new; the event carries its fields, numbered by the ledger's length and linked to the last event. |
| Ledger.AuditLedger.VerifyIntegrity | factory/control_plane/ledger.py:87-99 | Passes exactly when every event has its sequence number, the previous hash and its own hash; the error names a check that some event fails. |
| Ledger.AuditLedger.FromEvents | factory/control_plane/ledger.py:101-105 | Rebuilds a ledger from exactly the event lists that verify. |
| Ledger.SQLiteAuditLedger.Append | factory/runtime/sqlite_store.py:64-121 | The durable append on any stored rows: fields, then id, then an event that follows the last row, unless its hash is taken; a refusal changes nothing. |
| Ledger.InsertedExactly | factory/runtime/sqlite_store.py:64-121 | The durable append carries the draft's fields, numbered and linked by the last row; each refusal for exactly its reason. |
| Ledger.DurableAppendAgrees | factory/runtime/sqlite_store.py:64-121 | On rows that verify it accepts the same drafts as the append in memory, and adds the same event. |
| Ledger.InsertKeepsVerdict | factory/runtime/sqlite_store.py:64-121 | On any rows, the table verifies after an accepted append exactly if it did before. |
| Ledger.AppendKeepsChain | factory/control_plane/ledger.py:49-80 | An append keeps the chain and the uniqueness of event ids. |
| Ledger.BuiltLedgersVerify | factory/control_plane/ledger.py:49-99 | Every ledger built by appends verifies. |
| Ledger.AppendsStay | factory/control_plane/ledger.py:49-80 | The event of an accepted append stands where it was appended in every later ledger. |
| Ledger.HeadDeterminesHistory | factory/control_plane/ledger.py:87-99 | Two verified ledgers with the same last hash are equal event by event. |
| Ledger.TamperingIsDetected | factory/control_plane/ledger.py:87-99 | A changed history that keeps the head hash fails verification. |
| AuditArchive.EligiblePrefix | factory/runtime/audit_retention.py:88-100 | The longest prefix of due events. |
| AuditArchive.SelectEligible | factory/runtime/audit_retention.py:88-106 | Succeeds exactly when the due events form a non-empty prefix, and yields exactly them. |
| AuditArchive.CreateArchive | factory/runtime/audit_retention.py:74-134 | Succeeds exactly for a verified ledger whose due events form a non-empty prefix (and a name free to write); the file holds exactly the events at least the given number of days old, and verification accepts it. |
| AuditArchive.VerifyArchive | factory/runtime/audit_retention.py:136-178 | Accepts exactly the files that match the manifest and whose events verify. |
| AuditArchive.ManifestFixesFile | factory/runtime/audit_retention.py:136-178 | One manifest verifies one file, under one name. |
| AuditArchive.FileFixesManifest | factory/runtime/audit_retention.py:136-178 | One file under one name has one manifest that verifies it, but for the time it was made: counts, sequences and hashes are the file's. |
| AuditArchive.LastHashFixesArchive | factory/runtime/audit_retention.py:143-178 | Two verified archives with the same last hash hold the same events. |
| AuditArchive.ArchivesGrow | factory/runtime/audit_retention.py:88-134 | A later archive of a grown ledger extends the earlier one. |
| TaskStates.ParseName | factory/control_plane/state.py:6-7 | Parsing a state's stored text gives the state back. |
| TaskStates.TextsAreRead | factory/control_plane/state.py:6-7 | The texts in which events hold the thirteen states. |
| TaskStates.ParseExactly | factory/control_plane/state.py:6-7 | A text is read as a state exactly if it is that state's own. |
| TaskStates.MovesExactly | factory/control_plane/state.py:9-20 | The table of legal moves read backwards: from which states each state is entered. |
| TaskStates.RefusalExactly | factory/control_plane/state.py:30-39 | A refused transition is refused for a guard that it breaks. |
| Runner.MissionRunner.Create | factory/control_plane/runner.py:29-48 | Construction succeeds exactly for a mission id, distinct task ids and a well-formed graph over the same ids; all tasks start in BACKLOG. |
| Runner.MissionRunner.Transition | factory/control_plane/runner.py:50-100 | Record and ledger change together, the event telling the move and the record holding it, or neither changes. |
| Runner.TransitionExactly | factory/control_plane/runner.py:50-100 | A transition is accepted exactly for a known task, a legal move with the evidence, independent reviewers and approval it needs, named mission and actor, and a new event id; it appends one event that tells it, field by field, and changes that record alone. |
| Runner.KnownNumbers | factory/control_plane/runner.py:76-78 | The ids of the first and the forty-second numbered event. |
| Runner.MissionRunner.ReleaseList | factory/control_plane/runner.py:102-108 | Releases one by one and stops at the first refusal, keeping the earlier releases, as ReleaseExactly describes. |
| Runner.ReleaseExactly | factory/control_plane/runner.py:106-108 | Of a list of waiting tasks the first k become READY, each by one event in their order, and nothing else changes; short of the end the next release is refused with the error reported. |
| Runner.ReleasesAllExactly | factory/control_plane/runner.py:106-108 | It gets to the end exactly if mission and actor are named and none of the numbered event ids is taken. |
| Runner.ReadyIdsExactly | factory/control_plane/runner.py:102-105 | What is to be released are exactly the BACKLOG tasks whose dependencies are all DONE. |
| Runner.MissionRunner.ReleaseReadyTasks | factory/control_plane/runner.py:102-108 | On success exactly the tasks that could be released at the start, ascending, are READY, by one event each in that order, all else unchanged; on failure the first k of them are, and the next is refused with that error. |
| Runner.ReleaseReadyExactly | factory/control_plane/runner.py:102-108 | What the round sets out to release, how far it gets, and exactly when it gets to the end. |
| Runner.MissionRunner.AssertAllDone | factory/control_plane/runner.py:116-120 | Passes exactly when all tasks are DONE and the ledger verifies; otherwise names exactly the unfinished tasks in order. |
| Runner.MissionRunner.Replay | factory/control_plane/runner.py:122-146 | Succeeds exactly for a verified ledger, a creatable runner and transitions that all re-run; the new runner is in the replayed state. |
| MissionRuns.DecodeEncode | factory/control_plane/runner.py:122-146 | Replay reads back from an event exactly the call that wrote it. |
| MissionRuns.ExecExactly | factory/control_plane/runner.py:50-108 | One step of a run: accepted calls, release rounds and foreign events take effect, refused ones do not. |
| MissionRuns.MissionEventsAreEvents | factory/control_plane/runner.py:131-135 | What replay reads are exactly the transition events of the mission in the ledger. |
| Runner.BareEventDecodes | factory/control_plane/runner.py:136-145 | What an event leaves out is read as empty; without a task, or with a text that names no state, it cannot be read. |
| MissionRuns.RunKeeps | factory/control_plane/runner.py:50-108 | What accepted transitions and foreign appends keep, every run with releases keeps. |
| MissionRuns.RunKeepsLedgerSound | factory/control_plane/runner.py:50-108 | Every run leaves a ledger that verifies, with unique event ids. |
| MissionNumbering.NumberedRunNeverDuplicates | factory/control_plane/runner.py:76-78 | On a ledger shared by missions that all leave event ids to the numbering, no transition is ever refused for a duplicate id. |
| MissionRuns.TransitionKeepsReplay | factory/control_plane/runner.py:50-146 | One more accepted transition keeps replay in agreement with the live records. |
| MissionRuns.ReplayRefinesRun | factory/control_plane/runner.py:122-146 | After any run on a shared ledger, replaying the mission's events succeeds and gives the live records, in full. |
| MissionRuns.RestoredRunsOn | factory/runtime/sqlite_store.py:212-224 | A restored runner on the same ledger behaves like the live one under any further calls. |
| Replays.ReplayExactly | factory/control_plane/runner.py:122-146 | A mission's events replay exactly if they are readable, under distinct ids, and pass the guards task by task; the records are then what those histories make of new tasks. |
| Replays.TwoRunnersBreakReplay | factory/runtime/sqlite_store.py:212-224 | Two runners on one ledger can each release the same task, and then no later state of that ledger replays. |
| ReviewHistory.RunKeepsHistory | factory/control_plane/runner.py:62-99 | In every run each task's events form a legal path from BACKLOG, every guard met, and the record says exactly what they say: last state, all workers, last evidence and reviewers given, last objections. |
| ReviewHistory.DoneWasReviewed | factory/control_plane/state.py:30-39 | A DONE task's events end with IN_PROGRESS, READY_FOR_VERIFICATION, REVIEW with evidence, VERIFIED, DONE; the verifying reviewers exclude everyone who ever moved it to IN_PROGRESS. |
| ReviewHistory.ProtectedWorkWasApproved | factory/control_plane/state.py:39 | In every run, each event that moves a task from AWAITING_HUMAN_APPROVAL to IN_PROGRESS names a non-empty approval id. |
| ReviewHistory.VerifiedRecordIsIndependent | factory/control_plane/state.py:34-38 | While a task is VERIFIED its record names reviewers, none of them a worker. |
| ReviewHistory.DoneRecordReviewers | factory/control_plane/runner.py:62-99 | A DONE record's reviewers are independent exactly when those of its DONE event are. |
| ReviewHistory.DoneMayNameAWorker | factory/control_plane/runner.py:62-99 | A VERIFIED task can be moved to DONE naming its own worker as reviewer. |
| ReviewWitness.DoneNamesItsWorker | factory/control_plane/runner.py:62-99 | A run of accepted calls that reviews a task independently and then marks it DONE in its worker's name. |
| ReleaseSafety.JustifiedExactly | factory/control_plane/runner.py:50-108 | In any run every release is justified by earlier DONE events exactly if no direct transition takes a task from BACKLOG to READY while a dependency has none. |
| ReleaseSafety.JumpFreeRun | factory/control_plane/runner.py:102-108 | In a run without such jumps the ledger justifies every release and shows every state. |
| ReleaseSafety.JumpIsUnjustified | factory/control_plane/runner.py:50-100 | A jump leaves an unjustified release in every ledger that grows from it. |
| ReleaseSafety.WorkHasDependenciesDone | factory/control_plane/runner.py:102-108 | In a run without jumps, whenever a task enters IN_PROGRESS there is an earlier DONE event for each transitive dependency. |
| ReleaseSafety.TransitionIgnoresDependencies | factory/control_plane/runner.py:50-100 | A BACKLOG task with an undone dependency can always jump. |
| ReleaseSafety.WorkBeforeDependency | factory/control_plane/runner.py:50-100 | Two accepted transitions on a fresh ledger start work on any task while its dependency has no DONE event. |
| ReleaseSafety.ReleaseProgresses | factory/control_plane/runner.py:102-108 | While some task is BACKLOG and the rest are DONE, release has a task and its first transition is accepted. |
| MissionStore.SQLiteMissionStore.CreateRunner | factory/runtime/sqlite_store.py:175-210 | Stores a mission exactly when its graph is well formed, it has an id and tasks, and it is new. |
| MissionStore.SQLiteMissionStore.RestoreRunner | factory/runtime/sqlite_store.py:212-224 | Restores exactly the replayed state, bound to the durable ledger. |
| MissionStore.LoadedDictionary | factory/runtime/sqlite_store.py:226-245 | Loading the nodes back, in id order, gives the same task dictionary. |
| MissionStore.LoadedWellFormed | factory/runtime/sqlite_store.py:226-245 | A stored well-formed graph is loaded well formed. |
| MissionStore.RestoreAfterAnyRun | factory/runtime/sqlite_store.py:212-245 | After any run of its one live runner, restoring succeeds with the live records and goes on like the live runner. |
| ReliabilityEngine.DecideExactly | factory/reliability/engine.py:9-54 | On valid arguments decide never fails; it retries, reconciles and completes under exactly these conditions. |
| ReliabilityEngine.SafeExactly | factory/reliability/engine.py:29-54 | Repeating is safe exactly after a retryable failure, a read of unknown outcome, and an external write found not applied; never after a local write of unknown outcome. |
| ReliabilityEngine.ReasonsExactly | factory/reliability/engine.py:26-54 | Each reason is given in exactly one situation. |
| ReliabilityEngine.RefusalsInOrder | factory/reliability/engine.py:16-24 | Which error decide and the circuit raise, the first check that fails. |
| ReliabilityEngine.ProbeExactly | factory/reliability/engine.py:87-97 | Only an OPEN circuit can be probed; it becomes HALF_OPEN with its failures and threshold. |
| ReliabilityEngine.CircuitCounts | factory/reliability/engine.py:56-85 | The circuit counts failures since the last success and is OPEN exactly from the threshold on. |
| ReliabilityContracts.RefusedExactly | factory/reliability/contracts.py:44-98 | What attempts, circuits and decisions are refused for: blank ids, numbers out of range, an OPEN circuit below its threshold, a next attempt without a RETRY or the reverse, a reconciliation of a known outcome. |
| ReliabilityRuns.AttemptAcceptedExactly | factory/reliability/controller.py:53-101 | In a sound state an attempt is accepted exactly when the circuit is not OPEN, the operation is not finished, and it is the next number within the budget. |
| ReliabilityRuns.RecordRefusedExactly | factory/reliability/controller.py:53-71 | Why an attempt is refused: an OPEN circuit, an invalid record, the budget, a finished operation, a number out of sequence, the first that applies. |
| ReliabilityRuns.RecordedExactly | factory/reliability/controller.py:53-101 | What an accepted attempt leaves: action, status, next attempt and circuit by outcome, budget and threshold, and three journal entries. |
| ReliabilityRuns.RecordKeepsSound | factory/reliability/controller.py:53-101 | Recording an attempt keeps the invariant. |
| ReliabilityRuns.ReconcileAcceptedExactly | factory/reliability/controller.py:147-181 | Reconciliation is accepted exactly while it is required; what it decides follows from its result and the budget. |
| ReliabilityRuns.ReconcileRefusals | factory/reliability/controller.py:147-155 | Why a reconciliation is refused: nothing waits for it, or the latest attempt is missing or not ambiguous. |
| ReliabilityRuns.ReconciledExactly | factory/reliability/controller.py:147-181 | What each answer of a reconciliation leaves: action, reason, status and two journal entries, the circuit as it was. |
| ReliabilityRuns.ReconcileKeepsSound | factory/reliability/controller.py:147-181 | Reconciling keeps the invariant. |
| ReliabilityRuns.ProbeKeepsSound | factory/reliability/controller.py:136-145 | Opening a probe keeps the invariant. |
| ReliabilityRuns.ProbedAttemptIsAccepted | factory/reliability/controller.py:53-58 | The next attempt in budget is refused while the circuit is OPEN and accepted directly after a probe. |
| ReliabilityRuns.RunKeepsSound | factory/reliability/controller.py:53-181 | Every sequence of accepted and refused calls keeps the invariant. |
| ReliabilityRuns.AttemptBound | factory/reliability/controller.py:53-71 | No operation records more than its attempt budget, and one that is not an external write no more than the smaller of budget and circuit threshold. |
| ReliabilityRuns.LateAttemptsWereProbed | factory/reliability/controller.py:136-140 | An attempt beyond the threshold follows an external write recorded UNKNOWN, with a probe between the two; that write was confirmed NOT_APPLIED before the promise, or never reconciled and the attempt made blind. |
| ReliabilityRuns.EveryAttemptIsPromisedOrBlind | factory/reliability/store.py:152-164 | The first attempt follows no decision; each later one was promised by name in the latest decision, or made while an ambiguous external write stood unreconciled, and never both. |
| ReliabilityRuns.EveryRetryIsJustified | factory/reliability/engine.py:29-54 | Each journalled RETRY answers a retryable failure, a read of unknown outcome or a write reconciled NOT_APPLIED, and promises exactly the next attempt within the budget. |
| ReliabilityRuns.RetryIsHonoured | factory/reliability/store.py:160-164 | While RETRY_READY, the promised attempt is accepted whenever the circuit is not OPEN. |
| ReliabilityRuns.RetryReadyWhileOpen | factory/reliability/controller.py:162-167 | Reconciling under an OPEN circuit gives RETRY_READY exactly for NOT_APPLIED within the budget, and the circuit stays OPEN. |
| ReliabilityRuns.RecordedRetryIsNeverOpen | factory/reliability/controller.py:71-101 | Recording an attempt makes an operation RETRY_READY exactly when repeating is safe and neither budget nor threshold is reached, and then the circuit is not OPEN. |
| ReliabilityRuns.RetryReadyBesideOpen | factory/reliability/controller.py:147-167 | While RETRY_READY the circuit is not CLOSED exactly from the threshold on, and then the retry was decided directly after a reconciliation that confirmed NOT_APPLIED. |
| ReliabilityWitnesses.RetryReadyBesideOpenHappens | factory/reliability/controller.py:147-167 | As many lost and denied attempts as the threshold end RETRY_READY beside an OPEN circuit, for every external write with a larger budget. |
| ReliabilityWitnesses.LateAttemptHappens | factory/reliability/controller.py:136-140 | The same run, a probe and one attempt more: an attempt numbered above the threshold is accepted and succeeds. |
| ReliabilityRuns.AmbiguousWriteMayBeAttemptedAgain | factory/reliability/store.py:152-164 | While RECONCILE_REQUIRED the next attempt is accepted exactly when the circuit is not OPEN and the budget allows, and it is then a blind one. |
| ReliabilityRuns.BlindSecondAttempt | factory/reliability/store.py:152-164 | A concrete run in which an external write of unknown outcome is attempted again without reconciliation. |
| ReliabilityRuns.CallsAreJournalled | factory/reliability/store.py:139-214 | Each accepted attempt or reconcile call adds exactly one such journal entry. |
| ReliabilityRuns.EveryOperationSettles | factory/reliability/store.py:139-214 | At most twice the attempt budget of attempt and reconcile calls is ever accepted. |
| ReliabilityRuns.StatusIsTheJournals | factory/reliability/store.py:369-376 | The status is READY exactly without a decision and otherwise the image of the latest one; attempts are numbered from one; RECONCILE_REQUIRED exactly when an ambiguous external write stands with no reconciliation entry since. |
| ReliabilityController.SQLiteReliabilityStore.Register | factory/reliability/store.py:104-118 | Adds an operation exactly if it is new, its names, budget and timeout are given, a read has no compensation and an external write an idempotency key and reconciliation; it is READY, its circuit CLOSED with threshold 3, and nothing else changes. |
| ReliabilityController.SQLiteReliabilityStore.AppendAttemptAndDecision | factory/reliability/store.py:139-187 | Appends attempt and decision, and the circuit if one is given, and updates the row, or changes nothing; refuses invalid records and accepts only the next attempt of an unfinished operation. |
| ReliabilityController.SQLiteReliabilityStore.AppendReconciliationAndDecision | factory/reliability/store.py:189-214 | Appends reconciliation and decision and updates the status, or changes nothing. |
| ReliabilityController.SQLiteReliabilityStore.SaveCircuit | factory/reliability/store.py:225-237 | Replaces a known operation's circuit and journals it. |
| ReliabilityController.SQLiteReliabilityStore.FindLatestAttempt | factory/reliability/store.py:329-339 | The last journalled attempt of the operation. |
| ReliabilityController.SQLiteReliabilityStore.FindLatestDecision | factory/reliability/store.py:341-351 | The last journalled decision of the operation. |
| ReliabilityController.DurableOperationController.RecordAttempt | factory/reliability/controller.py:53-101 | Acts on the operation's view as one recorded attempt and leaves all other operations alone. |
| ReliabilityController.DurableOperationController.ReconcileOutcome | factory/reliability/controller.py:147-181 | Acts as one reconciliation and leaves all other operations alone. |
| ReliabilityController.DurableOperationController.OpenProbe | factory/reliability/controller.py:136-145 | Succeeds exactly for an OPEN circuit, which becomes HALF_OPEN with its failures and threshold; one journal row tells it, and nothing else changes. |
| ReliabilityController.DurableOperationController.ResumeAction | factory/reliability/controller.py:220-225 | The latest decision, whose image the stored status is. |
| Recovery.ItemOf | factory/reliability/recovery.py:51-74 | An item halts recovery exactly when the operation is RECONCILE_REQUIRED or STOPPED. |
| Recovery.Recover | factory/reliability/recovery.py:47-74 | Reports every listed operation of the mission in order; safe to continue exactly when none is RECONCILE_REQUIRED or STOPPED. |
| Base64Url.DecodeEncode | missions/real_estate/search.py:248-263 | With the URL-safe alphabet (section 5 of RFC 4648), decoding an encoded byte string gives it back. |
| Base64Url.KnownEncodings | missions/real_estate/search.py:258 | The encodings section 10 of RFC 4648 lists, and one with both URL-safe characters. |
| Base64Url.UnpaddedRoundTrip | missions/real_estate/search.py:248-264 | Stripping the padding and restoring it from the length gives the encoded text back, hence the bytes (section 3.2 of RFC 4648). |
| Search.CursorRoundTrip | missions/real_estate/search.py:248-284 | A result's cursor decodes to exactly its sort key under its own signature and is refused under any other. |
| Search.PayloadRoundTrip | missions/real_estate/search.py:248-284 | Any payload written as a cursor is read back, and accepted only under its own signature and version 1. |
| Search.BrokenCursorIsInvalid | missions/real_estate/search.py:260-284 | A cursor is invalid exactly if it does not decode, or decodes to no payload. |
| Search.AcceptedCursorHolds | missions/real_estate/search.py:260-284 | An accepted cursor holds a payload of version 1 under the expected signature, and gives its key; any other text is refused. |
| Search.SortAscending | missions/real_estate/search.py:184-190 | Results with distinct ids sort strictly, by score, verification time and id. |
| Search.BestFirst | missions/real_estate/search.py:214-217 | The full sort shows the best score first, then the most recently verified, then the smaller id. |
| Search.KeysOrderByRank | missions/real_estate/search.py:214-217 | One sort key is less than another exactly if its result has the better score, the later verification or the smaller id, in that order. |
| Search.SortAfter | missions/real_estate/search.py:181-184 | Filtering after a cursor and then sorting is cutting the full sort. |
| Search.AfterIsSuffix | missions/real_estate/search.py:223-225 | What lies after the cursor of position i is exactly the rest of the sorted list. |
| Search.EligibleExactly | missions/real_estate/search.py:131-182 | A result is eligible exactly if some row ranks to it. |
| Search.AfterCounts | missions/real_estate/search.py:181-186 | There are as many results after a position as rows that rank behind it. |
| Search.RankedAfter | missions/real_estate/search.py:131-182 | The loop keeps exactly the results of the rows that rank behind the cursor, as many as there are such rows. |
| Search.SearchFor | missions/real_estate/search.py:104-190 | Answers exactly for a legal page size and cursor; the page counts the rows that rank behind the cursor and shows the best of them in order, as many as fit, with a cursor to the last exactly if some are left. |
| Search.PageFromRows | missions/real_estate/search.py:184-190 | The page cut from the full sort is the page told by the rows. |
| Search.CursorNotSigned | missions/real_estate/search.py:227-246 | Replacing the cursor leaves a query's signature unchanged. |
| Search.CursorOfOtherQuery | missions/real_estate/search.py:227-284 | A cursor is good for exactly the queries with the criteria and page size it was made under, and refused by any other; none, or an empty one, is the start. |
| Search.NextPage | missions/real_estate/search.py:104-190 | With the cursor held after i results the answer is the page after them and its cursor. |
| Search.PageCountIsCeiling | missions/real_estate/search.py:184-190 | The number of pages is the ceiling of n by page size, and one for no results. |
| Search.FollowPages | missions/real_estate/alerts.py:401-411 | Repeating the query with next_cursor until it is absent ends, in that many pages, with the result of every row that ranks and no other, each once, the best first. |
| Search.FullSortTells | missions/real_estate/alerts.py:401-411 | The full sort holds the result of every row that ranks, and no other, the better before the worse. |
| Alerts.EventTextInjective | missions/real_estate/alerts.py:368-373 | Event id texts of canonical ids without a bar differ for different search, version or listing. |
| Alerts.EventTextCollides | missions/real_estate/alerts.py:368-373 | Two different triples with the same event id text, using a bar. |
| Alerts.MarkAllExactly | missions/real_estate/alerts.py:220-283 | An accepted marking adds exactly one event for each listing not matched before at this version, and all matches. |
| Alerts.MarkAllAcceptedExactly | missions/real_estate/alerts.py:220-283 | A marking is accepted exactly when no id is blank and no new match needs an event id already taken. |
| Alerts.MarkAllRefusedExactly | missions/real_estate/alerts.py:220-283 | A refused marking names a blank id, or a new match whose event id is taken. |
| Alerts.SaveExactly | missions/real_estate/alerts.py:122-177 | A valid search is saved as it says; version and primed flag follow the stored row while the criteria stay, and a change raises the version and asks for a new baseline. |
| Alerts.SavedReadsBack | missions/real_estate/alerts.py:353-362 | A saved search is read back asking the same, with its owner, name and enabled flag, at the version it was given. |
| Alerts.EvaluateExactly | missions/real_estate/alerts.py:385-393 | A disabled search is left alone; an enabled one is primed and its ids recorded, silently the first time, then with one event to its owner for each new id. |
| Alerts.EvaluateAcceptedExactly | missions/real_estate/alerts.py:385-393 | An evaluation succeeds exactly if no id is blank and, once primed, no new event's id is taken. |
| Alerts.SaveKeepsSound | missions/real_estate/alerts.py:122-177 | Saving (new, unchanged, renamed or with changed criteria) keeps the tables true to the history. |
| Alerts.VersionFixesCriteria | missions/real_estate/alerts.py:122-177 | Versions never fall, and between two moments of a run with the same version a search has the same criteria and stays primed. |
| Alerts.BaselineKeepsSound | missions/real_estate/alerts.py:191-218 | Establishing a baseline keeps the tables true to the history. |
| Alerts.EvaluateKeepsSound | missions/real_estate/alerts.py:385-393 | Every accepted evaluation keeps the tables true to the history. |
| Alerts.RunIsSound | missions/real_estate/alerts.py:122-283 | After any interleaving of saves and evaluations match rows, primed flags and outbox are what the history of evaluations says. |
| Alerts.ExactlyOnce | missions/real_estate/alerts.py:220-283 | An event exists exactly for the listings some evaluation after the baseline saw first at that version, and only one each. |
| Alerts.BaselinedNeverAlerts | missions/real_estate/alerts.py:191-218 | A baselined listing never alerts at that version. |
| Alerts.UnprimedHasNoMatches | missions/real_estate/alerts.py:122-177 | An unprimed search has no match row at its current version. |
| Alerts.CleanEvaluationSucceeds | missions/real_estate/alerts.py:385-393 | With non-blank canonical ids free of bars no evaluation ever fails. |
| Alerts.CollisionBlocksAlert | missions/real_estate/alerts.py:220-283 | A taken event id makes the evaluation fail and leaves everything as it was. |
| AlertCollisions.CollisionIsReachable | missions/real_estate/alerts.py:220-283 | Whenever two searches' alerts share an event id text, a run of five calls makes the second one's evaluation fail. |
| AlertCollisions.CollisionHappens | missions/real_estate/alerts.py:368-373 | Such a run, with literal ids. |
| AlertCollisions.CanonicalIdIsClean | missions/real_estate/inventory.py:158 | A canonical id made from a fingerprint without a bar is neither blank nor holds a bar. |
| AlertStore.SQLiteSavedSearchStore.Save | missions/real_estate/alerts.py:122-177 | Changes the search row as specified, raising the version and unpriming exactly on changed criteria. |
| AlertStore.SQLiteSavedSearchStore.EstablishBaseline | missions/real_estate/alerts.py:191-218 | With any copy of a search: records all ids at the copy's version and primes the stored row without alerting; a blank id or an unknown search changes nothing. |
| AlertStore.SQLiteSavedSearchStore.MarkMatches | missions/real_estate/alerts.py:220-283 | With any copy of a search: records matches and events at its version in one transaction, or changes nothing. |
| StaleSearches.BaselineExactly | missions/real_estate/alerts.py:191-218 | With any copy: accepted for named listings and stored searches; the ids are recorded at the copy's version, the stored row primed, no event made. |
| StaleSearches.MarkExactly | missions/real_estate/alerts.py:220-283 | With any copy: accepted exactly for a primed search, named listings and free event ids; one event for each new id, at the copy's version and to its owner. |
| StaleSearches.InvalidIsRefused | missions/real_estate/alerts.py:191-228 | A search that does not hold together is refused before anything else is looked at. |
| StaleSearches.BaselineSoundExactly | missions/real_estate/alerts.py:191-218 | A baseline keeps the tables true to the history exactly if the copy's version was never evaluated and is the stored one, or an older one of a primed search; for an unprimed search exactly if the versions agree. |
| StaleSearches.MarkSoundExactly | missions/real_estate/alerts.py:220-283 | A marking keeps them true exactly if the copy's version was evaluated before. |
| StaleSearches.StoredCopyFits | missions/real_estate/alerts.py:385-393 | With the copy that evaluate reads both conditions hold. |
| StaleSearches.StaleBaselineAlertsAll | missions/real_estate/alerts.py:191-218 | After a baseline with a stale copy the next evaluation alerts on every current match. |
| StaleSearches.StaleBaselineHappens | missions/real_estate/alerts.py:191-218 | A run in which that happens: save, edit, baseline with the first copy, evaluate. |
| AlertStore.AllMatchingIds | missions/real_estate/alerts.py:401-411 | The loop ends with the id of every row that ranks, and no other, each once, in search order. |
| AlertStore.CurrentMatchesExactly | missions/real_estate/alerts.py:401-411 | The current matches are the ids of the rows that rank, each listed once. |
| AlertStore.Evaluate | missions/real_estate/alerts.py:385-393 | One evaluation of a search against its current matches: baseline first, alerts afterwards, nothing when disabled. |
| Listings.FinalStatesAreFinal | missions/real_estate/integrity.py:17-37 | From SOLD, RENTED and WITHDRAWN no other state is reached. |
| Listings.TransitionExactly | missions/real_estate/integrity.py:17-71 | A move is accepted exactly if it stays put or enters its target from one of the states that lead there. |
| Listings.KeysExactly | missions/real_estate/inventory.py:463-480 | Two submissions are one source version exactly if reference, publisher, both times, state, price, area, bedrooms, title, description and images agree. |
| Inventory.SQLiteInventoryStore.AddSource | missions/real_estate/inventory.py:154-279 | Adds source, membership and row or event together or nothing; what is accepted is stored afterwards, and stored as it came unless this source version was. |
| Inventory.AddAcceptedExactly | missions/real_estate/inventory.py:154-279 | A submission is taken exactly if it is complete and its rights allow it, and it is known, joins a group of its fingerprint, or founds one under a free id for a named actor. |
| Inventory.AddRefusedExactly | missions/real_estate/inventory.py:154-279 | A submission is refused for what it is, for a group of another fingerprint under its id, or for want of an actor, and says which. |
| Inventory.AddExactly | missions/real_estate/inventory.py:154-279 | A known source version changes nothing; any other is stored as it came, in its group, whose row is then verified no earlier, and a new group is told of in the log. |
| Inventory.ReverificationRefreshes | missions/real_estate/inventory.py:204-273 | A listing added again unchanged but verified later is stored again, and its row shows the later time. |
| Inventory.CanonicalIdExactly | missions/real_estate/inventory.py:158 | A canonical id is CAN- and the first twenty characters of the fingerprint. |
| Inventory.SQLiteInventoryStore.TransitionState | missions/real_estate/inventory.py:281-300 | Moves the state and appends the lifecycle event together, or changes nothing. |
| Inventory.MoveExactly | missions/real_estate/inventory.py:281-300 | A listing moves exactly by a legal move with a reason and an actor; its row changes in state alone and one entry tells from where, to where, why and by whom. Each refusal for exactly its reason. |
| Inventory.SaleHappens | missions/real_estate/inventory.py:281-300 | A run that adds an ACTIVE listing and sells it: SOLD, with both entries in its log. |
| Inventory.AddKeepsSound | missions/real_estate/inventory.py:154-279 | An accepted add keeps the view true: a newcomer takes over exactly when verified strictly later. |
| Inventory.TransitionKeepsSound | missions/real_estate/inventory.py:281-300 | An accepted transition keeps the view and the chained log true. |
| Inventory.InventoryIsAView | missions/real_estate/inventory.py:154-300 | After any adds and transitions each source is in exactly one group, each row copies the earliest-added of its most recently verified sources, and its state is the end of a chained log. |
| Inventory.ArrivalOrderIrrelevant | missions/real_estate/inventory.py:204-273 | With distinct verification times the columns of a group do not depend on arrival order. |
| Inventory.FinalForever | missions/real_estate/inventory.py:281-300 | SOLD, RENTED and WITHDRAWN never change under any later adds and transitions. |
| Inventory.KnownSourceReturns | missions/real_estate/inventory.py:162-167 | Adding a known source version changes nothing; the id returned is its group's exactly when both fingerprints give the same canonical id. |
| Inventory.RelocationIsDropped | missions/real_estate/inventory.py:463-480 | A listing moved to another city has the same source version: the new location is dropped and a foreign id returned. |
| Inventory.RelocationHappens | missions/real_estate/inventory.py:154-167 | Added once and then again from another city, every listing is dropped that way. |

## Left out

- Ledger.AuditLedger.Append: SHA-256 over canonical JSON is a free constructor of its fields, so collisions, text encoding and byte order are not modelled; payloads are maps to texts and lists of texts.
- Ledger.SQLiteAuditLedger.Append: rows are listed by their sequence, the primary key; other connections appending between the statements of one append are excluded by its transaction.
- Runner.MissionRunner.Transition: task records are values in a map, so a caller's alias of a record object is not modelled.
- MissionRuns.ReplayRefinesRun: for one live runner of the mission; what a second one does to the ledger is in the module Replays.
- MissionStore.SQLiteMissionStore.RestoreRunner: the durable ledger is the same kind of object as the ledger in memory, whose appends agree by the contract of the durable append.
- EngineeringPod.ValidatedPlan: the planner's answers in one run are functions of plan and round; the findings it is told follow from design and plan.
- EngineeringPod.RunPackage: workers answer as functions of package, workspace, evidence and round; the workspace allocator is any partial function whose assignments are then checked, and how it makes branch names is left out.
- EngineeringPod.RunIntegrated: the catalogue's copies of evidence and manifest are left out; of the design only its mission, summary and requirements are part of the model.
- PlanValidator.Validate: findings carry their code and subject, not their message text; which of several contract errors an invalid package reports is not stated.
- Base64Url.DecodeEncode: the decoder refuses characters outside the alphabet, which the library function skips; the code only promises the round trip.
- Search.CursorRoundTrip: the JSON codec is any pair of functions that undo each other; a payload that decodes but lacks a field is an invalid cursor.
- Search.SearchFor: text relevance, filters, ranking weights and radius search are one function from row to optional result; scores are integers, and last_verified_at is its instant, not its text.
- AlertStore.SQLiteSavedSearchStore.Save: the serialised query fields are one criteria value, and their range validation is left out.
- Inventory.SQLiteInventoryStore.AddSource: a source version is the record of its four parts, so ambiguity of the joined text is not modelled; timestamps of rows are left out.
- Inventory.SQLiteInventoryStore.TransitionState: updated_at and the sweep that expires stale rows are left out.
- ReliabilityController.DurableOperationController.RecordAttempt: metrics, traces, deadlines and compensation are left out.
- Recovery.Recover: the report's own text checks beyond ids and order are left out.
- AuditArchive.VerifyArchive: which of several mismatches is reported is not stated.
- Integration.Integrate: its errors beside the two order errors are not told apart.
- The order of `source_members`, inventory queries and publisher trust: single reads without a state change.
- `can_run_in_parallel`, `parallel_pairs` and `retry_decision`: single-branch helpers.
- Research, design, assurance, qualification, policy, presentation, transports, tracing, secrets, backup, incident, review-queue and memory stores: field validation, or smaller repeats of the ledger and state-machine results.
