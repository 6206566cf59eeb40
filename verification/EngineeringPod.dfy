/** From an engineering plan through its execution order to the integration manifest. */
module EngineeringPod {
  import opened Wrappers
  import opened Graphs
  import opened WorkPackages
  import opened Scheduling
  import opened Scopes
  import opened Text
  import opened Integration
  import opened Revision
  import opened Places
  import opened SamplePlans
  import PV = PlanValidator
  import EV = EvidenceValidator

  datatype PodError =
    | InvalidDesign
    | PlanRevision(reason: RevisionError)
    | DependencyDeadlock
    | NoDisciplineOwner
    | WorkerMissing(agentId: string)
    | WorkerMismatch(packageId: string)
    | WorkspaceRefused(packageId: string)
    | ImplementationRevision(packageId: string, reason: RevisionError)
    | IntegrationFailed(error: IntegrationError)

  datatype Plan = Plan(packages: seq<WorkPackage>)

  /**
   The planner's answers in one run. The design is fixed and the findings follow from design and plan, so a revision
   is a function of the plan and the round.
   */
  datatype Planner = Planner(first: Plan, revise: Option<(Plan, nat) -> Plan>)

  datatype Worker = Worker(
    agentId: string,
    discipline: string,
    implement: (WorkPackage, string) -> Evidence,
    revise: Option<(WorkPackage, string, Evidence, nat) -> Evidence>)

  datatype Assignment = Assignment(
    workspaceId: string, missionId: string, packageId: string, ownerAgent: string, branchName: string,
      writeScopes: seq<string>)

  /** WorkspaceAssignment.validate_for */
  predicate AssignmentValid(w: Assignment, p: WorkPackage) {
    && ValidatePackage(p).None?
    && w.missionId == p.missionId && w.packageId == p.packageId && w.ownerAgent == p.ownerAgent
    && w.writeScopes == p.writeScopes
    && !IsBlank(w.workspaceId) && !IsBlank(w.branchName)
    && w.workspaceId == p.missionId + ":" + p.packageId
    && w.branchName[0] != '/' && w.branchName[|w.branchName| - 1] != '/' && !Contains(w.branchName, "..")
  }

  /** The coordinator's parts: the allocator may refuse a package. */
  datatype Pod = Pod(
    planner: Planner,
    workers: map<string, Worker>,
    allocate: WorkPackage -> Option<Assignment>,
    maxPlanRounds: nat,
    maxImplementationRounds: nat)

  lemma AcceptedIsKnown(design: DesignBundle, packages: seq<WorkPackage>)
    requires PV.Accepted(design, packages)
    ensures Distinct(PackageIds(packages)) && DependenciesKnown(PackageMap(packages)) && Acyclic(PlanGraph(packages))
    ensures forall p :: p in packages ==> ValidatePackage(p).None?
  {
    PV.AcceptedMeans(design, packages);
    var m := PackageMap(packages);
    forall id, d | id in m && d in m[id].dependsOn ensures d in m {
      assert m[id] in packages && d in SetOf(PackageIds(packages));
    }
  }

  /** The ids of a topological order pass every order check of integration. */
  lemma TopologicalPassesChecks(packages: seq<WorkPackage>, order: seq<WorkPackage>)
    requires Distinct(PackageIds(packages)) && TopologicalOrder(order, PackageMap(packages))
    ensures OrderChecks(packages, PackageIds(order))
  {
    var ids := PackageIds(order);
    assert SetOf(ids) == PackageMap(packages).Keys;
    forall p, d | p in packages && d in p.dependsOn ensures Before(ids, d, p.packageId) {
      var k :| 0 <= k < |packages| && packages[k] == p;
      KeyedTotal(packages, PackageIdOf, k);
      var j := Position(order, PackageMap(packages), p.packageId);
      var i := Earlier(order, j, d);
      assert ids[i] == d && ids[j] == p.packageId;
    }
  }

  /** A plan the validator accepts can always be scheduled, and integration accepts the order. */
  lemma AcceptedPlanSchedules(design: DesignBundle, packages: seq<WorkPackage>)
    returns (order: seq<WorkPackage>)
    requires PV.Accepted(design, packages)
    ensures Schedule(PackageMap(packages), {}) == Some(order)
    ensures TopologicalOrder(order, PackageMap(packages)) && |order| == |packages|
    ensures OrderChecks(packages, PackageIds(order))
  {
    AcceptedIsKnown(design, packages);
    ScheduleExact(packages);
    order := Schedule(PackageMap(packages), {}).value;
    TopologicalPassesChecks(packages, order);
    DistinctByCount(PackageIds(packages));
    DistinctByCount(PackageIds(order));
    assert SetOf(PackageIds(order)) == SetOf(PackageIds(packages));
  }

  /** What remains to be satisfied once the plan is accepted and every evidence is clean. */
  ghost predicate Combinable(missionId: string, packages: seq<WorkPackage>, ids: seq<string>, em: EvidenceMap) {
    && packages != [] && (forall p :: p in packages ==> p.missionId == missionId)
    && EvidenceCompatible(ids, em)
  }

  /** The evidence of different packages does not clash. */
  ghost predicate EvidenceCompatible(ids: seq<string>, em: EvidenceMap) {
    && Unshared(ids, em, Produced)
    && (forall id :: id in ids && id in em ==> "" !in Produced(em[id]))
    && Distinct(Concat(ids, em, Changed))
    && Distinct(Concat(ids, em, VerificationIds))
  }

  lemma CleanEvidenceMatches(order: seq<WorkPackage>, implement: WorkPackage -> Evidence)
    requires Distinct(PackageIds(order)) && forall p :: p in order ==> EV.Clean(p, implement(p))
    ensures EvidenceIds(Mapped(order, implement)) == PackageIds(order)
    ensures forall p :: p in order ==> p.packageId in EvidenceById(Mapped(order, implement))
                                       && EvidenceById(Mapped(order, implement))[p.packageId] == implement(p)
  {
    var es := Mapped(order, implement);
    forall i | 0 <= i < |order| ensures es[i].packageId == order[i].packageId {
      assert order[i] in order;
      EV.CleanMeans(order[i], es[i]);
    }
    forall p | p in order
      ensures p.packageId in EvidenceById(es) && EvidenceById(es)[p.packageId] == implement(p)
    {
      var i :| 0 <= i < |order| && order[i] == p;
      KeyedTotal(es, EvidencePackageOf, i);
    }
  }

  /**
   With an accepted plan and clean evidence, integration can fail for no reason but these: the plan is empty,
   a package names another mission, or the evidence of different packages clashes.
   */
  lemma AcceptedIntegratesExactly(design: DesignBundle, packages: seq<WorkPackage>, order: seq<WorkPackage>,
                                  implement: WorkPackage -> Evidence)
    requires PV.Accepted(design, packages) && Schedule(PackageMap(packages), {}) == Some(order)
    requires forall p :: p in order ==> EV.Clean(p, implement(p))
    ensures var es, ids := Mapped(order, implement), PackageIds(order);
            (InputsExact(design.missionId, packages, es, ids)
             && PartsCompatible(ids, PackageMap(packages), EvidenceById(es)))
            <==> Combinable(design.missionId, packages, ids, EvidenceById(es))
  {
    var order' := AcceptedPlanSchedules(design, packages);
    assert order' == order;
    AcceptedIsKnown(design, packages);
    CleanEvidenceMatches(order, implement);
    PackageInOrder(packages, PackageIds(order));
    CleanByPackage(packages, order, implement);
    CleanParts(PackageIds(order), PackageMap(packages), EvidenceById(Mapped(order, implement)));
  }

  lemma CleanParts(ids: seq<string>, pm: Packages, em: EvidenceMap)
    requires SetOf(ids) == pm.Keys
    requires forall id :: id in ids && id in pm && id in em ==> EV.Clean(pm[id], em[id])
    ensures PartsCompatible(ids, pm, em) <==> ids != [] && EvidenceCompatible(ids, em)
  {
    assert forall id :: id in ids ==> id in SetOf(ids);
  }

  lemma CleanByPackage(packages: seq<WorkPackage>, order: seq<WorkPackage>, implement: WorkPackage -> Evidence)
    requires TopologicalOrder(order, PackageMap(packages)) && Distinct(PackageIds(order))
    requires forall p :: p in order ==> EV.Clean(p, implement(p))
    ensures var em := EvidenceById(Mapped(order, implement));
            forall id :: id in PackageIds(order) && id in PackageMap(packages) && id in em ==>
                           EV.Clean(PackageMap(packages)[id], em[id])
  {
    CleanEvidenceMatches(order, implement);
    var em := EvidenceById(Mapped(order, implement));
    forall id | id in PackageIds(order) && id in PackageMap(packages) && id in em
      ensures EV.Clean(PackageMap(packages)[id], em[id])
    {
      var i := Position(order, PackageMap(packages), id);
      assert order[i] in order;
    }
  }

  method CleanEvidence(p: WorkPackage, e: Evidence) returns (clean: bool)
    ensures clean <==> EV.Clean(p, e)
  {
    var findings := EV.ValidateEvidence(p, e);
    if findings.Ok? && findings.value != [] { assert EV.Justified(findings.value[0], p, e); }
    return findings.Ok? && findings.value == [];
  }

  // ------------------------------------------------------------------------
  // One package

  ghost function CleanFor(p: WorkPackage): Evidence -> bool {
    e => EV.Clean(p, e)
  }

  function ReviserFor(worker: Worker, p: WorkPackage, workspaceId: string): Option<(Evidence, nat) -> Evidence> {
    match worker.revise
    case None => None
    case Some(revise) => Some((e: Evidence, round: nat) => revise(p, workspaceId, e, round))
  }

  /** The worker for a package and its workspace, or the reason there is none. */
  function Dispatch(pod: Pod, p: WorkPackage): Result<(Worker, string), PodError> {
    if p.discipline !in DISCIPLINE_OWNER then Err(NoDisciplineOwner) else
    var owner := DISCIPLINE_OWNER[p.discipline];
    if owner !in pod.workers then Err(WorkerMissing(owner)) else
    var worker := pod.workers[owner];
    if worker.agentId != p.ownerAgent || worker.discipline != p.discipline then Err(WorkerMismatch(p.packageId)) else
    var assignment := pod.allocate(p);
    if assignment.None? || !AssignmentValid(assignment.value, p) then Err(WorkspaceRefused(p.packageId))
    else Ok((worker, assignment.value.workspaceId))
  }

  /**
   A workspace fits exactly if it is that of the package, in mission, id, owner and scopes, is called after mission and
   package, and its branch has a name that does not begin or end with a slash, nor holds two dots in a row.
   */
  lemma AssignmentExactly(w: Assignment, p: WorkPackage)
    ensures AssignmentValid(w, p) <==>
            && KeepsContract(p)
            && w.missionId == p.missionId && w.packageId == p.packageId && w.ownerAgent == p.ownerAgent
            && w.writeScopes == p.writeScopes && w.workspaceId == p.missionId + ":" + p.packageId
            && (exists c :: c in w.branchName && !IsSpace(c))
            && w.branchName[0] != '/' && w.branchName[|w.branchName| - 1] != '/'
            && forall i :: 0 <= i < |w.branchName| - 1 ==> w.branchName[i] != '.' || w.branchName[i + 1] != '.'
  {
    ContractExactly(p);
    BlankExactly(w.branchName);
    BlankExactly(w.workspaceId);
    var named := p.missionId + ":" + p.packageId;
    assert named[|p.missionId|] == ':' && ':' in named && !IsSpace(':');
    TwoDots(w.branchName);
  }

  lemma TwoDots(s: string)
    ensures Contains(s, "..") <==> exists i :: 0 <= i < |s| - 1 && s[i] == '.' && s[i + 1] == '.'
  {
    if i :| 0 <= i <= |s| && OccursAt(s, "..", i) { assert s[i..i + 2][0] == s[i] && s[i..i + 2][1] == s[i + 1]; }
    if i :| 0 <= i < |s| - 1 && s[i] == '.' && s[i + 1] == '.' {
      assert s[i..i + 2] == "..";
      assert OccursAt(s, "..", i);
    }
  }

  /** The discipline's one owner does the work, under its own name, in the workspace allotted; or this is why not. */
  lemma DispatchExactly(pod: Pod, p: WorkPackage)
    ensures var r := Dispatch(pod, p);
            && (r == Err(NoDisciplineOwner) <==> forall owner :: !Owns(owner, p.discipline))
            && forall owner :: Owns(owner, p.discipline) ==>
                 if owner !in pod.workers then r == Err(WorkerMissing(owner)) else
                 var worker, w := pod.workers[owner], pod.allocate(p);
                 if worker.agentId != p.ownerAgent || worker.discipline != p.discipline
                 then r == Err(WorkerMismatch(p.packageId))
                 else if w == None || !AssignmentValid(w.value, p) then r == Err(WorkspaceRefused(p.packageId))
                 else r == Ok((worker, w.value.workspaceId))
  {
    assert p.discipline in DISCIPLINE_OWNER ==> Owns(DISCIPLINE_OWNER[p.discipline], p.discipline);
  }

  /** What running a package comes to: dispatched, implemented, and revised until the evidence is clean. */
  ghost function PackageOutcome(pod: Pod, p: WorkPackage): Result<Evidence, PodError> {
    match Dispatch(pod, p)
    case Err(e) => Err(e)
    case Ok((worker, workspaceId)) =>
      match Outcome(CleanFor(p), ReviserFor(worker, p, workspaceId), worker.implement(p, workspaceId), 0,
                    pod.maxImplementationRounds)
      case Err(reason) => Err(ImplementationRevision(p.packageId, reason))
      case Ok(e) => Ok(e)
  }

  /** _run_package */
  method RunPackage(pod: Pod, p: WorkPackage) returns (r: Result<Evidence, PodError>)
    ensures r == PackageOutcome(pod, p)
  {
    var dispatched := Dispatch(pod, p);
    if dispatched.Err? { return Err(dispatched.error); }
    var (worker, workspaceId) := dispatched.value;
    var e, max := worker.implement(p, workspaceId), pod.maxImplementationRounds;
    ghost var ok, first := CleanFor(p), e;
    var revise := ReviserFor(worker, p, workspaceId);
    var round: nat := 0;
    while true
      invariant round <= max && Outcome(ok, revise, e, round, max) == Outcome(ok, revise, first, 0, max)
      decreases max - round
    {
      var clean := CleanEvidence(p, e);
      if clean { return Ok(e); }
      if round >= max { return Err(ImplementationRevision(p.packageId, Exhausted)); }
      if revise.None? { return Err(ImplementationRevision(p.packageId, Unsupported)); }
      var previous := e;
      e := revise.value(previous, round + 1);
      if e == previous { return Err(ImplementationRevision(p.packageId, NoProgress)); }
      round := round + 1;
    }
  }

  /** Evidence that running the package delivers; arbitrary when it delivers none. */
  ghost function Delivered(pod: Pod): WorkPackage -> Evidence {
    p => if PackageOutcome(pod, p).Ok? then PackageOutcome(pod, p).value else Evidence("", [], [], [])
  }

  /**
   A dispatched package delivers exactly if some round's answer within the limit is clean, none before it is and each
   changes something; the first answer is the worker's, each later one what it makes of the one before.
   */
  lemma DeliveredIsFirstClean(pod: Pod, p: WorkPackage)
    requires Dispatch(pod, p).Ok?
    ensures var (worker, workspaceId) := Dispatch(pod, p).value;
            var ok, revise, first := CleanFor(p), ReviserFor(worker, p, workspaceId), worker.implement(p, workspaceId);
            && (PackageOutcome(pod, p).Ok? <==>
                  exists k :: 0 <= k <= pod.maxImplementationRounds && SettlesAt(ok, revise, first, k))
            && (forall k :: 0 <= k <= pod.maxImplementationRounds && SettlesAt(ok, revise, first, k) ==>
                  PackageOutcome(pod, p) == Ok(AnswerAt(revise, first, k)))
            && (PackageOutcome(pod, p).Err? ==>
                  PackageOutcome(pod, p).error
                  == ImplementationRevision(p.packageId,
                                            Outcome(ok, revise, first, 0, pod.maxImplementationRounds).error))
            && (revise.Some? <==> worker.revise.Some?)
            && (revise.Some? ==>
                  forall e, round :: revise.value(e, round) == worker.revise.value(p, workspaceId, e, round))
  {
    var (worker, workspaceId) := Dispatch(pod, p).value;
    OutcomeExactly(CleanFor(p), ReviserFor(worker, p, workspaceId), worker.implement(p, workspaceId),
                   pod.maxImplementationRounds);
  }

  /** Packages of one mission are worked on apart: when both deliver, their workspaces are two. */
  lemma WorkspacesDiffer(pod: Pod, p: WorkPackage, q: WorkPackage)
    requires PackageOutcome(pod, p).Ok? && PackageOutcome(pod, q).Ok?
    requires p.missionId == q.missionId && p.packageId != q.packageId
    ensures pod.allocate(p) != None && pod.allocate(q) != None
    ensures pod.allocate(p).value.workspaceId != pod.allocate(q).value.workspaceId
  {
    AssignmentExactly(pod.allocate(p).value, p);
    AssignmentExactly(pod.allocate(q).value, q);
    var head := p.missionId + ":";
    assert (head + p.packageId)[|head|..] == p.packageId && (head + q.packageId)[|head|..] == q.packageId;
  }

  lemma DeliveredIsClean(pod: Pod, p: WorkPackage)
    requires PackageOutcome(pod, p).Ok?
    ensures EV.Clean(p, Delivered(pod)(p))
  {
    var (worker, workspaceId) := Dispatch(pod, p).value;
    OutcomeExactly(CleanFor(p), ReviserFor(worker, p, workspaceId), worker.implement(p, workspaceId),
                   pod.maxImplementationRounds);
  }

  /** The packages of the order one after the other; the first that fails ends the run. */
  method RunPackages(pod: Pod, order: seq<WorkPackage>) returns (r: Result<seq<Evidence>, PodError>)
    ensures r.Ok? <==> forall p :: p in order ==> PackageOutcome(pod, p).Ok?
    ensures r.Ok? ==> r.value == Mapped(order, Delivered(pod))
    ensures r.Err? ==> exists i :: 0 <= i < |order| && PackageOutcome(pod, order[i]) == Err(r.error)
                                   && forall p :: p in order[..i] ==> PackageOutcome(pod, p).Ok?
  {
    var evidence := [];
    for i := 0 to |order|
      invariant evidence == Mapped(order[..i], Delivered(pod))
      invariant forall p :: p in order[..i] ==> PackageOutcome(pod, p).Ok?
    {
      var package := order[i];
      assert order[..i + 1] == order[..i] + [package];
      var e := RunPackage(pod, package);
      if e.Err? { assert package in order; return Err(e.error); }
      evidence := evidence + [e.value];
    }
    assert order[..|order|] == order;
    return Ok(evidence);
  }

  // ------------------------------------------------------------------------
  // The plan

  ghost function AcceptableFor(design: DesignBundle): Plan -> bool {
    (plan: Plan) => PV.Accepted(design, plan.packages)
  }

  ghost function PlanOutcome(design: DesignBundle, pod: Pod): Result<Plan, PodError> {
    if !DesignValid(design) then Err(InvalidDesign) else
    match Outcome(AcceptableFor(design), pod.planner.revise, pod.planner.first, 0, pod.maxPlanRounds)
    case Err(reason) => Err(PlanRevision(reason))
    case Ok(plan) => Ok(plan)
  }

  /** _validated_plan, after the design's own check. */
  method ValidatedPlan(design: DesignBundle, pod: Pod) returns (r: Result<Plan, PodError>)
    ensures r == PlanOutcome(design, pod)
    ensures r.Ok? ==> PV.Accepted(design, r.value.packages)
  {
    var plan, max := pod.planner.first, pod.maxPlanRounds;
    ghost var ok := AcceptableFor(design);
    var revise := pod.planner.revise;
    var round: nat := 0;
    while true
      invariant round <= max && Outcome(ok, revise, plan, round, max) == Outcome(ok, revise, pod.planner.first, 0, max)
      decreases max - round
    {
      var findings := PV.Validate(design, plan.packages);
      if findings.Err? { return Err(InvalidDesign); }
      if findings.value == [] { return Ok(plan); }
      assert PV.Justified(findings.value[0], design, plan.packages);
      if round >= max { return Err(PlanRevision(Exhausted)); }
      if revise.None? { return Err(PlanRevision(Unsupported)); }
      var before := plan;
      plan := revise.value(before, round + 1);
      if plan == before { return Err(PlanRevision(NoProgress)); }
      round := round + 1;
    }
  }

  /** A plan is accepted, each package delivers, and the deliveries combine. */
  ghost predicate PlanSucceeds(design: DesignBundle, packages: seq<WorkPackage>, pod: Pod) {
    && (forall p :: p in packages ==> PackageOutcome(pod, p).Ok?)
    && var order := Schedule(PackageMap(packages), {});
       order.Some?
       && Combinable(design.missionId, packages, PackageIds(order.value),
                     EvidenceById(Mapped(order.value, Delivered(pod))))
  }

  ghost predicate RunSucceeds(design: DesignBundle, pod: Pod) {
    PlanOutcome(design, pod).Ok? && PlanSucceeds(design, PlanOutcome(design, pod).value.packages, pod)
  }

  /** What the manifest of a plan's run records. */
  ghost predicate RecordsRun(m: Manifest, design: DesignBundle, packages: seq<WorkPackage>, pod: Pod)
    requires Schedule(PackageMap(packages), {}).Some?
  {
    var order := Schedule(PackageMap(packages), {}).value;
    Records(m, design.missionId, PackageIds(order), EvidenceById(Mapped(order, Delivered(pod))))
  }

  /** Execution and integration of an accepted plan. */
  method ExecuteAccepted(design: DesignBundle, packages: seq<WorkPackage>, pod: Pod)
    returns (r: Result<Manifest, PodError>)
    requires PV.Accepted(design, packages)
    ensures r.Ok? <==> PlanSucceeds(design, packages, pod)
    ensures r.Ok? ==> RecordsRun(r.value, design, packages, pod)
    ensures r.Err? ==> || (exists p :: p in packages && PackageOutcome(pod, p) == Err(r.error))
                       || (r.error.IntegrationFailed? && !IsOrderError(r.error.error))
  {
    ghost var sorted := AcceptedPlanSchedules(design, packages);
    AcceptedIsKnown(design, packages);
    SameMembers(packages, sorted);
    var order := ExecutionOrder(packages);
    if order.None? { return Err(DependencyDeadlock); }
    var evidence := RunPackages(pod, order.value);
    if evidence.Err? { return Err(evidence.error); }
    forall p | p in order.value ensures EV.Clean(p, Delivered(pod)(p)) { DeliveredIsClean(pod, p); }
    AcceptedIntegratesExactly(design, packages, order.value, Delivered(pod));
    var integrated := Integrate(design.missionId, packages, evidence.value, PackageIds(order.value));
    return if integrated.Ok? then Ok(integrated.value) else Err(IntegrationFailed(integrated.error));
  }

  lemma NotAPackageError(pod: Pod, p: WorkPackage, e: PodError)
    requires PackageOutcome(pod, p) == Err(e)
    ensures !e.DependencyDeadlock? && !e.IntegrationFailed?
  {
  }

  /**
   run_integrated, revision rounds included. It never ends in a dependency deadlock, nor in an order error of
   integration, and it succeeds exactly when some round's plan is accepted, each package delivers, and the
   deliveries combine.
   */
  method RunIntegrated(design: DesignBundle, pod: Pod) returns (r: Result<Manifest, PodError>)
    ensures r != Err(DependencyDeadlock)
    ensures r.Err? && r.error.IntegrationFailed? ==> !IsOrderError(r.error.error)
    ensures PlanOutcome(design, pod).Err? ==> r == Err(PlanOutcome(design, pod).error)
    ensures r.Ok? <==> RunSucceeds(design, pod)
    ensures r.Ok? ==> RecordsRun(r.value, design, PlanOutcome(design, pod).value.packages, pod)
  {
    var plan := ValidatedPlan(design, pod);
    if plan.Err? { return Err(plan.error); }
    r := ExecuteAccepted(design, plan.value.packages, pod);
    if r.Err? {
      forall p | p in plan.value.packages && PackageOutcome(pod, p) == Err(r.error)
        ensures !r.error.DependencyDeadlock? && !r.error.IntegrationFailed?
      {
        NotAPackageError(pod, p, r.error);
      }
    }
  }

  /** The plan that goes on is accepted, and it is the first acceptable one of its planner's answers. */
  lemma PlanIsFirstAcceptable(design: DesignBundle, pod: Pod)
    ensures !DesignValid(design) ==> PlanOutcome(design, pod) == Err(InvalidDesign)
    ensures DesignValid(design) && PlanOutcome(design, pod).Err? ==>
              PlanOutcome(design, pod).error
              == PlanRevision(Outcome(AcceptableFor(design), pod.planner.revise, pod.planner.first, 0,
                                      pod.maxPlanRounds).error)
    ensures DesignValid(design) ==>
            var ok, planner := AcceptableFor(design), pod.planner;
            && (PlanOutcome(design, pod).Ok? <==>
                  exists k :: 0 <= k <= pod.maxPlanRounds && SettlesAt(ok, planner.revise, planner.first, k))
            && (forall k :: 0 <= k <= pod.maxPlanRounds && SettlesAt(ok, planner.revise, planner.first, k) ==>
                  PlanOutcome(design, pod) == Ok(AnswerAt(planner.revise, planner.first, k)))
  {
    OutcomeExactly(AcceptableFor(design), pod.planner.revise, pod.planner.first, pod.maxPlanRounds);
  }

  /**
   Write isolation end to end: in a run that succeeds, the evidence delivered for two packages that are not ordered by
   transitive dependency changes no common normalised path.
   */
  lemma SuccessIsIsolated(design: DesignBundle, pod: Pod, i: nat, j: nat, p: string, q: string)
    requires RunSucceeds(design, pod)
    requires var packages := PlanOutcome(design, pod).value.packages;
             && PV.Unordered(packages, i, j)
             && p in Delivered(pod)(packages[i]).changedPaths && q in Delivered(pod)(packages[j]).changedPaths
    ensures NormalizeScope(p) != NormalizeScope(q)
  {
    var packages := PlanOutcome(design, pod).value.packages;
    OutcomeExactly(AcceptableFor(design), pod.planner.revise, pod.planner.first, pod.maxPlanRounds);
    DeliveredIsCovered(pod, packages[i], p);
    DeliveredIsCovered(pod, packages[j], q);
    if NormalizeScope(p) == NormalizeScope(q) { PV.WriteIsolation(design, packages, i, j, p, q); }
  }

  /**
   The same by place: what two such packages deliver meets in one place only if the places of their scopes do, and
   never when their scopes are all plain, however the changed paths are spelled.
   */
  lemma SuccessIsIsolatedByPlace(design: DesignBundle, pod: Pod, i: nat, j: nat, p: string, q: string)
    requires RunSucceeds(design, pod)
    requires var packages := PlanOutcome(design, pod).value.packages;
             && PV.Unordered(packages, i, j)
             && p in Delivered(pod)(packages[i]).changedPaths && q in Delivered(pod)(packages[j]).changedPaths
    ensures var packages := PlanOutcome(design, pod).value.packages;
            var left, right := packages[i].writeScopes, packages[j].writeScopes;
            SamePlace(p, q) ==> PlacesMeet(left, right) && !(PlainScopes(left) && PlainScopes(right))
  {
    var packages := PlanOutcome(design, pod).value.packages;
    OutcomeExactly(AcceptableFor(design), pod.planner.revise, pod.planner.first, pod.maxPlanRounds);
    DeliveredIsCovered(pod, packages[i], p);
    DeliveredIsCovered(pod, packages[j], q);
    if SamePlace(p, q) {
      SharedIsNested(packages[i].writeScopes, packages[j].writeScopes, p, q);
      PlaceIsolationExactly(design, packages, i, j);
    }
  }

  lemma DeliveredIsCovered(pod: Pod, package: WorkPackage, path: string)
    requires PackageOutcome(pod, package).Ok? && path in Delivered(pod)(package).changedPaths
    ensures CoveredBy(path, package.writeScopes)
  {
    DeliveredIsClean(pod, package);
    EV.CleanMeans(package, Delivered(pod)(package));
  }

  lemma SameMembers(packages: seq<WorkPackage>, order: seq<WorkPackage>)
    requires Distinct(PackageIds(packages)) && TopologicalOrder(order, PackageMap(packages))
    ensures forall p :: p in packages <==> p in order
  {
    forall p ensures p in packages <==> p in order {
      if p in packages {
        var k :| 0 <= k < |packages| && packages[k] == p;
        KeyedTotal(packages, PackageIdOf, k);
        var j := Position(order, PackageMap(packages), p.packageId);
      }
    }
  }

  /** Acceptance does not ask for a package: without MUST requirements the empty plan passes, and never integrates. */
  lemma EmptyPlanAccepted(missionId: string)
    requires missionId != ""
    ensures var design := OptionalDesign(missionId);
            && PV.Accepted(design, [])
            && forall evidence, order, em :: !(InputsExact(missionId, [], evidence, order)
                                               && PartsCompatible(order, PackageMap([]), em))
  {
    IndependentIsAcyclic([]);
    PV.AcceptedMeans(OptionalDesign(missionId), []);
    forall evidence, order, em | InputsExact(missionId, [], evidence, order)
      ensures !PartsCompatible(order, PackageMap([]), em)
    {
      PackageInOrder([], order);
    }
  }

  /** Acceptance does not look at the packages' mission: this accepted plan can never be integrated. */
  lemma AcceptedPlanOfAnotherMission() returns (design: DesignBundle, packages: seq<WorkPackage>)
    ensures PV.Accepted(design, packages) && packages != []
    ensures forall evidence, order :: !InputsExact(design.missionId, packages, evidence, order)
  {
    design := SampleDesign("M1");
    var p := SamplePackage("P", "M2", "a");
    packages := [p];
    PlainScope("a");
    SampleIsValid("P", "M2", "a");
    IndependentAccepted("M1", packages);
    assert p in packages;
  }
}
