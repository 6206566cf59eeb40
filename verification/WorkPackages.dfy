/** Contracts passed between the design pod, the engineering plan and its evidence. */
module WorkPackages {
  import opened Wrappers
  import opened Graphs
  import opened Text

  datatype Requirement = Requirement(requirementId: string, statement: string, priority: string)

  datatype DesignBundle = DesignBundle(missionId: string, productSummary: string, requirements: seq<Requirement>)

  predicate DesignValid(design: DesignBundle) {
    && design.missionId != "" && design.productSummary != "" && design.requirements != []
    && forall q :: q in design.requirements ==>
         q.requirementId != "" && q.statement != "" && q.priority in {"MUST", "SHOULD", "COULD", "WONT"}
  }

  datatype WorkPackage = WorkPackage(
    packageId: string,
    missionId: string,
    ownerAgent: string,
    discipline: string,
    objective: string,
    requirementIds: seq<string>,
    dependsOn: seq<string>,
    writeScopes: seq<string>,
    expectedArtifacts: seq<string>,
    verificationMethods: seq<string>)

  const DISCIPLINE_OWNER: map<string, string> := map[
    "FRONTEND" := "A05-FRONTEND",
    "BACKEND" := "A06-BACKEND",
    "DATABASE" := "A07-DATABASE",
    "AI_AUTOMATION" := "A08-AI-AUTOMATION"
  ]

  datatype PackageError =
    | MissingIdentity
    | UnknownDiscipline
    | OwnerMismatch
    | NoRequirement
    | NoWriteScope
    | NoExpectedArtifact
    | NoVerificationMethod
    | DependsOnItself
    | DuplicateDependencies
    | DuplicateWriteScopes

  /** ImplementationWorkPackage.validate: the first contract a package breaks. */
  function ValidatePackage(p: WorkPackage): Option<PackageError> {
    if p.packageId == "" || p.missionId == "" || IsBlank(p.objective) then Some(MissingIdentity)
    else if p.discipline !in DISCIPLINE_OWNER then Some(UnknownDiscipline)
    else if p.ownerAgent != DISCIPLINE_OWNER[p.discipline] then Some(OwnerMismatch)
    else if p.requirementIds == [] then Some(NoRequirement)
    else if p.writeScopes == [] then Some(NoWriteScope)
    else if p.expectedArtifacts == [] then Some(NoExpectedArtifact)
    else if p.verificationMethods == [] then Some(NoVerificationMethod)
    else if p.packageId in p.dependsOn then Some(DependsOnItself)
    else if !Distinct(p.dependsOn) then Some(DuplicateDependencies)
    else if !Distinct(p.writeScopes) then Some(DuplicateWriteScopes)
    else None
  }

  /** The disciplines and the one agent that owns each. */
  predicate Owns(agent: string, discipline: string) {
    || (agent == "A05-FRONTEND" && discipline == "FRONTEND")
    || (agent == "A06-BACKEND" && discipline == "BACKEND")
    || (agent == "A07-DATABASE" && discipline == "DATABASE")
    || (agent == "A08-AI-AUTOMATION" && discipline == "AI_AUTOMATION")
  }

  /** The contract of a package: it is identified, owned by its discipline's agent, and its lists say something. */
  ghost predicate KeepsContract(p: WorkPackage) {
    && p.packageId != "" && p.missionId != "" && (exists c :: c in p.objective && !IsSpace(c))
    && Owns(p.ownerAgent, p.discipline)
    && p.requirementIds != [] && p.writeScopes != [] && p.expectedArtifacts != [] && p.verificationMethods != []
    && p.packageId !in p.dependsOn && Distinct(p.dependsOn) && Distinct(p.writeScopes)
  }

  /** The clause of the contract that an error names. */
  ghost predicate Breaks(p: WorkPackage, e: PackageError) {
    match e
    case MissingIdentity => p.packageId == "" || p.missionId == "" || forall c :: c in p.objective ==> IsSpace(c)
    case UnknownDiscipline => p.discipline !in {"FRONTEND", "BACKEND", "DATABASE", "AI_AUTOMATION"}
    case OwnerMismatch => !Owns(p.ownerAgent, p.discipline)
    case NoRequirement => p.requirementIds == []
    case NoWriteScope => p.writeScopes == []
    case NoExpectedArtifact => p.expectedArtifacts == []
    case NoVerificationMethod => p.verificationMethods == []
    case DependsOnItself => p.packageId in p.dependsOn
    case DuplicateDependencies => !Distinct(p.dependsOn)
    case DuplicateWriteScopes => !Distinct(p.writeScopes)
  }

  /** A package is refused exactly when it breaks its contract, for a clause it breaks. */
  lemma ContractExactly(p: WorkPackage)
    ensures ValidatePackage(p).None? <==> KeepsContract(p)
    ensures ValidatePackage(p).Some? ==> Breaks(p, ValidatePackage(p).value)
  {
    BlankExactly(p.objective);
  }

  datatype VerificationResult = VerificationResult(
    verificationId: string, methodName: string, status: string, evidenceRef: string)

  datatype Evidence = Evidence(
    packageId: string,
    changedPaths: seq<string>,
    producedArtifacts: seq<string>,
    verificationResults: seq<VerificationResult>)

  predicate ResultValid(r: VerificationResult) {
    && r.verificationId != "" && !IsBlank(r.methodName) && !IsBlank(r.evidenceRef)
    && (r.status == "PASS" || r.status == "FAIL")
  }

  /** EvidenceManifest.validate */
  predicate EvidenceValid(e: Evidence) {
    && e.packageId != "" && e.changedPaths != [] && e.producedArtifacts != [] && e.verificationResults != []
    && forall r :: r in e.verificationResults ==> ResultValid(r)
  }

  /** Evidence is refused for what it leaves out, and for a result that does not say PASS or FAIL. */
  lemma EvidenceRefusedExactly(e: Evidence)
    ensures !EvidenceValid(e) <==>
            || e.packageId == "" || e.changedPaths == [] || e.producedArtifacts == [] || e.verificationResults == []
            || exists r :: r in e.verificationResults && LeavesOut(r)
  {
  }

  predicate LeavesOut(r: VerificationResult) {
    || r.verificationId == "" || IsBlank(r.methodName) || IsBlank(r.evidenceRef)
    || (r.status != "PASS" && r.status != "FAIL")
  }

  type Packages = map<string, WorkPackage>

  function PackageIdOf(p: WorkPackage): string { p.packageId }

  function PackageIds(packages: seq<WorkPackage>): (ids: seq<string>)
    ensures |ids| == |packages| && forall i :: 0 <= i < |packages| ==> ids[i] == packages[i].packageId
  {
    Mapped(packages, PackageIdOf)
  }

  /** The packages by id. */
  function PackageMap(packages: seq<WorkPackage>): (m: Packages)
    ensures m.Keys == SetOf(PackageIds(packages))
    ensures forall id :: id in m ==> m[id] in packages && m[id].packageId == id
  {
    KeyedBy(packages, PackageIdOf)
  }

  function GraphOf(m: Packages): Graph {
    map id | id in m :: SetOf(m[id].dependsOn)
  }

  /** The dependencies of each package of a plan. */
  function PlanGraph(packages: seq<WorkPackage>): Graph {
    GraphOf(PackageMap(packages))
  }
}
