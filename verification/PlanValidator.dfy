/** Deterministic acceptance of an engineering plan and of the evidence for one package. */
module PlanValidator {
  import opened Wrappers
  import opened StringOrder
  import opened Graphs
  import opened PlanSearches
  import opened Scopes
  import opened WorkPackages

  /** Every finding is blocking. */
  datatype Finding =
    | DuplicatePackageId
    | InvalidPackageContract(error: PackageError, packageId: string)
    | UnknownRequirement(packageId: string, requirementId: string)
    | UnknownDependency(packageId: string, dependency: string)
    | InvalidWriteScope(packageId: string, scope: string)
    | DependencyCycle
    | MustWithoutOwner(requirementId: string)
    | UnorderedScopeConflict(left: string, right: string)

  function RequirementIds(design: DesignBundle): set<string> {
    set q | q in design.requirements :: q.requirementId
  }

  /** A requirement of the design with this id is a MUST. */
  ghost predicate IsMust(design: DesignBundle, r: string) {
    exists q :: q in design.requirements && q.requirementId == r && q.priority == "MUST"
  }

  /** Some package takes on the requirement. */
  ghost predicate Owned(packages: seq<WorkPackage>, r: string) {
    exists p :: p in packages && r in p.requirementIds
  }

  function MustIds(design: DesignBundle): set<string> {
    set q | q in design.requirements && q.priority == "MUST" :: q.requirementId
  }

  function Covered(packages: seq<WorkPackage>): set<string> {
    set p, r | p in packages && r in p.requirementIds :: r
  }

  /** The findings one package earns by itself. */
  predicate PackageFault(f: Finding, p: WorkPackage, known: set<string>, ids: set<string>) {
    match f
    case InvalidPackageContract(e, id) => id == p.packageId && ValidatePackage(p) == Some(e)
    case UnknownRequirement(_, _) => ValidatePackage(p).None? && RequirementFault(f, p, p.requirementIds, known)
    case UnknownDependency(_, _) => ValidatePackage(p).None? && DependencyFault(f, p, p.dependsOn, ids)
    case InvalidWriteScope(_, _) => ValidatePackage(p).None? && ScopeFault(f, p, p.writeScopes)
    case _ => false
  }

  ghost predicate Conflict(l: WorkPackage, r: WorkPackage, g: Graph) {
    && Overlap(l.writeScopes, r.writeScopes)
    && !Reaches(g, r.packageId, l.packageId) && !Reaches(g, l.packageId, r.packageId)
  }

  /** What each finding asserts about the plan. */
  ghost predicate Justified(f: Finding, design: DesignBundle, packages: seq<WorkPackage>) {
    match f
    case DuplicatePackageId => !Distinct(PackageIds(packages))
    case DependencyCycle => !Acyclic(PlanGraph(packages))
    case MustWithoutOwner(r) => IsMust(design, r) && !Owned(packages, r)
    case UnorderedScopeConflict(_, _) =>
      exists i, j :: 0 <= i < j < |packages| && ConflictAt(f, packages, PlanGraph(packages), i, j)
    case _ =>
      exists p :: p in packages && PackageFault(f, p, RequirementIds(design), SetOf(PackageIds(packages)))
  }

  /** The loop body over one package, which goes no further after a broken contract. */
  method CheckPackage(p: WorkPackage, known: set<string>, ids: set<string>) returns (findings: seq<Finding>)
    ensures forall f :: f in findings <==> PackageFault(f, p, known, ids)
  {
    var error := ValidatePackage(p);
    if error.Some? { return [InvalidPackageContract(error.value, p.packageId)]; }
    findings := [];
    for i := 0 to |p.requirementIds|
      invariant forall f :: f in findings <==> RequirementFault(f, p, p.requirementIds[..i], known)
    {
      if p.requirementIds[i] !in known {
        findings := findings + [UnknownRequirement(p.packageId, p.requirementIds[i])];
      }
    }
    assert p.requirementIds[..|p.requirementIds|] == p.requirementIds;
    ghost var unknown := findings;
    for i := 0 to |p.dependsOn|
      invariant forall f :: f in findings <==> f in unknown || DependencyFault(f, p, p.dependsOn[..i], ids)
    {
      if p.dependsOn[i] !in ids { findings := findings + [UnknownDependency(p.packageId, p.dependsOn[i])]; }
    }
    assert p.dependsOn[..|p.dependsOn|] == p.dependsOn;
    ghost var before := findings;
    for i := 0 to |p.writeScopes|
      invariant forall f :: f in findings <==> f in before || ScopeFault(f, p, p.writeScopes[..i])
    {
      if NormalizeScope(p.writeScopes[i]).None? {
        findings := findings + [InvalidWriteScope(p.packageId, p.writeScopes[i])];
      }
    }
    assert p.writeScopes[..|p.writeScopes|] == p.writeScopes;
  }

  predicate RequirementFault(f: Finding, p: WorkPackage, requirements: seq<string>, known: set<string>) {
    f.UnknownRequirement? && f.packageId == p.packageId && f.requirementId in requirements && f.requirementId !in known
  }

  predicate DependencyFault(f: Finding, p: WorkPackage, dependencies: seq<string>, ids: set<string>) {
    f.UnknownDependency? && f.packageId == p.packageId && f.dependency in dependencies && f.dependency !in ids
  }

  predicate ScopeFault(f: Finding, p: WorkPackage, scopes: seq<string>) {
    f.InvalidWriteScope? && f.packageId == p.packageId && f.scope in scopes && NormalizeScope(f.scope).None?
  }

  method CheckPackages(design: DesignBundle, packages: seq<WorkPackage>) returns (findings: seq<Finding>)
    ensures forall f :: f in findings <==>
                        exists p :: p in packages
                                    && PackageFault(f, p, RequirementIds(design), SetOf(PackageIds(packages)))
  {
    var known, ids := RequirementIds(design), SetOf(PackageIds(packages));
    findings := [];
    for i := 0 to |packages|
      invariant forall f :: f in findings <==> exists p :: p in packages[..i] && PackageFault(f, p, known, ids)
    {
      var more := CheckPackage(packages[i], known, ids);
      assert packages[..i + 1] == packages[..i] + [packages[i]];
      findings := findings + more;
    }
    assert packages[..|packages|] == packages;
  }

  /** A package fault is never one of the plan-wide findings. */
  lemma FaultKinds(f: Finding, design: DesignBundle, packages: seq<WorkPackage>)
    ensures f.DuplicatePackageId? || f.DependencyCycle? || f.MustWithoutOwner? || f.UnorderedScopeConflict? ==>
              forall p, known, ids :: !PackageFault(f, p, known, ids)
  {
  }

  method CheckCoverage(design: DesignBundle, packages: seq<WorkPackage>) returns (findings: seq<Finding>)
    ensures forall f :: f in findings <==>
                        f.MustWithoutOwner? && IsMust(design, f.requirementId) && !Owned(packages, f.requirementId)
  {
    findings := [];
    var unowned := Sorted(MustIds(design) - Covered(packages));
    for i := 0 to |unowned|
      invariant forall f :: f in findings <==> f.MustWithoutOwner? && f.requirementId in unowned[..i]
    {
      findings := findings + [MustWithoutOwner(unowned[i])];
    }
    assert unowned[..|unowned|] == unowned;
  }

  method CheckConflicts(packages: seq<WorkPackage>, g: Graph) returns (findings: seq<Finding>)
    ensures forall f :: f in findings <==> exists i, j :: 0 <= i < j < |packages| && ConflictAt(f, packages, g, i, j)
  {
    findings := [];
    for i := 0 to |packages|
      invariant forall f :: f in findings <==> ConflictsUpTo(f, packages, g, i)
    {
      ghost var before := findings;
      for j := i + 1 to |packages|
        invariant forall f :: f in findings <==> f in before || ConflictsOf(f, packages, g, i, j)
      {
        var left, right := packages[i], packages[j];
        OneMoreConflict(packages, g, i, j);
        var overlap := ScopesOverlap(left.writeScopes, right.writeScopes);
        if !overlap { continue; }
        var forwards := Ordered(left.packageId, right.packageId, g);
        var backwards := Ordered(right.packageId, left.packageId, g);
        if forwards || backwards { continue; }
        findings := findings + [UnorderedScopeConflict(left.packageId, right.packageId)];
      }
      OneMoreRow(packages, g, i);
    }
    AllConflicts(packages, g);
  }

  /** The finding reports that the packages at i and j conflict. */
  ghost predicate ConflictAt(f: Finding, packages: seq<WorkPackage>, g: Graph, i: nat, j: nat)
    requires i < |packages| && j < |packages|
  {
    && f == UnorderedScopeConflict(packages[i].packageId, packages[j].packageId)
    && Conflict(packages[i], packages[j], g)
  }

  /** The finding reports a conflict of package i with a later one before n. */
  ghost predicate ConflictsOf(f: Finding, packages: seq<WorkPackage>, g: Graph, i: nat, n: nat)
    requires i < |packages| && n <= |packages|
  {
    exists j :: i < j < n && ConflictAt(f, packages, g, i, j)
  }

  /** The finding reports a conflict of a package before n with a later one. */
  ghost predicate ConflictsUpTo(f: Finding, packages: seq<WorkPackage>, g: Graph, n: nat)
    requires n <= |packages|
  {
    exists i :: 0 <= i < n && ConflictsOf(f, packages, g, i, |packages|)
  }

  lemma OneMoreConflict(packages: seq<WorkPackage>, g: Graph, i: nat, j: nat)
    requires i < j < |packages|
    ensures forall f :: ConflictsOf(f, packages, g, i, j + 1) <==>
                        ConflictsOf(f, packages, g, i, j) || ConflictAt(f, packages, g, i, j)
  {
  }

  lemma OneMoreRow(packages: seq<WorkPackage>, g: Graph, i: nat)
    requires i < |packages|
    ensures forall f :: ConflictsUpTo(f, packages, g, i + 1) <==>
                        ConflictsUpTo(f, packages, g, i) || ConflictsOf(f, packages, g, i, |packages|)
  {
  }

  lemma AllConflicts(packages: seq<WorkPackage>, g: Graph)
    ensures forall f :: ConflictsUpTo(f, packages, g, |packages|) <==>
                        exists i, j :: 0 <= i < j < |packages| && ConflictAt(f, packages, g, i, j)
  {
    forall f, i, j | 0 <= i < j < |packages| && ConflictAt(f, packages, g, i, j)
      ensures ConflictsUpTo(f, packages, g, |packages|)
    {
      assert ConflictsOf(f, packages, g, i, |packages|);
    }
    forall f | ConflictsUpTo(f, packages, g, |packages|)
      ensures exists i, j :: 0 <= i < j < |packages| && ConflictAt(f, packages, g, i, j)
    {
      var i :| 0 <= i < |packages| && ConflictsOf(f, packages, g, i, |packages|);
      var j :| i < j < |packages| && ConflictAt(f, packages, g, i, j);
    }
  }

  /**
   EngineeringPlanValidator.validate. The design's own ValueError is Err; otherwise the findings
   are exactly the justified ones, so none is missing and none is invented.
   */
  method Validate(design: DesignBundle, packages: seq<WorkPackage>) returns (r: Result<seq<Finding>, ()>)
    ensures r.Ok? <==>
            && design.missionId != "" && design.productSummary != "" && design.requirements != []
            && forall q :: q in design.requirements ==>
                 && q.requirementId != "" && q.statement != ""
                 && (q.priority == "MUST" || q.priority == "SHOULD" || q.priority == "COULD" || q.priority == "WONT")
    ensures r.Ok? <==> DesignValid(design)
    ensures r.Ok? ==> forall f :: f in r.value <==> Justified(f, design, packages)
  {
    if !DesignValid(design) { return Err(()); }
    DistinctByCount(PackageIds(packages));
    var duplicates := if |PackageIds(packages)| != |SetOf(PackageIds(packages))| then [DuplicatePackageId] else [];
    var faults := CheckPackages(design, packages);
    var g := PlanGraph(packages);
    var cyclic := HasCycle(g);
    var cycles := if cyclic then [DependencyCycle] else [];
    var unowned := CheckCoverage(design, packages);
    var conflicts := CheckConflicts(packages, g);
    var findings := duplicates + faults + cycles + unowned + conflicts;
    forall f ensures f in findings <==> Justified(f, design, packages) {
      AllParts(f, design, packages, duplicates, faults, cycles, unowned, conflicts);
    }
    return Ok(findings);
  }

  lemma AllParts(f: Finding, design: DesignBundle, packages: seq<WorkPackage>, duplicates: seq<Finding>,
                 faults: seq<Finding>, cycles: seq<Finding>, unowned: seq<Finding>, conflicts: seq<Finding>)
    requires f in duplicates <==> f.DuplicatePackageId? && !Distinct(PackageIds(packages))
    requires f in faults <==>
             exists p :: p in packages && PackageFault(f, p, RequirementIds(design), SetOf(PackageIds(packages)))
    requires f in cycles <==> f.DependencyCycle? && !Acyclic(PlanGraph(packages))
    requires f in unowned <==>
             f.MustWithoutOwner? && IsMust(design, f.requirementId) && !Owned(packages, f.requirementId)
    requires f in conflicts <==>
             exists i, j :: 0 <= i < j < |packages| && ConflictAt(f, packages, PlanGraph(packages), i, j)
    ensures f in duplicates + faults + cycles + unowned + conflicts <==> Justified(f, design, packages)
  {
    FaultKinds(f, design, packages);
  }

  /** A requirement is reported exactly if it is a MUST that no package names; of another priority it never is. */
  lemma MustReportedExactly(design: DesignBundle, packages: seq<WorkPackage>, id: string)
    ensures Justified(MustWithoutOwner(id), design, packages) <==>
            && (exists q :: q in design.requirements && q.requirementId == id && q.priority == "MUST")
            && forall p :: p in packages ==> id !in p.requirementIds
    ensures (forall q :: q in design.requirements && q.requirementId == id ==> q.priority != "MUST") ==>
              !Justified(MustWithoutOwner(id), design, packages)
  {
  }

  ghost predicate Accepted(design: DesignBundle, packages: seq<WorkPackage>) {
    DesignValid(design) && forall f :: !Justified(f, design, packages)
  }

  ghost predicate PackagesValid(packages: seq<WorkPackage>) {
    forall p :: p in packages ==> ValidatePackage(p).None?
  }

  ghost predicate RequirementsKnown(design: DesignBundle, packages: seq<WorkPackage>) {
    forall p, r :: p in packages && r in p.requirementIds ==> r in RequirementIds(design)
  }

  ghost predicate MustsOwned(design: DesignBundle, packages: seq<WorkPackage>) {
    forall q :: q in design.requirements && q.priority == "MUST" ==> Owned(packages, q.requirementId)
  }

  ghost predicate DependenciesListed(packages: seq<WorkPackage>) {
    forall p, d :: p in packages && d in p.dependsOn ==> d in SetOf(PackageIds(packages))
  }

  ghost predicate ScopesValid(packages: seq<WorkPackage>) {
    forall p, s :: p in packages && s in p.writeScopes ==> NormalizeScope(s).Some?
  }

  ghost predicate ConflictFree(packages: seq<WorkPackage>) {
    forall i, j :: 0 <= i < j < |packages| ==> !Conflict(packages[i], packages[j], PlanGraph(packages))
  }

  lemma AcceptedIsValid(design: DesignBundle, packages: seq<WorkPackage>)
    requires Accepted(design, packages)
    ensures PackagesValid(packages)
  {
    forall p | p in packages ensures ValidatePackage(p).None? {
      if ValidatePackage(p).Some? {
        var f := InvalidPackageContract(ValidatePackage(p).value, p.packageId);
        assert PackageFault(f, p, RequirementIds(design), SetOf(PackageIds(packages))) &&
            Justified(f, design, packages);
      }
    }
  }

  lemma AcceptedIsKnown(design: DesignBundle, packages: seq<WorkPackage>)
    requires Accepted(design, packages) && PackagesValid(packages)
    ensures RequirementsKnown(design, packages) && DependenciesListed(packages)
  {
    var known, ids := RequirementIds(design), SetOf(PackageIds(packages));
    forall p, r | p in packages && r in p.requirementIds ensures r in known {
      var f := UnknownRequirement(p.packageId, r);
      assert r !in known ==> PackageFault(f, p, known, ids);
      assert !Justified(f, design, packages);
    }
    forall p, d | p in packages && d in p.dependsOn ensures d in ids {
      var f := UnknownDependency(p.packageId, d);
      assert d !in ids ==> PackageFault(f, p, known, ids);
      assert !Justified(f, design, packages);
    }
  }

  lemma AcceptedHasScopes(design: DesignBundle, packages: seq<WorkPackage>)
    requires Accepted(design, packages) && PackagesValid(packages)
    ensures ScopesValid(packages) && ConflictFree(packages)
  {
    forall p, s | p in packages && s in p.writeScopes ensures NormalizeScope(s).Some? {
      var f := InvalidWriteScope(p.packageId, s);
      assert NormalizeScope(s).None? ==> PackageFault(f, p, RequirementIds(design), SetOf(PackageIds(packages)));
      assert !Justified(f, design, packages);
    }
    forall i, j | 0 <= i < j < |packages| ensures !Conflict(packages[i], packages[j], PlanGraph(packages)) {
      if Conflict(packages[i], packages[j], PlanGraph(packages)) { ConflictIsJustified(design, packages, i, j); }
    }
  }

  lemma ConflictIsJustified(design: DesignBundle, packages: seq<WorkPackage>, i: nat, j: nat)
    requires i < j < |packages| && Conflict(packages[i], packages[j], PlanGraph(packages))
    ensures Justified(UnorderedScopeConflict(packages[i].packageId, packages[j].packageId), design, packages)
  {
    var f := UnorderedScopeConflict(packages[i].packageId, packages[j].packageId);
    assert ConflictAt(f, packages, PlanGraph(packages), i, j);
  }

  lemma AcceptedIsSound(design: DesignBundle, packages: seq<WorkPackage>)
    requires Accepted(design, packages)
    ensures Distinct(PackageIds(packages)) && Acyclic(PlanGraph(packages)) && MustsOwned(design, packages)
  {
    assert !Justified(DuplicatePackageId, design, packages);
    assert !Justified(DependencyCycle, design, packages);
    forall q | q in design.requirements && q.priority == "MUST" ensures Owned(packages, q.requirementId) {
      assert !Justified(MustWithoutOwner(q.requirementId), design, packages);
    }
  }

  lemma NothingJustified(design: DesignBundle, packages: seq<WorkPackage>, f: Finding)
    requires PackagesValid(packages) && RequirementsKnown(design, packages) && DependenciesListed(packages)
    requires ScopesValid(packages) && ConflictFree(packages)
    requires Distinct(PackageIds(packages)) && Acyclic(PlanGraph(packages)) && MustsOwned(design, packages)
    ensures !Justified(f, design, packages)
  {
  }

  /** What acceptance means, in one place. */
  lemma AcceptedMeans(design: DesignBundle, packages: seq<WorkPackage>)
    requires DesignValid(design)
    ensures Accepted(design, packages) <==>
            && Distinct(PackageIds(packages)) && PackagesValid(packages)
            && RequirementsKnown(design, packages) && DependenciesListed(packages) && ScopesValid(packages)
            && Acyclic(PlanGraph(packages)) && MustsOwned(design, packages) && ConflictFree(packages)
  {
    if Accepted(design, packages) {
      AcceptedIsSound(design, packages);
      AcceptedIsValid(design, packages);
      AcceptedIsKnown(design, packages);
      AcceptedHasScopes(design, packages);
    } else if Distinct(PackageIds(packages)) && PackagesValid(packages)
              && RequirementsKnown(design, packages) && DependenciesListed(packages) && ScopesValid(packages)
              && Acyclic(PlanGraph(packages)) && MustsOwned(design, packages) && ConflictFree(packages) {
      forall f ensures !Justified(f, design, packages) { NothingJustified(design, packages, f); }
    }
  }

  /**
   Acceptance, read off the texts of design and plan: ids differ, every package keeps its contract, names only
   requirements and packages that exist and scopes that normalise; no package depends on itself through others, each
   MUST is taken on by some package, and packages with overlapping scopes are ordered by a dependency.
   */
  lemma AcceptedExactly(design: DesignBundle, packages: seq<WorkPackage>)
    requires DesignValid(design)
    ensures Accepted(design, packages) <==>
            && (forall i, j :: 0 <= i < j < |packages| ==> packages[i].packageId != packages[j].packageId)
            && (forall p :: p in packages ==> KeepsContract(p))
            && (forall p, r :: p in packages && r in p.requirementIds ==>
                  exists q :: q in design.requirements && q.requirementId == r)
            && (forall p, d :: p in packages && d in p.dependsOn ==> exists o :: o in packages && o.packageId == d)
            && (forall p, s :: p in packages && s in p.writeScopes ==> NormalizeScope(s).Some?)
            && Acyclic(PlanGraph(packages))
            && (forall q :: q in design.requirements && q.priority == "MUST" ==>
                  exists p :: p in packages && q.requirementId in p.requirementIds)
            && forall i, j :: 0 <= i < j < |packages| ==>
                 !Overlap(packages[i].writeScopes, packages[j].writeScopes) || !Unordered(packages, i, j)
  {
    AcceptedMeans(design, packages);
    IdsDiffer(packages);
    ContractsKept(packages);
    RequirementsExist(design, packages);
    DependenciesExist(packages);
    OverlapsOrdered(packages);
  }

  lemma IdsDiffer(packages: seq<WorkPackage>)
    ensures Distinct(PackageIds(packages)) <==>
            forall i, j :: 0 <= i < j < |packages| ==> packages[i].packageId != packages[j].packageId
  {
    assert forall i :: 0 <= i < |packages| ==> PackageIds(packages)[i] == packages[i].packageId;
  }

  lemma ContractsKept(packages: seq<WorkPackage>)
    ensures PackagesValid(packages) <==> forall p :: p in packages ==> KeepsContract(p)
  {
    forall p | p in packages ensures ValidatePackage(p).None? <==> KeepsContract(p) { ContractExactly(p); }
  }

  lemma RequirementsExist(design: DesignBundle, packages: seq<WorkPackage>)
    ensures RequirementsKnown(design, packages) <==>
            forall p, r :: p in packages && r in p.requirementIds ==>
              exists q :: q in design.requirements && q.requirementId == r
  {
    if RequirementsKnown(design, packages) {
      forall p, r | p in packages && r in p.requirementIds
        ensures exists q :: q in design.requirements && q.requirementId == r
      {
        assert r in RequirementIds(design);
      }
    }
    if !RequirementsKnown(design, packages) {
      var p, r :| p in packages && r in p.requirementIds && r !in RequirementIds(design);
      assert forall q :: q in design.requirements ==> q.requirementId in RequirementIds(design);
    }
  }

  lemma DependenciesExist(packages: seq<WorkPackage>)
    ensures DependenciesListed(packages) <==>
            forall p, d :: p in packages && d in p.dependsOn ==> exists o :: o in packages && o.packageId == d
  {
    if DependenciesListed(packages) {
      forall p, d | p in packages && d in p.dependsOn ensures exists o :: o in packages && o.packageId == d {
        ListedId(packages, d);
      }
    }
    if !DependenciesListed(packages) {
      var p, d :| p in packages && d in p.dependsOn && d !in SetOf(PackageIds(packages));
      ListedId(packages, d);
    }
  }

  lemma OverlapsOrdered(packages: seq<WorkPackage>)
    ensures ConflictFree(packages) <==>
            forall i, j :: 0 <= i < j < |packages| ==>
              !Overlap(packages[i].writeScopes, packages[j].writeScopes) || !Unordered(packages, i, j)
  {
    assert forall i, j :: 0 <= i < j < |packages| ==>
        (Conflict(packages[i], packages[j], PlanGraph(packages)) <==>
         Overlap(packages[i].writeScopes, packages[j].writeScopes) && Unordered(packages, i, j));
  }

  lemma ListedId(packages: seq<WorkPackage>, d: string)
    ensures d in SetOf(PackageIds(packages)) <==> exists o :: o in packages && o.packageId == d
  {
    if d in PackageIds(packages) {
      var i :| 0 <= i < |packages| && PackageIds(packages)[i] == d;
      assert packages[i] in packages;
    }
    if o :| o in packages && o.packageId == d {
      var i :| 0 <= i < |packages| && packages[i] == o;
      assert PackageIds(packages)[i] == d;
    }
  }

  /** No dependency orders packages i and j, either way. */
  ghost predicate Unordered(packages: seq<WorkPackage>, i: nat, j: nat) {
    && i < j < |packages|
    && !Reaches(PlanGraph(packages), packages[i].packageId, packages[j].packageId)
    && !Reaches(PlanGraph(packages), packages[j].packageId, packages[i].packageId)
  }

  /**
   Write isolation: two packages of an accepted plan that no dependency orders can never
   both cover one normalised path.
   */
  lemma WriteIsolation(design: DesignBundle, packages: seq<WorkPackage>, i: nat, j: nat, p: string, q: string)
    requires Accepted(design, packages) && Unordered(packages, i, j)
    requires NormalizeScope(p) == NormalizeScope(q)
    ensures !(CoveredBy(p, packages[i].writeScopes) && CoveredBy(q, packages[j].writeScopes))
  {
    AcceptedMeans(design, packages);
    if CoveredBy(p, packages[i].writeScopes) && CoveredBy(q, packages[j].writeScopes) {
      CommonPathOverlaps(p, q, packages[i].writeScopes, packages[j].writeScopes);
    }
  }
}
