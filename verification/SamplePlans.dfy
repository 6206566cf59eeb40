/** Small concrete plans that the validator accepts. */
module SamplePlans {
  import opened Wrappers
  import opened Text
  import opened Graphs
  import opened Scopes
  import opened WorkPackages
  import opened PlanValidator

  function SampleDesign(missionId: string): DesignBundle {
    DesignBundle(missionId, "s", [Requirement("R", "s", "MUST")])
  }

  /** A design none of whose requirements must be covered. */
  function OptionalDesign(missionId: string): DesignBundle {
    DesignBundle(missionId, "s", [Requirement("R", "s", "COULD")])
  }

  function SamplePackage(id: string, missionId: string, scope: string): WorkPackage {
    WorkPackage(id, missionId, "A06-BACKEND", "BACKEND", "o", ["R"], [], [scope], ["code"], ["test"])
  }

  lemma SampleIsValid(id: string, missionId: string, scope: string)
    requires id != "" && missionId != ""
    ensures ValidatePackage(SamplePackage(id, missionId, scope)).None?
  {
    assert !IsSpace('o');
    assert StripLeft("o", IsSpace) == "o" && StripRight("o", IsSpace) == "o";
  }

  /** A text that needs no trimming is its own trimmed form. */
  lemma PlainScope(s: string)
    requires s != "" && '\\' !in s
    requires !IsSpace(s[0]) && !IsSpace(s[|s| - 1]) && s[0] != '/' && s[|s| - 1] != '/'
    ensures Trimmed(s) == s
  {
    assert ForwardSlashes(s) == s;
    assert StripLeft(s, IsSpace) == s && StripRight(s, IsSpace) == s;
  }

  /** Packages without dependencies have no cycle. */
  lemma IndependentIsAcyclic(packages: seq<WorkPackage>)
    requires forall p :: p in packages ==> p.dependsOn == []
    ensures Acyclic(PlanGraph(packages))
    ensures forall a, b :: !Reaches(PlanGraph(packages), a, b)
  {
    forall a, b ensures !Reaches(PlanGraph(packages), a, b) {
      if Reaches(PlanGraph(packages), a, b) { var d := FirstEdge(PlanGraph(packages), a, b); }
    }
  }

  predicate IsSample(p: WorkPackage) {
    && p.packageId != "" && p.missionId != "" && p.writeScopes != []
    && p == SamplePackage(p.packageId, p.missionId, p.writeScopes[0])
  }

  /** Sample packages with distinct ids and scopes that normalise and do not overlap are accepted. */
  lemma IndependentAccepted(missionId: string, packages: seq<WorkPackage>)
    requires missionId != "" && packages != [] && Distinct(PackageIds(packages))
    requires forall p :: p in packages ==> IsSample(p) && NormalizeScope(p.writeScopes[0]).Some?
    requires forall i, j :: 0 <= i < j < |packages| ==> !Overlap(packages[i].writeScopes, packages[j].writeScopes)
    ensures Accepted(SampleDesign(missionId), packages)
  {
    var design := SampleDesign(missionId);
    forall p | p in packages ensures ValidatePackage(p).None? {
      SampleIsValid(p.packageId, p.missionId, p.writeScopes[0]);
    }
    IndependentIsAcyclic(packages);
    SampleCovers(missionId, packages);
    AcceptedMeans(design, packages);
  }

  /** A MUST that no package takes on is reported, and the plan refused. */
  lemma UncoveredMustRefused(missionId: string)
    requires missionId != ""
    ensures DesignValid(SampleDesign(missionId)) && !Accepted(SampleDesign(missionId), [])
    ensures Justified(MustWithoutOwner("R"), SampleDesign(missionId), [])
  {
    var design := SampleDesign(missionId);
    assert Requirement("R", "s", "MUST") == design.requirements[0] && design.requirements[0] in design.requirements;
    MustReportedExactly(design, [], "R");
  }

  lemma SampleCovers(missionId: string, packages: seq<WorkPackage>)
    requires packages != [] && forall p :: p in packages ==> IsSample(p)
    ensures RequirementIds(SampleDesign(missionId)) == {"R"} && MustsOwned(SampleDesign(missionId), packages)
    ensures RequirementsKnown(SampleDesign(missionId), packages)
  {
    var p := packages[0];
    assert p in packages && "R" in p.requirementIds;
    assert SampleDesign(missionId).requirements[0] in SampleDesign(missionId).requirements;
  }
}
