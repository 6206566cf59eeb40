/** A small run of the pod that succeeds. */
module SampleRun {
  import opened Wrappers
  import opened StringOrder
  import opened Text
  import opened Scopes
  import opened WorkPackages
  import opened Scheduling
  import opened Integration
  import opened Revision
  import opened EngineeringPod
  import opened SamplePlans
  import opened PlaceSamples
  import PV = PlanValidator
  import EV = EvidenceValidator

  function OnePackage(): WorkPackage {
    SamplePackage("P", "M", "a/x")
  }

  function ItsEvidence(): Evidence {
    Evidence("P", ["a/x"], ["code"], [VerificationResult("V", "test", "PASS", "r")])
  }

  function ItsWorkspace(): Assignment {
    Assignment("M:P", "M", "P", "A06-BACKEND", "b", ["a/x"])
  }

  /** A planner with one plan and a backend worker with one answer; neither revises. */
  function OnePod(): Pod {
    Pod(Planner(Plan([OnePackage()]), None),
        map["A06-BACKEND" := Worker("A06-BACKEND", "BACKEND", (p, workspaceId) => ItsEvidence(), None)],
        p => Some(ItsWorkspace()), 0, 0)
  }

  lemma PathIsCovered()
    ensures EV.AnyScope("a/x", ["a/x"]) == Some(true)
  {
    SamplesNormalise();
    CoversItself("a/x");
    EV.CoveredExactly("a/x", ["a/x"]);
  }

  lemma TextsAreSolid()
    ensures !IsBlank("test") && !IsBlank("r") && !IsBlank("b")
  {
    BlankExactly("test");
    BlankExactly("r");
    BlankExactly("b");
    assert 't' in "test" && 'r' in "r" && 'b' in "b";
    assert !IsSpace('t') && !IsSpace('r') && !IsSpace('b');
  }

  lemma EvidenceIsClean()
    ensures EV.Clean(OnePackage(), ItsEvidence())
  {
    SampleIsValid("P", "M", "a/x");
    ContractExactly(OnePackage());
    PathIsCovered();
    TextsAreSolid();
    assert ItsEvidence().verificationResults[0] in ItsEvidence().verificationResults;
    EV.CleanExactly(OnePackage(), ItsEvidence());
  }

  lemma PackageDelivers()
    ensures PackageOutcome(OnePod(), OnePackage()) == Ok(ItsEvidence())
  {
    EvidenceIsClean();
    SampleIsValid("P", "M", "a/x");
    ContractExactly(OnePackage());
    assert 'b' in ItsWorkspace().branchName && !IsSpace('b') && "M" + ":" + "P" == "M:P";
    AssignmentExactly(ItsWorkspace(), OnePackage());
    assert Owns("A06-BACKEND", "BACKEND");
    DispatchExactly(OnePod(), OnePackage());
  }

  lemma PlanIsAccepted()
    ensures PV.Accepted(SampleDesign("M"), [OnePackage()])
    ensures PlanOutcome(SampleDesign("M"), OnePod()) == Ok(Plan([OnePackage()]))
  {
    SamplesNormalise();
    assert PackageIds([OnePackage()]) == ["P"];
    IndependentAccepted("M", [OnePackage()]);
  }

  lemma OneIsScheduled()
    ensures Schedule(PackageMap([OnePackage()]), {}) == Some([OnePackage()])
  {
    var packages := [OnePackage()];
    PlanIsAccepted();
    var order := AcceptedPlanSchedules(SampleDesign("M"), packages);
    SameMembers(packages, order);
    assert PackageIds(packages) == ["P"];
    assert order == packages by {
      assert order[0] in order && order[0] in packages;
    }
  }

  lemma OneCombines(em: EvidenceMap)
    requires em == map["P" := ItsEvidence()]
    ensures Combinable("M", [OnePackage()], ["P"], em)
  {
    var ids := ["P"];
    assert ids[..0] == [];
    assert Concat(ids, em, Changed) == Concat([], em, Changed) + ["a/x"] == ["a/x"];
    assert VerificationIds(ItsEvidence()) == ["V"];
    assert Concat(ids, em, VerificationIds) == Concat([], em, VerificationIds) + ["V"] == ["V"];
  }

  lemma OneDelivery()
    ensures EvidenceById(Mapped([OnePackage()], Delivered(OnePod()))) == map["P" := ItsEvidence()]
  {
    PackageDelivers();
    var es := Mapped([OnePackage()], Delivered(OnePod()));
    assert es == [ItsEvidence()] && EvidenceIds(es) == ["P"];
    EvidenceByIdTotal(es, ItsEvidence());
  }

  lemma OnePlanSucceeds()
    ensures PlanSucceeds(SampleDesign("M"), [OnePackage()], OnePod())
  {
    PackageDelivers();
    OneIsScheduled();
    OneDelivery();
    assert PackageIds([OnePackage()]) == ["P"];
    OneCombines(map["P" := ItsEvidence()]);
  }

  /** The run succeeds: nothing the pod asks for is too much for a plain plan, worker and workspace. */
  lemma OneRunSucceeds()
    ensures RunSucceeds(SampleDesign("M"), OnePod())
  {
    PlanIsAccepted();
    OnePlanSucceeds();
  }
}
