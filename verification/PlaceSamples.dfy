/** Concrete scopes: two that name one place without overlapping, and one refused for its first two characters. */
module PlaceSamples {
  import opened Wrappers
  import opened Graphs
  import opened Scopes
  import opened WorkPackages
  import opened PlanValidator
  import opened SamplePlans
  import opened Places

  lemma SegmentsOfSamples()
    ensures Segments("a/x") == ["a", "x"] && Segments("a/./x") == ["a", ".", "x"]
  {
    SingleSegment("a");
    SingleSegment("x");
    SingleSegment(".");
    SegmentsConcat("a", "x");
    SegmentsConcat(".", "x");
    SegmentsConcat("a", "./x");
    assert "a" + "/" + "x" == "a/x" && "." + "/" + "x" == "./x" && "a" + "/" + "./x" == "a/./x";
  }

  lemma SamplesNormalise()
    ensures NormalizeScope("a/x") == Some("a/x") && NormalizeScope("a/./x") == Some("a/./x")
  {
    SegmentsOfSamples();
    PlainScope("a/x");
    PlainScope("a/./x");
    NormalizeExact("a/x");
    NormalizeExact("a/./x");
  }

  /**
   Otherwise not: an accepted plan of two packages, in no order, whose scopes `a/x` and `a/./x` are one place.
   */
  lemma DotSegmentsShareAPlace()
    ensures Accepted(SampleDesign("M"), Samples())
    ensures forall a, b :: !Reaches(PlanGraph(Samples()), a, b)
    ensures CoveredBy("a/x", Samples()[0].writeScopes) && CoveredBy("a/./x", Samples()[1].writeScopes)
    ensures Place("a/x") == Place("a/./x") && !Plain("a/./x")
    ensures ShareAPlace(Samples()[0].writeScopes, Samples()[1].writeScopes)
  {
    SamplesAccepted();
    SamplesUnordered();
    SamplesShareAPlace();
    SamplesNormalise();
    CoversItself("a/x");
    CoversItself("a/./x");
    assert SamePlace("a/x", "a/./x");
  }

  /** A scope is refused for its first two characters alone, though no segment of it leads upwards. */
  lemma DotsInFrontRefused()
    ensures NormalizeScope("..foo") == None && ".." !in Segments("..foo")
  {
    PlainScope("..foo");
    SingleSegment("..foo");
    assert ".." <= "..foo";
  }

  lemma SamplesUnordered()
    ensures forall a, b :: !Reaches(PlanGraph(Samples()), a, b)
  {
    IndependentIsAcyclic(Samples());
  }

  function Samples(): seq<WorkPackage> {
    [SamplePackage("P", "M", "a/x"), SamplePackage("Q", "M", "a/./x")]
  }

  lemma SamplesAccepted()
    ensures Accepted(SampleDesign("M"), Samples())
  {
    SamplesNormalise();
    SamplesDoNotOverlap();
    IndependentAccepted("M", Samples());
  }

  lemma CoversItself(scope: string)
    requires NormalizeScope(scope).Some?
    ensures CoveredBy(scope, [scope])
  {
    assert PathInScope(scope, [scope][0]) == Some(true);
  }

  lemma SamplesShareAPlace()
    ensures Place("a/x") == Place("a/./x") && !Plain("a/./x")
  {
    SegmentsOfSamples();
    SegmentsDiffer();
    assert ["a", ".", "x"][1] == ".";
  }

  lemma SamplesDoNotOverlap()
    ensures !Overlap(["a/x"], ["a/./x"])
  {
    SamplesNormalise();
    SegmentsOfSamples();
    SegmentsDiffer();
    InsideIsSegmentPrefix("a/x", "a/./x");
    InsideIsSegmentPrefix("a/./x", "a/x");
  }

  lemma SegmentsDiffer()
    ensures !(["a", "x"] <= ["a", ".", "x"]) && !(["a", ".", "x"] <= ["a", "x"])
    ensures Moving(["a", "x"]) == Moving(["a", ".", "x"])
  {
    assert ["a", "x"][1] != ["a", ".", "x"][1];
    assert ["a", "x"][1..] == ["x"] && ["a", ".", "x"][1..] == [".", "x"] && [".", "x"][1..] == ["x"];
  }
}
