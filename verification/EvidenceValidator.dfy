/** Deterministic acceptance of the evidence produced for one work package. */
module EvidenceValidator {
  import opened Wrappers
  import opened StringOrder
  import opened Text
  import opened Scopes
  import opened WorkPackages

  /** Every finding is blocking. */
  datatype Finding =
    | InvalidEvidenceContract(packageId: string)
    | PackageMismatch
    | InvalidChangedPath(path: string)
    | ChangeOutsideScope(path: string)
    | ExpectedArtifactMissing(artifact: string)
    | VerificationFailed(verificationId: string)
    | RequiredVerificationMissing(methodName: string)

  /** Whether some scope contains the path; None when a text does not normalise before the first hit. */
  function AnyScope(path: string, scopes: seq<string>): Option<bool> {
    if scopes == [] then Some(false)
    else if PathInScope(path, scopes[0]) == Some(false) then AnyScope(path, scopes[1..])
    else PathInScope(path, scopes[0])
  }

  function Passed(e: Evidence): set<string> {
    set r | r in e.verificationResults && r.status == "PASS" :: r.methodName
  }

  /** What each finding asserts about a well-formed evidence manifest. */
  ghost predicate Justified(f: Finding, p: WorkPackage, e: Evidence) {
    if !EvidenceValid(e) then f == InvalidEvidenceContract(e.packageId) else
    match f
    case InvalidEvidenceContract(_) => false
    case PackageMismatch => e.packageId != p.packageId
    case InvalidChangedPath(path) => path in e.changedPaths && AnyScope(path, p.writeScopes).None?
    case ChangeOutsideScope(path) => path in e.changedPaths && AnyScope(path, p.writeScopes) == Some(false)
    case ExpectedArtifactMissing(a) => a in p.expectedArtifacts && a !in e.producedArtifacts
    case VerificationFailed(v) =>
      exists r :: r in e.verificationResults && r.verificationId == v && r.status != "PASS"
    case RequiredVerificationMissing(m) => m in p.verificationMethods && m !in Passed(e)
  }

  method CheckPaths(p: WorkPackage, e: Evidence) returns (findings: seq<Finding>)
    ensures forall f :: f in findings <==>
                        || (f.InvalidChangedPath? && f.path in e.changedPaths && AnyScope(f.path, p.writeScopes).None?)
                        || (f.ChangeOutsideScope? && f.path in e.changedPaths
                            && AnyScope(f.path, p.writeScopes) == Some(false))
  {
    findings := [];
    for i := 0 to |e.changedPaths|
      invariant forall f :: f in findings <==>
                            || (f.InvalidChangedPath? && f.path in e.changedPaths[..i]
                                && AnyScope(f.path, p.writeScopes).None?)
                            || (f.ChangeOutsideScope? && f.path in e.changedPaths[..i]
                                && AnyScope(f.path, p.writeScopes) == Some(false))
    {
      var path := e.changedPaths[i];
      var allowed := AnyScope(path, p.writeScopes);
      if allowed.None? {
        findings := findings + [InvalidChangedPath(path)];
      } else if !allowed.value {
        findings := findings + [ChangeOutsideScope(path)];
      }
    }
    assert e.changedPaths[..|e.changedPaths|] == e.changedPaths;
  }

  method CheckArtifacts(p: WorkPackage, e: Evidence) returns (findings: seq<Finding>)
    ensures forall f :: f in findings <==>
                        f.ExpectedArtifactMissing? && f.artifact in p.expectedArtifacts &&
                          f.artifact !in e.producedArtifacts
  {
    findings := [];
    var missing := Sorted(SetOf(p.expectedArtifacts) - SetOf(e.producedArtifacts));
    for i := 0 to |missing|
      invariant forall f :: f in findings <==> f.ExpectedArtifactMissing? && f.artifact in missing[..i]
    {
      findings := findings + [ExpectedArtifactMissing(missing[i])];
    }
    assert missing[..|missing|] == missing;
  }

  method CheckVerifications(p: WorkPackage, e: Evidence) returns (findings: seq<Finding>)
    ensures forall f :: f in findings <==>
                        || (f.VerificationFailed? && exists r :: r in e.verificationResults
                                                         && r.verificationId == f.verificationId && r.status != "PASS")
                        || (f.RequiredVerificationMissing? && f.methodName in p.verificationMethods
                            && f.methodName !in Passed(e))
  {
    findings := [];
    for i := 0 to |e.verificationResults|
      invariant forall f :: f in findings <==>
                            f.VerificationFailed? && exists r :: r in e.verificationResults[..i]
                                                         && r.verificationId == f.verificationId && r.status != "PASS"
    {
      var result := e.verificationResults[i];
      assert e.verificationResults[..i + 1] == e.verificationResults[..i] + [result];
      if result.status != "PASS" { findings := findings + [VerificationFailed(result.verificationId)]; }
    }
    assert e.verificationResults[..|e.verificationResults|] == e.verificationResults;
    var failed := findings;
    for i := 0 to |p.verificationMethods|
      invariant forall f :: f in findings <==>
                            f in failed || (f.RequiredVerificationMissing? && f.methodName !in Passed(e)
                                            && f.methodName in p.verificationMethods[..i])
    {
      if p.verificationMethods[i] !in Passed(e) {
        findings := findings + [RequiredVerificationMissing(p.verificationMethods[i])];
      }
    }
    assert p.verificationMethods[..|p.verificationMethods|] == p.verificationMethods;
  }

  /** validate_evidence: Err is the package's own ValueError; otherwise exactly the justified findings. */
  method ValidateEvidence(p: WorkPackage, e: Evidence) returns (r: Result<seq<Finding>, PackageError>)
    ensures r.Err? <==> ValidatePackage(p).Some?
    ensures r.Ok? ==> forall f :: f in r.value <==> Justified(f, p, e)
  {
    var error := ValidatePackage(p);
    if error.Some? { return Err(error.value); }
    if !EvidenceValid(e) { return Ok([InvalidEvidenceContract(e.packageId)]); }
    var findings := if e.packageId != p.packageId then [PackageMismatch] else [];
    var paths := CheckPaths(p, e);
    var artifacts := CheckArtifacts(p, e);
    var verifications := CheckVerifications(p, e);
    return Ok(findings + paths + artifacts + verifications);
  }

  /** The evidence of a package carries no blocking finding. */
  ghost predicate Clean(p: WorkPackage, e: Evidence) {
    ValidatePackage(p).None? && forall f :: !Justified(f, p, e)
  }

  lemma {:induction false} AnyScopeIsCovered(path: string, scopes: seq<string>)
    requires AnyScope(path, scopes) == Some(true)
    ensures CoveredBy(path, scopes)
  {
    if PathInScope(path, scopes[0]) == Some(false) {
      AnyScopeIsCovered(path, scopes[1..]);
      var i :| 0 <= i < |scopes[1..]| && PathInScope(path, scopes[1..][i]) == Some(true);
      assert PathInScope(path, scopes[i + 1]) == Some(true);
    } else {
      assert PathInScope(path, scopes[0]) == Some(true);
    }
  }

  /** The scopes are tried in turn: the first that does not simply say no decides. */
  lemma {:induction false} AnyScopeExactly(path: string, scopes: seq<string>)
    ensures AnyScope(path, scopes) == Some(false) <==>
            forall i :: 0 <= i < |scopes| ==> PathInScope(path, scopes[i]) == Some(false)
    ensures AnyScope(path, scopes) != Some(false) ==>
              exists i :: && 0 <= i < |scopes| && PathInScope(path, scopes[i]) == AnyScope(path, scopes)
                          && forall j :: 0 <= j < i ==> PathInScope(path, scopes[j]) == Some(false)
  {
    if scopes == [] {
    } else {
      AnyScopeExactly(path, scopes[1..]);
      if PathInScope(path, scopes[0]) == Some(false) {
        RestDecides(path, scopes);
      } else {
        assert PathInScope(path, scopes[0]) == AnyScope(path, scopes);
      }
    }
  }

  lemma RestDecides(path: string, scopes: seq<string>)
    requires scopes != [] && PathInScope(path, scopes[0]) == Some(false)
    ensures (forall i :: 0 <= i < |scopes| ==> PathInScope(path, scopes[i]) == Some(false)) <==>
            forall i :: 0 <= i < |scopes[1..]| ==> PathInScope(path, scopes[1..][i]) == Some(false)
    ensures forall i :: && 0 <= i < |scopes[1..]|
                        && (forall j :: 0 <= j < i ==> PathInScope(path, scopes[1..][j]) == Some(false)) ==>
                          && scopes[i + 1] == scopes[1..][i]
                          && forall j :: 0 <= j < i + 1 ==> PathInScope(path, scopes[j]) == Some(false)
  {
    assert forall i :: 0 < i < |scopes| ==> scopes[i] == scopes[1..][i - 1];
  }

  /** With scopes that all normalise, a path is let through exactly if it normalises and one of them covers it. */
  lemma CoveredExactly(path: string, scopes: seq<string>)
    requires forall s :: s in scopes ==> NormalizeScope(s).Some?
    ensures AnyScope(path, scopes) == Some(true) <==> CoveredBy(path, scopes)
  {
    AnyScopeExactly(path, scopes);
    if AnyScope(path, scopes) == Some(true) { AnyScopeIsCovered(path, scopes); }
    if i :| 0 <= i < |scopes| && PathInScope(path, scopes[i]) == Some(true) {
      PathInScopeExactly(path, scopes[i]);
      forall j | 0 <= j < |scopes| ensures PathInScope(path, scopes[j]).Some? {
        assert scopes[j] in scopes;
        PathInScopeExactly(path, scopes[j]);
      }
    }
  }

  /** What the evidence itself must say to be clean. */
  ghost predicate SaysEnough(p: WorkPackage, e: Evidence) {
    && e.packageId == p.packageId
    && e.changedPaths != [] && e.producedArtifacts != [] && e.verificationResults != []
    && (forall r :: r in e.verificationResults ==>
          r.verificationId != "" && !IsBlank(r.methodName) && !IsBlank(r.evidenceRef) && r.status == "PASS")
    && (forall path :: path in e.changedPaths ==> AnyScope(path, p.writeScopes) == Some(true))
    && (forall a :: a in p.expectedArtifacts ==> a in e.producedArtifacts)
    && forall m :: m in p.verificationMethods ==>
         exists r :: r in e.verificationResults && r.methodName == m && r.status == "PASS"
  }

  /** Evidence that says enough earns no finding. */
  lemma NothingToFind(p: WorkPackage, e: Evidence, f: Finding)
    requires e.packageId != "" && SaysEnough(p, e)
    ensures !Justified(f, p, e)
  {
  }

  lemma CleanPath(p: WorkPackage, e: Evidence, path: string)
    requires Clean(p, e) && path in e.changedPaths
    ensures AnyScope(path, p.writeScopes) == Some(true)
  {
    CleanMeans(p, e);
    assert !Justified(InvalidChangedPath(path), p, e) && !Justified(ChangeOutsideScope(path), p, e);
    var allowed := AnyScope(path, p.writeScopes);
    assert allowed.Some? && allowed.value;
  }

  lemma CleanSaysEnough(p: WorkPackage, e: Evidence)
    requires Clean(p, e)
    ensures SaysEnough(p, e)
  {
    CleanMeans(p, e);
    forall path | path in e.changedPaths ensures AnyScope(path, p.writeScopes) == Some(true) { CleanPath(p, e, path); }
  }

  /**
   Evidence is clean exactly if its package keeps its contract, the evidence names that package and is not empty, every
   changed path is inside a scope, nothing expected is missing, every result passed and each required method has one.
   */
  lemma CleanExactly(p: WorkPackage, e: Evidence)
    ensures Clean(p, e) <==> KeepsContract(p) && SaysEnough(p, e)
  {
    ContractExactly(p);
    if KeepsContract(p) && SaysEnough(p, e) {
      forall f ensures !Justified(f, p, e) { NothingToFind(p, e, f); }
    }
    if Clean(p, e) { CleanSaysEnough(p, e); }
  }

  /** What clean evidence guarantees to integration. */
  lemma CleanMeans(p: WorkPackage, e: Evidence)
    requires Clean(p, e)
    ensures EvidenceValid(e) && e.packageId == p.packageId
    ensures forall path :: path in e.changedPaths ==> CoveredBy(path, p.writeScopes)
    ensures forall a :: a in p.expectedArtifacts ==> a in e.producedArtifacts
    ensures forall r :: r in e.verificationResults ==> r.status == "PASS"
    ensures forall m :: m in p.verificationMethods ==>
                        exists r :: r in e.verificationResults && r.methodName == m && r.status == "PASS"
  {
    assert !Justified(InvalidEvidenceContract(e.packageId), p, e);
    assert EvidenceValid(e);
    assert !Justified(PackageMismatch, p, e);
    forall path | path in e.changedPaths ensures CoveredBy(path, p.writeScopes) {
      assert !Justified(InvalidChangedPath(path), p, e) && !Justified(ChangeOutsideScope(path), p, e);
      var allowed := AnyScope(path, p.writeScopes);
      assert allowed.Some? && allowed.value;
      AnyScopeIsCovered(path, p.writeScopes);
    }
    forall a | a in p.expectedArtifacts ensures a in e.producedArtifacts {
      assert !Justified(ExpectedArtifactMissing(a), p, e);
    }
    forall r | r in e.verificationResults ensures r.status == "PASS" {
      assert !Justified(VerificationFailed(r.verificationId), p, e);
    }
    forall m | m in p.verificationMethods
      ensures exists r :: r in e.verificationResults && r.methodName == m && r.status == "PASS"
    {
      assert !Justified(RequiredVerificationMissing(m), p, e);
    }
  }
}
