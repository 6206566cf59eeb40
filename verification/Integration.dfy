/** Integration of validated package evidence into one manifest. */
module Integration {
  import opened Wrappers
  import opened StringOrder
  import opened WorkPackages
  import EV = EvidenceValidator

  datatype IntegratedArtifact = IntegratedArtifact(name: string, owner: string)

  datatype Manifest = Manifest(
    missionId: string,
    packageOrder: seq<string>,
    artifacts: seq<IntegratedArtifact>,
    changedPaths: seq<string>,
    verificationIds: seq<string>)

  datatype IntegrationError =
    | MissionRequired
    | DuplicatePackageIds
    | ForeignPackage
    | OrderNotExact
    | DuplicateEvidence
    | EvidenceMismatch
    | UnknownDependency
    | DependencyNotEarlier
    | InvalidPackage(packageId: string)
    | BlockedEvidence(packageId: string)
    | AmbiguousArtifact(name: string)
    | PathConflict(path: string)
    | DuplicateVerification(verificationId: string)
    | InvalidManifest

  function EvidencePackageOf(e: Evidence): string { e.packageId }

  function EvidenceIds(evidence: seq<Evidence>): (ids: seq<string>)
    ensures |ids| == |evidence| && forall i :: 0 <= i < |evidence| ==> ids[i] == evidence[i].packageId
  {
    Mapped(evidence, EvidencePackageOf)
  }

  function VerificationId(r: VerificationResult): string { r.verificationId }

  function VerificationIds(e: Evidence): seq<string> {
    Mapped(e.verificationResults, VerificationId)
  }

  type EvidenceMap = map<string, Evidence>

  /** A list-valued part of every manifest, concatenated in package order. */
  ghost function Concat(order: seq<string>, em: EvidenceMap, part: Evidence -> seq<string>): seq<string> {
    if order == [] then [] else
    var last := order[|order| - 1];
    Concat(order[..|order| - 1], em, part) + (if last in em then part(em[last]) else [])
  }

  lemma ConcatStep(order: seq<string>, id: string, em: EvidenceMap, part: Evidence -> seq<string>)
    requires id in em
    ensures Concat(order + [id], em, part) == Concat(order, em, part) + part(em[id])
  {
    assert (order + [id])[..|order|] == order;
  }

  lemma {:induction false} ConcatMembers(order: seq<string>, em: EvidenceMap, part: Evidence -> seq<string>, x: string)
    requires forall id :: id in order ==> id in em
    ensures x in Concat(order, em, part) <==> exists id :: id in order && x in part(em[id])
  {
    if order == [] {
    } else {
      var init, last := order[..|order| - 1], order[|order| - 1];
      assert order == init + [last];
      ConcatMembers(init, em, part, x);
    }
  }

  /** Each package's list stands in the whole as one stretch, after those of all packages before it. */
  lemma {:induction false} ConcatStretch(order: seq<string>, em: EvidenceMap, part: Evidence -> seq<string>, i: nat)
    requires i < |order| && forall id :: id in order ==> id in em
    ensures var at, own, all := |Concat(order[..i], em, part)|, part(em[order[i]]), Concat(order, em, part);
            at + |own| <= |all| && all[..at] == Concat(order[..i], em, part) && all[at..at + |own|] == own
    decreases |order|
  {
    var init := order[..|order| - 1];
    if i < |init| {
      ConcatStretch(init, em, part, i);
      assert init[..i] == order[..i];
    }
  }

  /** The whole repeats nothing exactly if no package repeats itself and none another. */
  lemma {:induction false} ConcatDistinctExactly(order: seq<string>, em: EvidenceMap, part: Evidence -> seq<string>)
    requires Distinct(order) && forall id :: id in order ==> id in em
    ensures Distinct(Concat(order, em, part)) <==>
            Unshared(order, em, part) && forall id :: id in order ==> Distinct(part(em[id]))
  {
    if order == [] {
    } else {
      var init, last := order[..|order| - 1], order[|order| - 1];
      assert order == init + [last];
      DistinctAppend(init, last);
      ConcatDistinctExactly(init, em, part);
      ApartFromLast(init, last, em, part);
      DistinctConcat(Concat(init, em, part), part(em[last]));
      UnsharedGrows(init, last, em, part);
    }
  }

  lemma ApartFromLast(init: seq<string>, last: string, em: EvidenceMap, part: Evidence -> seq<string>)
    requires last in em && forall id :: id in init ==> id in em
    ensures (forall x :: x in Concat(init, em, part) ==> x !in part(em[last])) <==>
            forall id, x :: id in init && x in part(em[id]) ==> x !in part(em[last])
  {
    forall id, x | id in init && x in part(em[id]) ensures x in Concat(init, em, part) {
      ConcatMembers(init, em, part, x);
    }
    forall x | x in Concat(init, em, part) ensures exists id :: id in init && x in part(em[id]) {
      ConcatMembers(init, em, part, x);
    }
  }

  lemma DistinctConcat(a: seq<string>, b: seq<string>)
    ensures Distinct(a + b) <==> Distinct(a) && Distinct(b) && forall x :: x in a ==> x !in b
  {
    var c := a + b;
    if Distinct(c) {
      DistinctPrefix(a, b);
      forall i, j | 0 <= i < j < |b| ensures b[i] != b[j] { assert c[|a| + i] != c[|a| + j]; }
    }
    if Distinct(a) && Distinct(b) && forall x :: x in a ==> x !in b {
      forall i, j | 0 <= i < j < |c| ensures c[i] != c[j] {
        assert i < |a| ==> c[i] in a;
        assert j >= |a| ==> c[j] == b[j - |a|];
      }
    }
  }

  lemma UnsharedGrows(init: seq<string>, last: string, em: EvidenceMap, part: Evidence -> seq<string>)
    requires last !in init && forall id :: id in init + [last] ==> id in em
    ensures Unshared(init + [last], em, part) <==>
            Unshared(init, em, part) && forall id, x :: id in init && x in part(em[id]) ==> x !in part(em[last])
  {
    if Unshared(init + [last], em, part) {
      assert forall id :: id in init ==> id in init + [last];
      assert last in init + [last];
    }
  }

  /** The table of who first produced what: each name has one owner, the package whose evidence lists it. */
  ghost predicate OwnerTable(owner: map<string, string>, order: seq<string>, em: EvidenceMap,
                             part: Evidence -> seq<string>)
  {
    && (forall n :: n in owner ==> owner[n] in order && owner[n] in em && n in part(em[owner[n]]))
    && (forall id, n :: id in order && id in em && n in part(em[id]) ==> n in owner && owner[n] == id)
  }

  /** No two packages list one name. */
  ghost predicate Unshared(order: seq<string>, em: EvidenceMap, part: Evidence -> seq<string>) {
    forall a, b, n :: a in order && b in order && a in em && b in em && n in part(em[a]) && n in part(em[b]) ==> a == b
  }

  /** The table once a package has claimed the names. */
  function Claimed(owner: map<string, string>, packageId: string, names: seq<string>): map<string, string> {
    owner + map n | n in SetOf(names) :: packageId
  }

  lemma ClaimOne(owner: map<string, string>, packageId: string, names: seq<string>, name: string)
    ensures Claimed(owner, packageId, []) == owner
    ensures Claimed(owner, packageId, names + [name]) == Claimed(owner, packageId, names)[name := packageId]
    ensures name in Claimed(owner, packageId, names) && Claimed(owner, packageId, names)[name] != packageId
            <==> name !in names && name in owner && owner[name] != packageId
  {
    assert SetOf(names + [name]) == SetOf(names) + {name};
  }

  /** Claim every name for a package; the error names one that another package holds already. */
  method Claim(owner: map<string, string>, packageId: string, names: seq<string>)
    returns (r: Result<map<string, string>, string>)
    ensures r.Ok? <==> forall n :: n in names && n in owner ==> owner[n] == packageId
    ensures r.Ok? ==> r.value == Claimed(owner, packageId, names)
    ensures r.Err? ==> r.error in names && r.error in owner && owner[r.error] != packageId
  {
    var table := owner;
    ClaimOne(owner, packageId, [], "");
    for i := 0 to |names|
      invariant table == Claimed(owner, packageId, names[..i])
      invariant forall n :: n in names[..i] && n in owner ==> owner[n] == packageId
    {
      var name := names[i];
      ClaimOne(owner, packageId, names[..i], name);
      assert names[..i + 1] == names[..i] + [name];
      if name in table && table[name] != packageId { return Err(name); }
      table := table[name := packageId];
    }
    assert names[..|names|] == names;
    return Ok(table);
  }

  /** One package's claim in the table of the packages before it: it fails only for a name that is shared. */
  method ClaimPart(owner: map<string, string>, ghost order: seq<string>, ghost em: EvidenceMap,
                   ghost part: Evidence -> seq<string>, id: string, names: seq<string>)
    returns (r: Result<map<string, string>, string>)
    requires OwnerTable(owner, order, em, part) && id in em && id !in order && names == part(em[id])
    ensures r.Ok? ==> OwnerTable(r.value, order + [id], em, part)
    ensures r.Err? ==> !Unshared(order + [id], em, part)
  {
    r := Claim(owner, id, names);
    if r.Ok? { ClaimKeepsTable(owner, order, em, part, id); } else { SharedName(owner, order, em, part, id, r.error); }
  }

  lemma ClaimKeepsTable(owner: map<string, string>, order: seq<string>, em: EvidenceMap,
                        part: Evidence -> seq<string>, id: string)
    requires OwnerTable(owner, order, em, part) && id in em && id !in order
    requires forall n :: n in part(em[id]) && n in owner ==> owner[n] == id
    ensures OwnerTable(Claimed(owner, id, part(em[id])), order + [id], em, part)
  {
    var next := Claimed(owner, id, part(em[id]));
    forall n | n in next ensures next[n] in order + [id] && next[n] in em && n in part(em[next[n]]) {
      if n !in SetOf(part(em[id])) { assert n in owner && next[n] == owner[n]; }
    }
    forall x, n | x in order + [id] && x in em && n in part(em[x]) ensures n in next && next[n] == x {
      if x != id {
        assert x in order && n in owner && owner[n] == x;
        assert n !in SetOf(part(em[id]));
      }
    }
  }

  lemma TableIsUnshared(owner: map<string, string>, order: seq<string>, em: EvidenceMap, part: Evidence -> seq<string>)
    requires OwnerTable(owner, order, em, part)
    ensures Unshared(order, em, part)
  {
    forall a, b, n | a in order && b in order && a in em && b in em && n in part(em[a]) && n in part(em[b])
      ensures a == b
    {
      assert owner[n] == a;
      assert owner[n] == b;
    }
  }

  /** A name listed by two packages stands twice in the concatenation. */
  lemma {:induction false} SharedRepeats(order: seq<string>, em: EvidenceMap, part: Evidence -> seq<string>)
    requires Distinct(order) && (forall id :: id in order ==> id in em) && Distinct(Concat(order, em, part))
    ensures Unshared(order, em, part)
    ensures forall id, n :: id in order && n in part(em[id]) ==> n in Concat(order, em, part)
  {
    if order == [] {
    } else {
      var init, last := order[..|order| - 1], order[|order| - 1];
      assert order == init + [last];
      DistinctAppend(init, last);
      var front := Concat(init, em, part);
      assert Concat(order, em, part) == front + part(em[last]);
      DistinctPrefix(front, part(em[last]));
      SharedRepeats(init, em, part);
    }
  }

  lemma {:induction false} PrefixConcat(order: seq<string>, em: EvidenceMap, part: Evidence -> seq<string>, i: nat)
    requires i <= |order| && (forall id :: id in order ==> id in em) && Distinct(Concat(order, em, part))
    ensures Distinct(Concat(order[..i], em, part))
    decreases |order|
  {
    if i == |order| {
      assert order[..i] == order;
    } else {
      var init := order[..|order| - 1];
      DistinctPrefix(Concat(init, em, part), part(em[order[|order| - 1]]));
      PrefixConcat(init, em, part, i);
      assert init[..i] == order[..i];
    }
  }

  /** The list search and append over one manifest's verification results. */
  method AppendVerifications(ids: seq<string>, e: Evidence) returns (r: Result<seq<string>, string>)
    requires Distinct(ids)
    ensures r.Ok? <==> Distinct(ids + VerificationIds(e))
    ensures r.Ok? ==> r.value == ids + VerificationIds(e)
  {
    var more := VerificationIds(e);
    var all := ids;
    for i := 0 to |more|
      invariant all == ids + more[..i] && Distinct(all)
    {
      DistinctAppend(all, more[i]);
      assert all + [more[i]] == ids + more[..i + 1];
      if more[i] in all {
        if Distinct(ids + more) {
          assert ids + more == (ids + more[..i + 1]) + more[i + 1..];
          DistinctPrefix(ids + more[..i + 1], more[i + 1..]);
        }
        return Err(more[i]);
      }
      all := all + [more[i]];
    }
    assert more[..|more|] == more;
    return Ok(all);
  }

  function EvidenceById(evidence: seq<Evidence>): (m: EvidenceMap)
    ensures m.Keys == SetOf(EvidenceIds(evidence))
    ensures forall id :: id in m ==> m[id] in evidence && m[id].packageId == id
  {
    KeyedBy(evidence, EvidencePackageOf)
  }

  /** The loop that builds the evidence map and refuses a second manifest for a package. */
  method CollectEvidence(evidence: seq<Evidence>) returns (r: Option<EvidenceMap>)
    ensures r.Some? <==> Distinct(EvidenceIds(evidence))
    ensures r.Some? ==> r.value == EvidenceById(evidence)
  {
    var m: EvidenceMap := map[];
    for i := 0 to |evidence|
      invariant m == EvidenceById(evidence[..i]) && Distinct(EvidenceIds(evidence[..i]))
    {
      var item := evidence[i];
      assert evidence[..i + 1][..i] == evidence[..i];
      assert EvidenceIds(evidence[..i + 1]) == EvidenceIds(evidence[..i]) + [item.packageId];
      DistinctAppend(EvidenceIds(evidence[..i]), item.packageId);
      if item.packageId in m {
        return None;
      }
      m := m[item.packageId := item];
    }
    assert evidence[..|evidence|] == evidence;
    return Some(m);
  }

  ghost predicate Before(order: seq<string>, a: string, b: string) {
    exists i, j :: 0 <= i < j < |order| && order[i] == a && order[j] == b
  }

  ghost predicate DependenciesBefore(packages: seq<WorkPackage>, order: seq<string>) {
    forall p, d :: p in packages && d in p.dependsOn ==> Before(order, d, p.packageId)
  }

  /** The position of each package id in the order. */
  function Positions(order: seq<string>): (m: map<string, nat>)
    ensures m.Keys == SetOf(order)
    ensures forall id :: id in m ==> m[id] < |order| && order[m[id]] == id
  {
    if order == [] then map[] else Positions(order[..|order| - 1])[order[|order| - 1] := |order| - 1]
  }

  /** The dependency loop over the declared order. */
  method CheckDependencies(packages: seq<WorkPackage>, order: seq<string>) returns (r: Result<(), IntegrationError>)
    requires Distinct(order) && forall p :: p in packages ==> p.packageId in order
    ensures r.Ok? <==> DependenciesBefore(packages, order)
    ensures r.Err? ==> IsDependencyError(r.error)
  {
    var position := Positions(order);
    for i := 0 to |packages|
      invariant forall p, d :: p in packages[..i] && d in p.dependsOn ==> Before(order, d, p.packageId)
    {
      var p := packages[i];
      for j := 0 to |p.dependsOn|
        invariant forall d :: d in p.dependsOn[..j] ==> Before(order, d, p.packageId)
      {
        var d := p.dependsOn[j];
        if d !in position { assert p in packages && !Before(order, d, p.packageId); return Err(UnknownDependency); }
        if position[d] >= position[p.packageId] {
          assert p in packages && !Before(order, d, p.packageId);
          return Err(DependencyNotEarlier);
        }
      }
      assert p.dependsOn[..|p.dependsOn|] == p.dependsOn && packages[..i + 1] == packages[..i] + [p];
    }
    assert packages[..|packages|] == packages;
    return Ok(());
  }

  method CheckEvidence(p: WorkPackage, e: Evidence) returns (r: Result<(), IntegrationError>)
    ensures r.Ok? <==> EV.Clean(p, e)
    ensures r.Err? ==> r.error.InvalidPackage? || r.error.BlockedEvidence?
  {
    var findings := EV.ValidateEvidence(p, e);
    if findings.Err? { return Err(InvalidPackage(p.packageId)); }
    if findings.value != [] {
      assert EV.Justified(findings.value[0], p, e);
      return Err(BlockedEvidence(p.packageId));
    }
    return Ok(());
  }

  datatype Merged = Merged(owner: map<string, string>, paths: seq<string>, verificationIds: seq<string>)

  function Produced(e: Evidence): seq<string> { e.producedArtifacts }
  function Changed(e: Evidence): seq<string> { e.changedPaths }

  ghost predicate MergedFrom(m: Merged, pathOwner: map<string, string>, order: seq<string>, em: EvidenceMap) {
    && OwnerTable(m.owner, order, em, Produced)
    && OwnerTable(pathOwner, order, em, Changed)
    && m.paths == Concat(order, em, Changed)
    && m.verificationIds == Concat(order, em, VerificationIds) && Distinct(m.verificationIds)
  }

  ghost predicate AllClean(order: seq<string>, pm: Packages, em: EvidenceMap) {
    forall id :: id in order && id in pm && id in em ==> EV.Clean(pm[id], em[id])
  }

  /** The conditions the merging loop tests over the packages in order. */
  ghost predicate Mergeable(order: seq<string>, pm: Packages, em: EvidenceMap) {
    && AllClean(order, pm, em)
    && Unshared(order, em, Produced) && Unshared(order, em, Changed)
    && Distinct(Concat(order, em, VerificationIds))
  }

  /** The body of the merging loop for one package. */
  method MergeOne(m: Merged, pathOwner: map<string, string>, ghost order: seq<string>, id: string,
                  p: WorkPackage, em: EvidenceMap)
    returns (r: Result<Merged, IntegrationError>, pathOwner': map<string, string>)
    requires MergedFrom(m, pathOwner, order, em) && id in em && id !in order
    ensures r.Ok? ==> MergedFrom(r.value, pathOwner', order + [id], em) && EV.Clean(p, em[id])
    ensures r.Err? ==> !IsOrderError(r.error)
    ensures r.Err? ==> || !EV.Clean(p, em[id]) || !Unshared(order + [id], em, Produced)
                       || !Unshared(order + [id], em, Changed) || !Distinct(Concat(order + [id], em, VerificationIds))
  {
    pathOwner' := pathOwner;
    var manifest := em[id];
    var clean := CheckEvidence(p, manifest);
    if clean.Err? { r := Err(clean.error); return; }
    var artifacts := ClaimPart(m.owner, order, em, Produced, id, manifest.producedArtifacts);
    if artifacts.Err? { r := Err(AmbiguousArtifact(artifacts.error)); return; }
    var paths := ClaimPart(pathOwner, order, em, Changed, id, manifest.changedPaths);
    if paths.Err? { r := Err(PathConflict(paths.error)); return; }
    pathOwner' := paths.value;
    ConcatStep(order, id, em, VerificationIds);
    ConcatStep(order, id, em, Changed);
    var verifications := AppendVerifications(m.verificationIds, manifest);
    if verifications.Err? { r := Err(DuplicateVerification(verifications.error)); return; }
    r := Ok(Merged(artifacts.value, m.paths + manifest.changedPaths, verifications.value));
  }

  lemma SharedName(owner: map<string, string>, order: seq<string>, em: EvidenceMap,
                   part: Evidence -> seq<string>, id: string, n: string)
    requires OwnerTable(owner, order, em, part) && id in em && n in owner && owner[n] != id && n in part(em[id])
    ensures !Unshared(order + [id], em, part)
  {
    assert owner[n] in order + [id] && id in order + [id];
  }

  /** What one package's refusal means for the whole order. */
  lemma StepRefused(order: seq<string>, pm: Packages, em: EvidenceMap, i: nat)
    requires Distinct(order) && i < |order| && forall id :: id in order ==> id in pm && id in em
    requires var upTo := order[..i] + [order[i]];
             || !EV.Clean(pm[order[i]], em[order[i]])
             || !Unshared(upTo, em, Produced) || !Unshared(upTo, em, Changed)
             || !Distinct(Concat(upTo, em, VerificationIds))
    ensures !Mergeable(order, pm, em)
  {
    assert order[i] in order && order[..i + 1] == order[..i] + [order[i]];
    PrefixMergeable(order, pm, em, i + 1);
  }

  lemma MergedMeans(m: Merged, pathOwner: map<string, string>, order: seq<string>, pm: Packages, em: EvidenceMap)
    requires MergedFrom(m, pathOwner, order, em) && AllClean(order, pm, em)
    ensures Mergeable(order, pm, em)
  {
    TableIsUnshared(m.owner, order, em, Produced);
    TableIsUnshared(pathOwner, order, em, Changed);
  }

  lemma PrefixMergeable(order: seq<string>, pm: Packages, em: EvidenceMap, n: nat)
    requires Distinct(order) && n <= |order| && forall id :: id in order ==> id in pm && id in em
    ensures Mergeable(order, pm, em) ==> Mergeable(order[..n], pm, em)
  {
    if Mergeable(order, pm, em) {
      PrefixConcat(order, em, VerificationIds, n);
      assert forall x :: x in order[..n] ==> x in order;
    }
  }

  /** The merging loop of integrate. */
  method Merge(order: seq<string>, pm: Packages, em: EvidenceMap) returns (r: Result<Merged, IntegrationError>)
    requires Distinct(order) && forall id :: id in order ==> id in pm && id in em
    ensures r.Ok? <==> Mergeable(order, pm, em)
    ensures r.Err? ==> !IsOrderError(r.error)
    ensures r.Ok? ==> OwnerTable(r.value.owner, order, em, Produced)
    ensures r.Ok? ==> r.value.paths == Concat(order, em, Changed)
                      && r.value.verificationIds == Concat(order, em, VerificationIds)
  {
    var merged := Merged(map[], [], []);
    var pathOwner: map<string, string> := map[];
    for i := 0 to |order|
      invariant MergedFrom(merged, pathOwner, order[..i], em) && AllClean(order[..i], pm, em)
    {
      var id := order[i];
      assert id in order && order[..i + 1] == order[..i] + [id];
      var step;
      step, pathOwner := MergeOne(merged, pathOwner, order[..i], id, pm[id], em);
      if step.Err? {
        StepRefused(order, pm, em, i);
        return Err(step.error);
      }
      merged := step.value;
    }
    assert order[..|order|] == order;
    MergedMeans(merged, pathOwner, order, pm, em);
    return Ok(merged);
  }

  function Artifacts(owner: map<string, string>, names: seq<string>): (artifacts: seq<IntegratedArtifact>)
    requires forall n :: n in names ==> n in owner
    ensures |artifacts| == |names|
    ensures forall i :: 0 <= i < |names| ==> artifacts[i] == IntegratedArtifact(names[i], owner[names[i]])
  {
    seq(|names|, i requires 0 <= i < |names| => IntegratedArtifact(names[i], owner[names[i]]))
  }

  /** IntegrationManifest.validate */
  predicate ManifestValid(m: Manifest) {
    && m.missionId != "" && m.packageOrder != [] && Distinct(m.packageOrder)
    && Distinct(m.changedPaths) && Distinct(m.verificationIds)
    && (forall i, j :: 0 <= i < j < |m.artifacts| ==> m.artifacts[i].name != m.artifacts[j].name)
    && forall a :: a in m.artifacts ==> a.name != "" && a.owner != ""
  }

  predicate AllOfMission(missionId: string, packages: seq<WorkPackage>) {
    forall p :: p in packages ==> p.missionId == missionId
  }

  /** The order names each package once, and nothing else. */
  predicate OrderIsExact(packages: seq<WorkPackage>, order: seq<string>) {
    Distinct(order) && SetOf(order) == SetOf(PackageIds(packages))
  }

  ghost predicate OrderChecks(packages: seq<WorkPackage>, order: seq<string>) {
    OrderIsExact(packages, order) && DependenciesBefore(packages, order)
  }

  /** The checks integrate makes on the lists it is given, before it looks into the evidence. */
  ghost predicate InputsExact(missionId: string, packages: seq<WorkPackage>, evidence: seq<Evidence>,
                              order: seq<string>)
  {
    && missionId != "" && Distinct(PackageIds(packages))
    && AllOfMission(missionId, packages)
    && OrderChecks(packages, order)
    && Distinct(EvidenceIds(evidence)) && SetOf(EvidenceIds(evidence)) == SetOf(PackageIds(packages))
  }

  /** What the evidence of all packages together must satisfy. */
  ghost predicate PartsCompatible(order: seq<string>, pm: Packages, em: EvidenceMap) {
    && order != []
    && (forall id :: id in order && id in pm && id in em ==> EV.Clean(pm[id], em[id]) && "" !in Produced(em[id]))
    && Unshared(order, em, Produced)
    && Distinct(Concat(order, em, Changed))
    && Distinct(Concat(order, em, VerificationIds))
  }

  /** What the manifest records: one owner per artifact, all paths and verifications in package order. */
  ghost predicate Records(m: Manifest, missionId: string, order: seq<string>, em: EvidenceMap) {
    && m.missionId == missionId && m.packageOrder == order
    && (forall n, id :: IntegratedArtifact(n, id) in m.artifacts <==> id in order && id in em && n in Produced(em[id]))
    && (forall i, j :: 0 <= i < j < |m.artifacts| ==> Less(m.artifacts[i].name, m.artifacts[j].name))
    && m.changedPaths == Concat(order, em, Changed) && Distinct(m.changedPaths)
    && m.verificationIds == Concat(order, em, VerificationIds) && Distinct(m.verificationIds)
  }

  /** What a manifest says of the evidence it was made from: nothing is lost, nothing is added. */
  ghost predicate TellsEvidence(m: Manifest, evidence: seq<Evidence>) {
    && (forall n, id :: IntegratedArtifact(n, id) in m.artifacts <==>
          exists e :: e in evidence && e.packageId == id && n in e.producedArtifacts)
    && (forall path :: path in m.changedPaths <==> exists e :: e in evidence && path in e.changedPaths)
    && (forall v :: v in m.verificationIds <==>
          exists e, x :: e in evidence && x in e.verificationResults && x.verificationId == v)
  }

  lemma EvidenceByIdTotal(evidence: seq<Evidence>, e: Evidence)
    requires Distinct(EvidenceIds(evidence)) && e in evidence
    ensures e.packageId in EvidenceById(evidence) && EvidenceById(evidence)[e.packageId] == e
  {
    var i :| 0 <= i < |evidence| && evidence[i] == e;
    KeyedTotal(evidence, EvidencePackageOf, i);
  }

  /** A list concatenated in package order holds what the evidence's own lists hold. */
  lemma ConcatOfEvidence(order: seq<string>, evidence: seq<Evidence>, part: Evidence -> seq<string>, x: string)
    requires Distinct(EvidenceIds(evidence)) && SetOf(order) == SetOf(EvidenceIds(evidence))
    ensures x in Concat(order, EvidenceById(evidence), part) <==> exists e :: e in evidence && x in part(e)
  {
    var em := EvidenceById(evidence);
    assert forall id :: id in order <==> id in SetOf(order);
    ConcatMembers(order, em, part, x);
    if e :| e in evidence && x in part(e) { EvidenceByIdTotal(evidence, e); }
  }

  lemma RecordsTell(m: Manifest, missionId: string, evidence: seq<Evidence>, order: seq<string>)
    requires Distinct(EvidenceIds(evidence)) && SetOf(order) == SetOf(EvidenceIds(evidence))
    requires Records(m, missionId, order, EvidenceById(evidence))
    ensures TellsEvidence(m, evidence)
  {
    var em := EvidenceById(evidence);
    assert forall id :: id in order <==> id in SetOf(order);
    forall n, id ensures IntegratedArtifact(n, id) in m.artifacts <==>
                         exists e :: e in evidence && e.packageId == id && n in e.producedArtifacts
    {
      if e :| e in evidence && e.packageId == id && n in e.producedArtifacts { EvidenceByIdTotal(evidence, e); }
    }
    forall path ensures path in m.changedPaths <==> exists e :: e in evidence && path in e.changedPaths {
      ConcatOfEvidence(order, evidence, Changed, path);
      assert forall e :: path in Changed(e) <==> path in e.changedPaths;
    }
    forall v ensures v in m.verificationIds <==>
                     exists e, x :: e in evidence && x in e.verificationResults && x.verificationId == v
    {
      ConcatOfEvidence(order, evidence, VerificationIds, v);
      forall e: Evidence
        ensures v in VerificationIds(e) <==> exists x :: x in e.verificationResults && x.verificationId == v
      {
        VerifiedIn(e, v);
      }
    }
  }

  lemma VerifiedIn(e: Evidence, v: string)
    ensures v in VerificationIds(e) <==> exists x :: x in e.verificationResults && x.verificationId == v
  {
    if i :| 0 <= i < |VerificationIds(e)| && VerificationIds(e)[i] == v {
      assert e.verificationResults[i] in e.verificationResults;
    }
    if x :| x in e.verificationResults && x.verificationId == v {
      var i :| 0 <= i < |e.verificationResults| && e.verificationResults[i] == x;
      assert VerificationIds(e)[i] == v;
    }
  }

  lemma PackageInOrder(packages: seq<WorkPackage>, order: seq<string>)
    requires SetOf(order) == SetOf(PackageIds(packages))
    ensures forall p :: p in packages ==> p.packageId in order
    ensures order == [] <==> packages == []
  {
    forall p | p in packages ensures p.packageId in order {
      var i :| 0 <= i < |packages| && packages[i] == p;
      assert PackageIds(packages)[i] in SetOf(order);
    }
    if order != [] { assert order[0] in SetOf(PackageIds(packages)); }
    if packages != [] { assert packages[0] in packages; }
  }

  /** The sorted artifact list says exactly what the owner table says. */
  lemma ArtifactsMirrorTable(owner: map<string, string>, order: seq<string>, em: EvidenceMap)
    requires OwnerTable(owner, order, em, Produced)
    ensures var list := Artifacts(owner, Sorted(owner.Keys));
            forall n, id :: IntegratedArtifact(n, id) in list <==> id in order && id in em && n in Produced(em[id])
  {
    var names := Sorted(owner.Keys);
    var list := Artifacts(owner, names);
    forall n, id ensures IntegratedArtifact(n, id) in list <==> id in order && id in em && n in Produced(em[id]) {
      if id in order && id in em && n in Produced(em[id]) {
        assert n in owner && n in names;
        var i :| 0 <= i < |names| && names[i] == n;
        assert list[i] == IntegratedArtifact(n, id);
      }
    }
  }

  lemma ValidExactly(m: Manifest, order: seq<string>, em: EvidenceMap)
    requires m.missionId != "" && m.packageOrder == order && Distinct(order) && Distinct(m.verificationIds)
    requires forall i, j :: 0 <= i < j < |m.artifacts| ==> Less(m.artifacts[i].name, m.artifacts[j].name)
    requires forall n, id :: IntegratedArtifact(n, id) in m.artifacts <==>
        id in order && id in em && n in Produced(em[id])
    requires forall id :: id in order ==> id != "" && id in em
    ensures ManifestValid(m) <==>
            order != [] && Distinct(m.changedPaths) && forall id :: id in order ==> "" !in Produced(em[id])
  {
    forall i, j | 0 <= i < j < |m.artifacts| ensures m.artifacts[i].name != m.artifacts[j].name {
      LessTotal(m.artifacts[i].name, m.artifacts[j].name);
    }
    forall a | a in m.artifacts ensures a.owner in order && a.name in Produced(em[a.owner]) {
      assert IntegratedArtifact(a.name, a.owner) in m.artifacts;
    }
    if id :| id in order && "" in Produced(em[id]) {
      assert IntegratedArtifact("", id) in m.artifacts;
    }
  }

  /** Building and validating the manifest from what was merged. */
  method Finish(missionId: string, order: seq<string>, ghost em: EvidenceMap, m: Merged)
    returns (r: Result<Manifest, IntegrationError>)
    requires missionId != "" && Distinct(order)
    requires forall id :: id in order ==> id != "" && id in em
    requires OwnerTable(m.owner, order, em, Produced) && Distinct(m.verificationIds)
    requires m.paths == Concat(order, em, Changed) && m.verificationIds == Concat(order, em, VerificationIds)
    ensures r.Ok? <==> order != [] && Distinct(m.paths) && forall id :: id in order ==> "" !in Produced(em[id])
    ensures r.Ok? ==> Records(r.value, missionId, order, em)
    ensures r.Err? ==> r.error.InvalidManifest?
  {
    var names := Sorted(m.owner.Keys);
    var manifest := Manifest(missionId, order, Artifacts(m.owner, names), m.paths, m.verificationIds);
    ArtifactsMirrorTable(m.owner, order, em);
    ValidExactly(manifest, order, em);
    return if ManifestValid(manifest) then Ok(manifest) else Err(InvalidManifest);
  }

  lemma PackageMapSize(packages: seq<WorkPackage>)
    ensures PackageMap(packages).Keys == SetOf(PackageIds(packages))
    ensures |PackageMap(packages)| == |packages| <==> Distinct(PackageIds(packages))
  {
    var pm := PackageMap(packages);
    DistinctByCount(PackageIds(packages));
    assert |pm| == |pm.Keys|;
  }

  lemma OrderSize(packages: seq<WorkPackage>, order: seq<string>)
    ensures OrderIsExact(packages, order) <==> |order| == |SetOf(order)| && SetOf(order) == PackageMap(packages).Keys
  {
    DistinctByCount(order);
  }

  /** The checks before any evidence is read. */
  method CheckPackages(missionId: string, packages: seq<WorkPackage>, order: seq<string>)
    returns (r: Result<(), IntegrationError>)
    ensures r.Ok? <==> && missionId != "" && Distinct(PackageIds(packages))
                       && AllOfMission(missionId, packages) && OrderIsExact(packages, order)
    ensures r.Err? ==> !IsDependencyError(r.error)
    ensures r.Err? && r.error.OrderNotExact? ==> !OrderIsExact(packages, order)
  {
    if missionId == "" { return Err(MissionRequired); }
    var pm := PackageMap(packages);
    PackageMapSize(packages);
    if |pm| != |packages| { return Err(DuplicatePackageIds); }
    if !AllOfMission(missionId, packages) { return Err(ForeignPackage); }
    OrderSize(packages, order);
    if |order| != |SetOf(order)| || SetOf(order) != pm.Keys { return Err(OrderNotExact); }
    return Ok(());
  }

  predicate IsDependencyError(e: IntegrationError) {
    e.UnknownDependency? || e.DependencyNotEarlier?
  }

  predicate IsOrderError(e: IntegrationError) {
    e.OrderNotExact? || IsDependencyError(e)
  }

  method CheckInputs(missionId: string, packages: seq<WorkPackage>, evidence: seq<Evidence>, order: seq<string>)
    returns (r: Result<EvidenceMap, IntegrationError>)
    ensures r.Ok? <==> InputsExact(missionId, packages, evidence, order)
    ensures r.Ok? ==> r.value == EvidenceById(evidence)
    ensures r.Err? && IsOrderError(r.error) ==> !OrderChecks(packages, order)
  {
    var listed := CheckPackages(missionId, packages, order);
    if listed.Err? { return Err(listed.error); }
    var collected := CollectEvidence(evidence);
    if collected.None? { return Err(DuplicateEvidence); }
    if collected.value.Keys != PackageMap(packages).Keys { return Err(EvidenceMismatch); }
    PackageInOrder(packages, order);
    var earlier := CheckDependencies(packages, order);
    if earlier.Err? { return Err(earlier.error); }
    return Ok(collected.value);
  }

  /** The loop over the packages and the final manifest. */
  method CombineEvidence(missionId: string, order: seq<string>, pm: Packages, em: EvidenceMap)
    returns (r: Result<Manifest, IntegrationError>)
    requires missionId != "" && Distinct(order) && forall id :: id in order ==>
        id in pm && id in em && pm[id].packageId == id
    ensures r.Ok? <==> PartsCompatible(order, pm, em)
    ensures r.Ok? ==> Records(r.value, missionId, order, em)
    ensures r.Err? ==> !IsOrderError(r.error)
  {
    var merged := Merge(order, pm, em);
    if merged.Err? {
      if Distinct(Concat(order, em, Changed)) { SharedRepeats(order, em, Changed); }
      return Err(merged.error);
    }
    forall id | id in order ensures id != "" && id in em { assert id in pm && EV.Clean(pm[id], em[id]); }
    r := Finish(missionId, order, em, merged.value);
  }

  /**
   integrate: succeeds exactly when the inputs are exact and the evidence parts compatible, and then
   conserves ownership. Its order errors are raised only when an order check really fails.
   */
  method Integrate(missionId: string, packages: seq<WorkPackage>, evidence: seq<Evidence>, order: seq<string>)
    returns (r: Result<Manifest, IntegrationError>)
    ensures r.Ok? <==> && InputsExact(missionId, packages, evidence, order)
                       && PartsCompatible(order, PackageMap(packages), EvidenceById(evidence))
    ensures r.Ok? ==> Records(r.value, missionId, order, EvidenceById(evidence)) && TellsEvidence(r.value, evidence)
    ensures r.Ok? ==> forall p, a :: p in packages && a in p.expectedArtifacts ==>
                                       IntegratedArtifact(a, p.packageId) in r.value.artifacts
    ensures r.Err? && IsOrderError(r.error) ==> !OrderChecks(packages, order)
  {
    var em := CheckInputs(missionId, packages, evidence, order);
    if em.Err? { return Err(em.error); }
    assert forall id :: id in order ==> id in SetOf(order);
    r := CombineEvidence(missionId, order, PackageMap(packages), em.value);
    if r.Ok? {
      ExpectedAreIntegrated(r.value, missionId, packages, evidence, order);
      RecordsTell(r.value, missionId, evidence, order);
    }
  }

  /** The manifest owns every expected artifact of every package under that package. */
  lemma ExpectedAreIntegrated(m: Manifest, missionId: string, packages: seq<WorkPackage>, evidence: seq<Evidence>,
                              order: seq<string>)
    requires InputsExact(missionId, packages, evidence, order)
    requires PartsCompatible(order, PackageMap(packages), EvidenceById(evidence))
    requires Records(m, missionId, order, EvidenceById(evidence))
    ensures forall p, a :: p in packages && a in p.expectedArtifacts ==>
                             IntegratedArtifact(a, p.packageId) in m.artifacts
  {
    var pm, em := PackageMap(packages), EvidenceById(evidence);
    PackageInOrder(packages, order);
    forall p, a | p in packages && a in p.expectedArtifacts ensures IntegratedArtifact(a, p.packageId) in m.artifacts {
      var i :| 0 <= i < |packages| && packages[i] == p;
      KeyedTotal(packages, PackageIdOf, i);
      assert p.packageId in SetOf(EvidenceIds(evidence));
      EV.CleanMeans(p, em[p.packageId]);
    }
  }
}
