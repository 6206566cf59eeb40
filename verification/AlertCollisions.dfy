/** Alert event ids that collide: the run that reaches one, and canonical ids for which there is none. */
module AlertCollisions {
  import opened Wrappers
  import opened Text
  import opened Alerts
  import opened SampleSearches
  import Inventory

  /** Save and prime one search, let it alert on c, then save and prime a second one. */
  function TwoSearches(id1: string, v1: nat, c: string, id2: string, v2: nat): seq<Step> {
    [] + [SaveCall(Named(id1, v1))] + [EvaluateCall(id1, [], 0)] + [EvaluateCall(id1, [c], 1)]
    + [SaveCall(Named(id2, v2))] + [EvaluateCall(id2, [], 2)]
  }

  /** Saving a new search and evaluating it without matches primes it and touches nothing else. */
  lemma SavedAndPrimed(t: Tables, id: string, version: nat, at: int)
    requires !IsBlank(id) && version > 0 && id !in t.searches
    ensures var after := Exec(Exec(t, SaveCall(Named(id, version))), EvaluateCall(id, [], at));
            && after.searches == t.searches[id := SearchRow(id, id, "", version, true, true)]
            && after.matches == t.matches && after.outbox == t.outbox
  {
    var saved := Exec(t, SaveCall(Named(id, version)));
    assert saved.searches == t.searches[id := SearchRow(id, id, "", version, true, false)];
    assert MatchesFor(id, version, []) == {};
  }

  /** A primed search alerts on a new listing whose event id is free. */
  lemma FirstAlert(t: Tables, id: string, c: string, at: int)
    requires id in t.searches && SavedValid(SavedFromRow(id, t.searches[id])) && !IsBlank(c)
    requires t.searches[id].enabled && t.searches[id].primed && t.outbox == [] && t.matches == {}
    ensures var row, after := t.searches[id], Exec(t, EvaluateCall(id, [c], at));
            && after.searches == t.searches && after.matches == {Match(id, row.version, c)}
            && after.outbox == [EventFor(id, row.version, row.ownerId, c, at)]
  {
    var row := t.searches[id];
    var m0 := Marked(t.matches, t.outbox, []);
    assert [c][..0] == [] && MarkAll(m0, id, row.version, row.ownerId, [], at) == Ok(m0);
    assert MarkAll(m0, id, row.version, row.ownerId, [c], at) == MarkOne(m0, id, row.version, row.ownerId, c, at);
  }

  lemma PrimedRun(steps: seq<Step>, t: Tables, id: string, version: nat, at: int)
    requires Run(steps) == t && !IsBlank(id) && version > 0 && id !in t.searches
    ensures var after := Run(steps + [SaveCall(Named(id, version))] + [EvaluateCall(id, [], at)]);
            && after.searches == t.searches[id := SearchRow(id, id, "", version, true, true)]
            && after.matches == t.matches && after.outbox == t.outbox
  {
    RunGrows(steps, SaveCall(Named(id, version)));
    RunGrows(steps + [SaveCall(Named(id, version))], EvaluateCall(id, [], at));
    SavedAndPrimed(t, id, version, at);
  }

  /** Whenever two searches' alerts would share an event id, this run makes the second evaluation fail. */
  lemma CollisionIsReachable(id1: string, v1: nat, c1: string, id2: string, v2: nat, c2: string,
                             at: int)
    requires !IsBlank(id1) && !IsBlank(id2) && id1 != id2 && v1 > 0 && v2 > 0 && !IsBlank(c1) && !IsBlank(c2)
    requires EventText(id1, v1, c1) == EventText(id2, v2, c2)
    ensures EvaluateStep(Run(TwoSearches(id1, v1, c1, id2, v2)), id2, [c2], at) == Err(IntegrityViolation)
  {
    var primed := [] + [SaveCall(Named(id1, v1))] + [EvaluateCall(id1, [], 0)];
    PrimedRun([], EMPTY_TABLES, id1, v1, 0);
    var alerted := primed + [EvaluateCall(id1, [c1], 1)];
    RunGrows(primed, EvaluateCall(id1, [c1], 1));
    FirstAlert(Run(primed), id1, c1, 1);
    PrimedRun(alerted, Run(alerted), id2, v2, 2);
    SecondBlocked(Run(TwoSearches(id1, v1, c1, id2, v2)), id1, v1, c1, id2, v2, c2, at);
  }

  lemma SecondBlocked(t: Tables, id1: string, v1: nat, c1: string, id2: string, v2: nat, c2: string, at: int)
    requires !IsBlank(id1) && !IsBlank(id2) && id1 != id2 && v1 > 0 && v2 > 0 && !IsBlank(c2)
    requires t.searches == map[id1 := SearchRow(id1, id1, "", v1, true, true),
                               id2 := SearchRow(id2, id2, "", v2, true, true)]
    requires t.matches == {Match(id1, v1, c1)} && t.outbox == [EventFor(id1, v1, id1, c1, 1)]
    requires EventText(id1, v1, c1) == EventText(id2, v2, c2)
    ensures EvaluateStep(t, id2, [c2], at) == Err(IntegrityViolation)
  {
    assert t.outbox[0] in t.outbox;
    CollisionBlocksAlert(t, id2, c2, at);
  }

  /** One such run: searches `a|1` and `a`, listings `x` and `2|x`. */
  lemma CollisionHappens(at: int)
    ensures EvaluateStep(Run(TwoSearches("a|1", 2, "x", "a", 1)), "a", ["2|x"], at) == Err(IntegrityViolation)
  {
    EventTextCollides();
    StartsSolid("a|1");
    StartsSolid("a");
    StartsSolid("x");
    StartsSolid("2|x");
    CollisionIsReachable("a|1", 2, "x", "a", 1, "2|x", at);
  }

  /** Canonical ids made from fingerprints without a bar are clean, so the inventory's own ids never collide. */
  lemma CanonicalIdIsClean(fingerprint: string)
    requires '|' !in fingerprint
    ensures CleanIds([Inventory.CanonicalId(fingerprint)])
  {
    var c := Inventory.CanonicalId(fingerprint);
    assert c[0] == 'C';
    StartsSolid(c);
  }
}
