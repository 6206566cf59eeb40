/**
 Baselines and markings called directly, with a copy of a saved search that may be stale: when they keep the tables
 true to the history, and what happens when they do not.
 */
module StaleSearches {
  import opened Wrappers
  import opened Text
  import opened Alerts
  import opened SampleSearches

  lemma EvaluatedBeforeKept(history: seq<Evaluation>, h: Evaluation, n: nat, id: string, version: nat)
    requires n <= |history|
    ensures EvaluatedBefore(history + [h], n, id, version) <==> EvaluatedBefore(history, n, id, version)
  {
    HistoryGrows(history, h);
  }

  /** A baseline with any copy: accepted for listings that are named and searches that are stored, and silent. */
  lemma BaselineExactly(t: Tables, saved: SavedSearch, ids: seq<string>)
    requires SavedValid(saved)
    ensures var r, id := BaselineStep(t, saved, ids), saved.savedSearchId;
            && (r.Ok? <==> (forall c :: c in ids ==> !IsBlank(c)) && (id in t.searches || ids == []))
            && (r.Ok? ==>
                  && r.value.outbox == t.outbox
                  && r.value.searches == (if id in t.searches then t.searches[id := t.searches[id].(primed := true)]
                                          else t.searches)
                  && forall m :: m in r.value.matches <==>
                       m in t.matches || (m.savedSearchId == id && m.version == saved.version && m.canonicalId in ids))
            && (r.Err? ==>
                  || (r.error == BlankCanonicalId && exists c :: c in ids && IsBlank(c))
                  || (r.error == IntegrityViolation && id !in t.searches && !IsBlank(ids[0])))
  {
    if ids != [] { assert ids[0] in ids; }
  }

  /** A search that does not hold together is refused before anything else is looked at. */
  lemma InvalidIsRefused(t: Tables, saved: SavedSearch, ids: seq<string>, at: int)
    requires !SavedValid(saved)
    ensures BaselineStep(t, saved, ids) == Err(InvalidSearch) && MarkStep(t, saved, ids, at) == Err(InvalidSearch)
  {
  }

  /** A marking with any copy: for a primed search, at the copy's version and to the copy's owner. */
  lemma MarkExactly(t: Tables, saved: SavedSearch, ids: seq<string>, at: int)
    requires SavedValid(saved)
    ensures var r, id := MarkStep(t, saved, ids, at), saved.savedSearchId;
            && (r.Ok? <==>
                  && id in t.searches && t.searches[id].primed
                  && forall c :: c in ids ==>
                       && !IsBlank(c)
                       && (|| Match(id, saved.version, c) in t.matches
                           || forall e :: e in t.outbox ==> e.eventId != EventText(id, saved.version, c)))
            && (r.Ok? ==>
                  && r.value.0.searches == t.searches && r.value.0.outbox == t.outbox + r.value.1
                  && (forall m :: m in r.value.0.matches <==>
                        m in t.matches || (m.savedSearchId == id && m.version == saved.version && m.canonicalId in ids))
                  && forall e :: e in r.value.1 <==>
                       && e.canonicalId in ids && Match(id, saved.version, e.canonicalId) !in t.matches
                       && e == AlertEvent(EventText(id, saved.version, e.canonicalId), id, saved.version, e.canonicalId,
                                          saved.ownerId, at))
            && (id !in t.searches ==> r == Err(UnknownSearch))
            && (id in t.searches && !t.searches[id].primed ==> r == Err(NotPrimed))
  {
    var m0 := Marked(t.matches, t.outbox, []);
    MarkAllAcceptedExactly(m0, saved.savedSearchId, saved.version, saved.ownerId, ids, at);
    if MarkStep(t, saved, ids, at).Ok? {
      MarkAllExactly(m0, saved.savedSearchId, saved.version, saved.ownerId, ids, at);
    }
  }

  /** A sound history after one more evaluation shows how that evaluation fits. */
  lemma LastEvaluationFits(t: Tables, h: Evaluation, searches: map<string, SearchRow>)
    requires HistorySound(searches, t.history + [h])
    ensures h.savedSearchId in searches && h.version <= searches[h.savedSearchId].version
    ensures h.baseline <==> !EvaluatedBefore(t.history, |t.history|, h.savedSearchId, h.version)
  {
    var next, n := t.history + [h], |t.history|;
    assert next[n] == h && h in next;
    EvaluatedBeforeKept(t.history, h, n, h.savedSearchId, h.version);
  }

  /** The primed flag a sound baseline leaves was earned before, or by this very baseline. */
  lemma PrimedWasEarned(t: Tables, id: string, version: nat, ids: seq<string>)
    requires Sound(t) && id in t.searches && Sound(BaselineAt(t, id, version, ids))
    ensures t.searches[id].primed || version == t.searches[id].version
  {
    var h, row := Evaluation(id, version, ids, true), t.searches[id];
    var after := BaselineAt(t, id, version, ids);
    HistoryGrows(t.history, h);
    assert after.searches[id].primed && after.searches[id].version == row.version;
    assert EvaluatedBefore(after.history, |after.history|, id, row.version);
    assert EvaluatedBefore(t.history, |t.history|, id, row.version) || Same(h, id, row.version);
  }

  /**
   establish_baseline with any copy of a stored search keeps the tables true to the history exactly if the copy's
   version was never evaluated and is the stored one, or an older one while the stored one is primed. For a search
   still to be primed that is: exactly if the versions agree.
   */
  lemma BaselineSoundExactly(t: Tables, saved: SavedSearch, ids: seq<string>)
    requires Sound(t) && saved.savedSearchId in t.searches && BaselineStep(t, saved, ids).Ok?
    ensures Sound(BaselineStep(t, saved, ids).value) <==> BaselineFits(t, saved.savedSearchId, saved.version)
    ensures !t.searches[saved.savedSearchId].primed ==>
              (BaselineFits(t, saved.savedSearchId, saved.version)
               <==> saved.version == t.searches[saved.savedSearchId].version)
  {
    var id, version := saved.savedSearchId, saved.version;
    var after := BaselineAt(t, id, version, ids);
    if BaselineFits(t, id, version) { BaselineKeepsSound(t, id, version, ids); }
    if Sound(after) {
      LastEvaluationFits(t, Evaluation(id, version, ids, true), after.searches);
      PrimedWasEarned(t, id, version, ids);
    }
  }

  /** mark_matches with any copy keeps them true exactly if the copy's version was evaluated before. */
  lemma MarkSoundExactly(t: Tables, saved: SavedSearch, ids: seq<string>, at: int)
    requires Sound(t) && MarkStep(t, saved, ids, at).Ok?
    ensures Sound(MarkStep(t, saved, ids, at).value.0) <==>
            EvaluatedBefore(t.history, |t.history|, saved.savedSearchId, saved.version)
  {
    if EvaluatedBefore(t.history, |t.history|, saved.savedSearchId, saved.version) {
      MarkKeepsSound(t, saved, ids, at);
    }
    var after := MarkStep(t, saved, ids, at).value.0;
    if Sound(after) {
      LastEvaluationFits(t, Evaluation(saved.savedSearchId, saved.version, ids, false), after.searches);
    }
  }

  /** With the stored copy both hold, so evaluate is safe. */
  lemma StoredCopyFits(t: Tables, id: string)
    requires Sound(t) && id in t.searches
    ensures !t.searches[id].primed ==> BaselineFits(t, id, t.searches[id].version)
    ensures t.searches[id].primed ==> EvaluatedBefore(t.history, |t.history|, id, t.searches[id].version)
  {
  }

  /**
   A baseline with a stale copy primes the new version without recording anything at it, so the next evaluation
   alerts on every current match.
   */
  lemma StaleBaselineAlertsAll(t: Tables, stale: SavedSearch, before: seq<string>, current: seq<string>, at: int,
                               c: string)
    requires Sound(t) && stale.savedSearchId in t.searches && BaselineStep(t, stale, before).Ok?
    requires var row := t.searches[stale.savedSearchId]; row.enabled && !row.primed && stale.version != row.version
    requires EvaluateStep(BaselineStep(t, stale, before).value, stale.savedSearchId, current, at).Ok? && c in current
    ensures var row := t.searches[stale.savedSearchId];
            EventFor(stale.savedSearchId, row.version, row.ownerId, c, at)
            in EvaluateStep(BaselineStep(t, stale, before).value, stale.savedSearchId, current, at).value.1
  {
    var id, row := stale.savedSearchId, t.searches[stale.savedSearchId];
    var after := BaselineAt(t, id, stale.version, before);
    NoMatchesYet(t, id, c);
    assert Match(id, row.version, c) !in after.matches;
    MarkAllExactly(Marked(after.matches, after.outbox, []), id, row.version, row.ownerId, current, at);
  }

  /** A search saved at version 1 and then saved again asking something else. */
  function EditedSearch(id: string, criteria: string): seq<Step> {
    [SaveCall(Named(id, 1)), SaveCall(Asking(id, 1, criteria))]
  }

  /** After the edit it is at version 2 and to be primed again. */
  lemma EditedIsUnprimed(id: string, criteria: string)
    requires !IsBlank(id) && criteria != ""
    ensures var t := Run(EditedSearch(id, criteria));
            t == EMPTY_TABLES.(searches := map[id := SearchRow(id, id, criteria, 2, true, false)])
  {
    var steps := EditedSearch(id, criteria);
    RunGrows([], steps[0]);
    RunGrows([steps[0]], steps[1]);
    assert [] + [steps[0]] == [steps[0]] && [steps[0]] + [steps[1]] == steps;
  }

  /** That a stale baseline alerts on everything does happen: baseline with the first version's copy, then evaluate. */
  lemma StaleBaselineHappens(id: string, criteria: string, c: string, at: int)
    requires !IsBlank(id) && criteria != "" && !IsBlank(c)
    ensures var t := Run(EditedSearch(id, criteria));
            var baselined := BaselineStep(t, Named(id, 1), [c]);
            && baselined.Ok? && EvaluateStep(baselined.value, id, [c], at).Ok?
            && EvaluateStep(baselined.value, id, [c], at).value.1 == [EventFor(id, 2, id, c, at)]
  {
    EditedIsUnprimed(id, criteria);
    var t := Run(EditedSearch(id, criteria));
    var after := BaselineAt(t, id, 1, [c]);
    var m0 := Marked(after.matches, after.outbox, []);
    assert [c][..0] == [] && MarkAll(m0, id, 2, id, [], at) == Ok(m0);
    assert MarkAll(m0, id, 2, id, [c], at) == MarkOne(m0, id, 2, id, c, at);
    assert [] + [EventFor(id, 2, id, c, at)] == [EventFor(id, 2, id, c, at)];
  }
}
