/** Saved searches and the alert outbox: a newly matching listing is recorded once per query version. */
module Alerts {
  import opened Wrappers
  import opened Text
  import opened Decimal
  import Search

  const DEFAULT_PAGE_SIZE := 20

  datatype SavedSearch = SavedSearch(
    savedSearchId: string, ownerId: string, name: string, query: Search.Query, enabled: bool, version: int)

  predicate SavedValid(s: SavedSearch) {
    && !IsBlank(s.savedSearchId) && !IsBlank(s.ownerId) && !IsBlank(s.name)
    && s.version > 0 && s.query.cursor.None? && 1 <= s.query.pageSize <= 100
  }

  datatype AlertEvent = AlertEvent(
    eventId: string, savedSearchId: string, version: nat, canonicalId: string, ownerId: string, createdAt: int)

  /** A row of saved_searches. The query fingerprint, a collision-free digest, is the criteria themselves. */
  datatype SearchRow = SearchRow(ownerId: string, name: string, criteria: string, version: nat, enabled: bool,
                                 primed: bool)

  /** A stored search as it is read back: its criteria are stored, page size and cursor are not. */
  function SavedFromRow(id: string, row: SearchRow): SavedSearch {
    SavedSearch(id, row.ownerId, row.name, Search.Query(row.criteria, DEFAULT_PAGE_SIZE, None), row.enabled,
      row.version)
  }

  datatype AlertError = InvalidSearch | UnknownSearch | NotPrimed | BlankCanonicalId | IntegrityViolation

  datatype Match = Match(savedSearchId: string, version: nat, canonicalId: string)

  /** One completed evaluation of a search: what matched, and whether it was the silent baseline. */
  datatype Evaluation = Evaluation(savedSearchId: string, version: nat, ids: seq<string>, baseline: bool)

  // ------------------------------------------------------------------------
  // Event ids

  /** The text under the digest of an alert's event id; the digest is taken as collision free. */
  function EventText(id: string, version: nat, canonicalId: string): string {
    id + "|" + Numeral(version) + "|" + canonicalId
  }

  lemma LastBarPosition(a: string, b: string, c: string, d: string)
    requires a + "|" + b == c + "|" + d && '|' !in b
    ensures |c| <= |a|
  {
    var s, t := a + "|" + b, c + "|" + d;
    assert t[|c|] == '|';
    assert forall i :: 0 <= i < |b| ==> s[|a| + 1 + i] == b[i];
  }

  /** Text after the last bar, and text before it, are determined by the whole. */
  lemma LastBar(a: string, b: string, c: string, d: string)
    requires a + "|" + b == c + "|" + d && '|' !in b && '|' !in d
    ensures a == c && b == d
  {
    LastBarPosition(a, b, c, d);
    LastBarPosition(c, d, a, b);
    var s, t := a + "|" + b, c + "|" + d;
    assert a == s[..|a|] && c == t[..|c|];
    assert b == s[|a| + 1..] && d == t[|c| + 1..];
  }

  /** Event ids are distinct as long as canonical ids contain no '|'. */
  lemma EventTextInjective(id: string, v: nat, c: string, id': string, v': nat, c': string)
    requires '|' !in c && '|' !in c' && EventText(id, v, c) == EventText(id', v', c')
    ensures id == id' && v == v' && c == c'
  {
    assert '|' !in Numeral(v) && '|' !in Numeral(v') by { assert !IsDigit('|'); }
    LastBar(id + "|" + Numeral(v), c, id' + "|" + Numeral(v'), c');
    LastBar(id, Numeral(v), id', Numeral(v'));
    NumeralInjective(v, v');
  }

  /** Otherwise two different alerts can share one. */
  lemma EventTextCollides()
    ensures EventText("a|1", 2, "x") == EventText("a", 1, "2|x")
  {
    assert Numeral(1) == "1" && Numeral(2) == "2";
  }

  // ------------------------------------------------------------------------
  // The tables, and the calls on them as functions

  /** The three tables, with the log of evaluations that the proofs follow. */
  datatype Tables = Tables(searches: map<string, SearchRow>, matches: set<Match>, outbox: seq<AlertEvent>,
                           history: seq<Evaluation>)

  const EMPTY_TABLES := Tables(map[], {}, [], [])

  function RowFor(t: Tables, s: SavedSearch): SearchRow
    requires s.version > 0
  {
    if s.savedSearchId !in t.searches
    then SearchRow(s.ownerId, s.name, s.query.criteria, s.version, s.enabled, false) else
    var existing := t.searches[s.savedSearchId];
    var changed := s.query.criteria != existing.criteria;
    SearchRow(s.ownerId, s.name, s.query.criteria, if changed then existing.version + 1 else existing.version,
              s.enabled, !changed && existing.primed)
  }

  /** save: a materially edited query gets the next version and must be primed again. */
  function SaveStep(t: Tables, s: SavedSearch): Result<(Tables, SavedSearch), AlertError> {
    if !SavedValid(s) then Err(InvalidSearch) else
    var row := RowFor(t, s);
    Ok((t.(searches := t.searches[s.savedSearchId := row]), s.(version := row.version)))
  }

  /** What a marking transaction has written so far. */
  datatype Marked = Marked(matches: set<Match>, outbox: seq<AlertEvent>, created: seq<AlertEvent>)

  function HasEventId(outbox: seq<AlertEvent>, id: string): bool {
    exists e :: e in outbox && e.eventId == id
  }

  function EventFor(id: string, version: nat, owner: string, c: string, at: int): AlertEvent {
    AlertEvent(EventText(id, version, c), id, version, c, owner, at)
  }

  function MarkOne(m: Marked, id: string, version: nat, owner: string, c: string, at: int): Result<Marked, AlertError> {
    if IsBlank(c) then Err(BlankCanonicalId)
    else if Match(id, version, c) in m.matches then Ok(m)
    else if HasEventId(m.outbox, EventText(id, version, c)) then Err(IntegrityViolation)
    else
      var e := EventFor(id, version, owner, c, at);
      Ok(Marked(m.matches + {Match(id, version, c)}, m.outbox + [e], m.created + [e]))
  }

  /** The loop of mark_matches over all ids. */
  function MarkAll(m: Marked, id: string, version: nat, owner: string, ids: seq<string>, at: int)
    : Result<Marked, AlertError>
  {
    if ids == [] then Ok(m) else
    match MarkAll(m, id, version, owner, ids[..|ids| - 1], at)
    case Err(e) => Err(e)
    case Ok(before) => MarkOne(before, id, version, owner, ids[|ids| - 1], at)
  }

  function MatchesFor(id: string, version: nat, ids: seq<string>): set<Match> {
    set c | c in ids :: Match(id, version, c)
  }

  lemma MatchesGrow(id: string, version: nat, ids: seq<string>, c: string)
    ensures MatchesFor(id, version, ids + [c]) == MatchesFor(id, version, ids) + {Match(id, version, c)}
    ensures AnyBlank(ids + [c]) <==> AnyBlank(ids) || IsBlank(c)
  {
    assert forall x :: x in ids + [c] <==> x in ids || x == c;
    if AnyBlank(ids) {
      var x :| x in ids && IsBlank(x);
      assert x in ids + [c];
    }
  }

  predicate AnyBlank(ids: seq<string>) {
    exists c :: c in ids && IsBlank(c)
  }

  /**
   establish_baseline, given any copy of a search: the version it records is the copy's, the row it primes is the one
   stored. Matches refer to stored searches, so an unknown search refuses the first id.
   */
  function BaselineStep(t: Tables, saved: SavedSearch, ids: seq<string>): Result<Tables, AlertError> {
    var id := saved.savedSearchId;
    if !SavedValid(saved) then Err(InvalidSearch)
    else if id !in t.searches then
      if ids == [] then Ok(t) else Err(if IsBlank(ids[0]) then BlankCanonicalId else IntegrityViolation)
    else if AnyBlank(ids) then Err(BlankCanonicalId)
    else Ok(BaselineAt(t, id, saved.version, ids))
  }

  function BaselineAt(t: Tables, id: string, version: nat, ids: seq<string>): Tables
    requires id in t.searches
  {
    Tables(t.searches[id := t.searches[id].(primed := true)], t.matches + MatchesFor(id, version, ids), t.outbox,
           t.history + [Evaluation(id, version, ids, true)])
  }

  /** mark_matches, given any copy of a search: version and owner are the copy's, enabled or not. */
  function MarkStep(t: Tables, saved: SavedSearch, ids: seq<string>, at: int)
    : Result<(Tables, seq<AlertEvent>), AlertError>
  {
    var id := saved.savedSearchId;
    if !SavedValid(saved) then Err(InvalidSearch)
    else if id !in t.searches then Err(UnknownSearch)
    else if !t.searches[id].primed then Err(NotPrimed)
    else
      match MarkAll(Marked(t.matches, t.outbox, []), id, saved.version, saved.ownerId, ids, at)
      case Err(e) => Err(e)
      case Ok(m) => Ok((MarkedAt(t, id, saved.version, ids, m), m.created))
  }

  function MarkedAt(t: Tables, id: string, version: nat, ids: seq<string>, m: Marked): Tables {
    Tables(t.searches, m.matches, m.outbox, t.history + [Evaluation(id, version, ids, false)])
  }

  /** evaluate, once the search service has answered with the matching ids. */
  function EvaluateStep(t: Tables, id: string, ids: seq<string>, at: int)
    : Result<(Tables, seq<AlertEvent>), AlertError>
  {
    if id !in t.searches then Err(UnknownSearch) else
    var row := t.searches[id];
    if !row.enabled then Ok((t, []))
    else if row.primed then MarkStep(t, SavedFromRow(id, row), ids, at)
    else
      match BaselineStep(t, SavedFromRow(id, row), ids)
      case Err(e) => Err(e)
      case Ok(baselined) => Ok((baselined, []))
  }

  datatype Step = SaveCall(saved: SavedSearch) | EvaluateCall(id: string, ids: seq<string>, at: int)

  /** A failing call is rolled back. */
  function Exec(t: Tables, step: Step): Tables {
    match step
    case SaveCall(s) => (match SaveStep(t, s) case Ok(r) => r.0 case Err(_) => t)
    case EvaluateCall(id, ids, at) => (match EvaluateStep(t, id, ids, at) case Ok(r) => r.0 case Err(_) => t)
  }

  function Run(steps: seq<Step>): Tables {
    if steps == [] then EMPTY_TABLES else Exec(Run(steps[..|steps| - 1]), steps[|steps| - 1])
  }

  // ------------------------------------------------------------------------
  // What the evaluation log says should have been alerted

  predicate Same(h: Evaluation, id: string, version: nat) {
    h.savedSearchId == id && h.version == version
  }

  ghost predicate EvaluatedBefore(history: seq<Evaluation>, n: nat, id: string, version: nat)
    requires n <= |history|
  {
    exists j :: 0 <= j < n && Same(history[j], id, version)
  }

  /** The listing was among the matches of an earlier evaluation of this version. */
  ghost predicate SeenBefore(history: seq<Evaluation>, n: nat, m: Match)
    requires n <= |history|
  {
    exists j :: 0 <= j < n && Same(history[j], m.savedSearchId, m.version) && m.canonicalId in history[j].ids
  }

  /** Evaluation k is one that must alert on m: not the baseline, m matches, and m matched in no earlier one. */
  ghost predicate AlertsAt(history: seq<Evaluation>, k: nat, m: Match)
    requires k < |history|
  {
    && Same(history[k], m.savedSearchId, m.version) && !history[k].baseline
    && m.canonicalId in history[k].ids && !SeenBefore(history, k, m)
  }

  ghost predicate ShouldAlert(history: seq<Evaluation>, m: Match) {
    exists k :: 0 <= k < |history| && AlertsAt(history, k, m)
  }

  function MatchOf(e: AlertEvent): Match {
    Match(e.savedSearchId, e.version, e.canonicalId)
  }

  ghost predicate HasAlert(outbox: seq<AlertEvent>, m: Match) {
    exists e :: e in outbox && MatchOf(e) == m
  }

  ghost predicate OutboxExact(outbox: seq<AlertEvent>, history: seq<Evaluation>) {
    && (forall m :: HasAlert(outbox, m) <==> ShouldAlert(history, m))
    && (forall i, j :: 0 <= i < j < |outbox| ==> MatchOf(outbox[i]) != MatchOf(outbox[j]))
    && (forall e :: e in outbox ==> e.eventId == EventText(e.savedSearchId, e.version, e.canonicalId))
  }

  ghost predicate HistorySound(searches: map<string, SearchRow>, history: seq<Evaluation>) {
    && (forall h :: h in history ==> h.savedSearchId in searches && h.version <= searches[h.savedSearchId].version)
    && (forall id :: id in searches ==>
          (searches[id].primed <==> EvaluatedBefore(history, |history|, id, searches[id].version)))
    && (forall k :: 0 <= k < |history| ==>
          (history[k].baseline <==> !EvaluatedBefore(history, k, history[k].savedSearchId, history[k].version)))
  }

  /** Every stored search is one that save accepted. */
  ghost predicate RowsValid(t: Tables) {
    forall id :: id in t.searches ==> SavedValid(SavedFromRow(id, t.searches[id]))
  }

  ghost predicate Sound(t: Tables) {
    && RowsValid(t)
    && (forall m :: m in t.matches <==> SeenBefore(t.history, |t.history|, m))
    && HistorySound(t.searches, t.history)
    && OutboxExact(t.outbox, t.history)
  }

  lemma HistoryGrows(history: seq<Evaluation>, h: Evaluation)
    ensures var next := history + [h];
            && (forall m :: SeenBefore(next, |next|, m) <==>
                            SeenBefore(history, |history|, m) || (Same(h, m.savedSearchId, m.version) &&
                              m.canonicalId in h.ids))
            && (forall id, v :: EvaluatedBefore(next, |next|, id, v) <==>
                                EvaluatedBefore(history, |history|, id, v) || Same(h, id, v))
            && (forall n, m :: 0 <= n <= |history| ==> (SeenBefore(next, n, m) <==> SeenBefore(history, n, m)))
            && (forall n, id, v :: 0 <= n <= |history| ==> (EvaluatedBefore(next, n, id, v) <==>
                  EvaluatedBefore(history, n, id, v)))
  {
    var next := history + [h];
    forall m ensures SeenBefore(next, |next|, m) <==>
                     SeenBefore(history, |history|, m) || (Same(h, m.savedSearchId, m.version) &&
                       m.canonicalId in h.ids)
    {
      if SeenBefore(history, |history|, m) {
        var j :| 0 <= j < |history| && Same(history[j], m.savedSearchId, m.version) && m.canonicalId in history[j].ids;
        assert next[j] == history[j];
      }
      if Same(h, m.savedSearchId, m.version) && m.canonicalId in h.ids { assert next[|history|] == h; }
    }
    forall id, v
      ensures EvaluatedBefore(next, |next|, id, v) <==> EvaluatedBefore(history, |history|, id, v) || Same(h, id, v)
    {
      if EvaluatedBefore(history, |history|, id, v) {
        var j :| 0 <= j < |history| && Same(history[j], id, v);
        assert next[j] == history[j];
      }
      if Same(h, id, v) { assert next[|history|] == h; }
    }
    forall n, m | 0 <= n <= |history| ensures SeenBefore(next, n, m) <==> SeenBefore(history, n, m) {
      assert forall j :: 0 <= j < n ==> next[j] == history[j];
    }
    forall n, id, v | 0 <= n <= |history|
      ensures EvaluatedBefore(next, n, id, v) <==> EvaluatedBefore(history, n, id, v)
    {
      assert forall j :: 0 <= j < n ==> next[j] == history[j];
    }
  }

  lemma AlertsGrow(history: seq<Evaluation>, h: Evaluation, m: Match)
    ensures ShouldAlert(history + [h], m) <==>
            || ShouldAlert(history, m)
            || (Same(h, m.savedSearchId, m.version) && !h.baseline && m.canonicalId in h.ids
                && !SeenBefore(history, |history|, m))
  {
    var next := history + [h];
    HistoryGrows(history, h);
    if ShouldAlert(history, m) {
      var k :| 0 <= k < |history| && AlertsAt(history, k, m);
      assert AlertsAt(next, k, m);
    }
    if ShouldAlert(next, m) {
      var k :| 0 <= k < |next| && AlertsAt(next, k, m);
      if k < |history| { assert AlertsAt(history, k, m); }
    }
    if Same(h, m.savedSearchId, m.version) && !h.baseline && m.canonicalId in h.ids
       && !SeenBefore(history, |history|, m) {
      assert AlertsAt(next, |history|, m);
    }
  }

  // ------------------------------------------------------------------------
  // What a marking transaction writes

  lemma OneMoreListing(created: seq<AlertEvent>, e: AlertEvent)
    requires forall i, j :: 0 <= i < j < |created| ==> created[i].canonicalId != created[j].canonicalId
    requires forall x :: x in created ==> x.canonicalId != e.canonicalId
    ensures var next := created + [e];
            forall i, j :: 0 <= i < j < |next| ==> next[i].canonicalId != next[j].canonicalId
  {
  }

  /** What marking the ids made of m0: all matches, and one event for each id not matched before. */
  ghost predicate Marks(m0: Marked, m: Marked, id: string, version: nat, owner: string, ids: seq<string>, at: int) {
    && m.matches == m0.matches + MatchesFor(id, version, ids)
    && m.outbox == m0.outbox + m.created
    && (forall e :: e in m.created <==>
          e.canonicalId in ids && e == EventFor(id, version, owner, e.canonicalId, at)
          && Match(id, version, e.canonicalId) !in m0.matches)
    && (forall i, j :: 0 <= i < j < |m.created| ==> m.created[i].canonicalId != m.created[j].canonicalId)
    && !AnyBlank(ids)
  }

  lemma MarkKnown(m0: Marked, m: Marked, id: string, version: nat, owner: string, ids: seq<string>, at: int, c: string)
    requires Marks(m0, m, id, version, owner, ids, at) && !IsBlank(c) && Match(id, version, c) in m.matches
    ensures Marks(m0, m, id, version, owner, ids + [c], at)
  {
    MatchesGrow(id, version, ids, c);
  }

  lemma MarkNew(m0: Marked, m: Marked, id: string, version: nat, owner: string, ids: seq<string>, at: int, c: string)
    requires Marks(m0, m, id, version, owner, ids, at) && !IsBlank(c) && Match(id, version, c) !in m.matches
    ensures var e := EventFor(id, version, owner, c, at);
            Marks(m0, Marked(m.matches + {Match(id, version, c)}, m.outbox + [e], m.created + [e]),
                  id, version, owner, ids + [c], at)
  {
    var e := EventFor(id, version, owner, c, at);
    MatchesGrow(id, version, ids, c);
    ConcatAssociative(m0.outbox, m.created, [e]);
    OneMoreListing(m.created, e);
  }

  lemma {:induction false} MarkAllExactly(m0: Marked, id: string, version: nat, owner: string, ids: seq<string>,
                                          at: int)
    requires m0.created == [] && MarkAll(m0, id, version, owner, ids, at).Ok?
    ensures Marks(m0, MarkAll(m0, id, version, owner, ids, at).value, id, version, owner, ids, at)
  {
    if ids == [] {
    } else {
      var init, c := ids[..|ids| - 1], ids[|ids| - 1];
      MarkAllExactly(m0, id, version, owner, init, at);
      var before := MarkAll(m0, id, version, owner, init, at).value;
      assert ids == init + [c];
      if Match(id, version, c) in before.matches {
        MarkKnown(m0, before, id, version, owner, init, at, c);
      } else {
        MarkNew(m0, before, id, version, owner, init, at, c);
      }
    }
  }

  /** Canonical ids come from the inventory: never blank, and free of the separator. */
  ghost predicate CleanIds(ids: seq<string>) {
    forall c :: c in ids ==> !IsBlank(c) && '|' !in c
  }

  /** With clean ids, marking cannot fail. */
  lemma {:induction false} MarkAllSucceeds(m0: Marked, id: string, version: nat, owner: string, ids: seq<string>,
                                           at: int)
    requires m0.created == [] && CleanIds(ids)
    requires forall e :: e in m0.outbox ==> e.eventId == EventText(e.savedSearchId, e.version, e.canonicalId)
                                            && '|' !in e.canonicalId && MatchOf(e) in m0.matches
    ensures MarkAll(m0, id, version, owner, ids, at).Ok?
  {
    if ids == [] {
    } else {
      var init, c := ids[..|ids| - 1], ids[|ids| - 1];
      MarkAllSucceeds(m0, id, version, owner, init, at);
      MarkAllExactly(m0, id, version, owner, init, at);
      var before := MarkAll(m0, id, version, owner, init, at).value;
      forall e | e in before.outbox && e.eventId == EventText(id, version, c)
        ensures Match(id, version, c) in before.matches
      {
        if e in m0.outbox {
          EventTextInjective(e.savedSearchId, e.version, e.canonicalId, id, version, c);
        } else {
          assert e in before.created;
          EventTextInjective(id, version, e.canonicalId, id, version, c);
        }
      }
    }
  }

  // ------------------------------------------------------------------------
  // Every call keeps the outbox exact

  /**
   What saving leaves: the row says what the saved search says; its version and primed flag follow the stored row
   while the criteria do not change, and a change raises the version and asks for a new baseline.
   */
  lemma SaveExactly(t: Tables, s: SavedSearch)
    ensures SaveStep(t, s).Ok? <==>
            && !IsBlank(s.savedSearchId) && !IsBlank(s.ownerId) && !IsBlank(s.name) && s.version > 0
            && s.query.cursor == None && 1 <= s.query.pageSize <= 100
    ensures SaveStep(t, s).Err? ==> SaveStep(t, s).error == InvalidSearch
    ensures SaveStep(t, s).Ok? ==>
              var (after, saved) := SaveStep(t, s).value;
              && s.savedSearchId in after.searches && after.searches.Keys == t.searches.Keys + {s.savedSearchId}
              && (forall x :: x in t.searches && x != s.savedSearchId ==> after.searches[x] == t.searches[x])
              && after.matches == t.matches && after.outbox == t.outbox
              && var row := after.searches[s.savedSearchId];
                 && row.ownerId == s.ownerId && row.name == s.name && row.criteria == s.query.criteria
                 && row.enabled == s.enabled && saved == s.(version := row.version)
                 && if s.savedSearchId !in t.searches then row.version == s.version && !row.primed
                    else var stored := t.searches[s.savedSearchId];
                         if s.query.criteria == stored.criteria
                         then row.version == stored.version && row.primed == stored.primed
                         else row.version == stored.version + 1 && !row.primed
  {
  }

  /** What was saved is read back: the same search, asking the same, as the next version it may have become. */
  lemma SavedReadsBack(t: Tables, s: SavedSearch)
    requires SaveStep(t, s).Ok?
    ensures var (after, saved) := SaveStep(t, s).value;
            var read := SavedFromRow(s.savedSearchId, after.searches[s.savedSearchId]);
            && read.query.criteria == s.query.criteria && read.query.cursor == None
            && read.(query := s.query) == saved
  {
  }

  /** The event that tells an owner of a listing, and when. */
  predicate TellsOf(e: AlertEvent, id: string, row: SearchRow, at: int) {
    && e.savedSearchId == id && e.version == row.version && e.ownerId == row.ownerId && e.createdAt == at
    && e.eventId == EventText(id, row.version, e.canonicalId)
  }

  /** The search is primed, the ids recorded at its version, and the events appended that tell of the new ones. */
  ghost predicate EvaluatedTo(t: Tables, id: string, ids: seq<string>, at: int, after: Tables,
                              created: seq<AlertEvent>)
    requires id in t.searches
  {
    var row := t.searches[id];
    && after.searches == t.searches[id := row.(primed := true)] && after.outbox == t.outbox + created
    && (forall m :: m in after.matches <==>
          m in t.matches || (m.savedSearchId == id && m.version == row.version && m.canonicalId in ids))
    && (!row.primed ==> created == [])
    && (row.primed ==> forall e :: e in created <==>
          e.canonicalId in ids && Match(id, row.version, e.canonicalId) !in t.matches && TellsOf(e, id, row, at))
    && forall i, j :: 0 <= i < j < |created| ==> created[i].canonicalId != created[j].canonicalId
  }

  lemma FirstEvaluation(t: Tables, id: string, ids: seq<string>, at: int)
    requires id in t.searches && t.searches[id].enabled && !t.searches[id].primed
    ensures var r := EvaluateStep(t, id, ids, at); r.Ok? ==> EvaluatedTo(t, id, ids, at, r.value.0, r.value.1)
  {
    assert t.outbox + [] == t.outbox;
  }

  lemma LaterEvaluation(t: Tables, id: string, ids: seq<string>, at: int)
    requires id in t.searches && t.searches[id].enabled && t.searches[id].primed
    ensures var r := EvaluateStep(t, id, ids, at); r.Ok? ==> EvaluatedTo(t, id, ids, at, r.value.0, r.value.1)
  {
    var row, r := t.searches[id], EvaluateStep(t, id, ids, at);
    if r.Ok? {
      MarkAllExactly(Marked(t.matches, t.outbox, []), id, row.version, row.ownerId, ids, at);
      assert t.searches == t.searches[id := row.(primed := true)];
    }
  }

  /**
   What an accepted evaluation leaves. A disabled search is left alone. An enabled one is primed and all ids are
   recorded at its version; the first time no event is made, and then one for each id that was not recorded before.
   */
  lemma EvaluateExactly(t: Tables, id: string, ids: seq<string>, at: int)
    ensures var r := EvaluateStep(t, id, ids, at);
            && (id !in t.searches ==> r == Err(UnknownSearch))
            && (id in t.searches && !t.searches[id].enabled ==> r == Ok((t, [])))
            && (id in t.searches && t.searches[id].enabled && r.Ok? ==>
                  EvaluatedTo(t, id, ids, at, r.value.0, r.value.1))
  {
    if id in t.searches && t.searches[id].enabled {
      if t.searches[id].primed { LaterEvaluation(t, id, ids, at); } else { FirstEvaluation(t, id, ids, at); }
    }
  }

  /** When an evaluation of a sound store succeeds: no id is blank, and no new event's id is taken. */
  lemma EvaluateAcceptedExactly(t: Tables, id: string, ids: seq<string>, at: int)
    requires RowsValid(t) && id in t.searches && t.searches[id].enabled
    ensures EvaluateStep(t, id, ids, at).Ok? <==>
            forall c :: c in ids ==>
              && !IsBlank(c)
              && (t.searches[id].primed ==>
                    || Match(id, t.searches[id].version, c) in t.matches
                    || forall e :: e in t.outbox ==> e.eventId != EventText(id, t.searches[id].version, c))
  {
    var row := t.searches[id];
    assert SavedValid(SavedFromRow(id, row));
    if row.primed { MarkAllAcceptedExactly(Marked(t.matches, t.outbox, []), id, row.version, row.ownerId, ids, at); }
  }

  lemma SaveKeepsSound(t: Tables, s: SavedSearch)
    requires Sound(t) && SaveStep(t, s).Ok?
    ensures Sound(SaveStep(t, s).value.0)
  {
    SaveKeepsRows(t, s);
    SaveKeepsHistory(t, s);
  }

  lemma SaveKeepsRows(t: Tables, s: SavedSearch)
    requires RowsValid(t) && SavedValid(s)
    ensures RowsValid(t.(searches := t.searches[s.savedSearchId := RowFor(t, s)]))
  {
    if s.savedSearchId in t.searches { assert SavedValid(SavedFromRow(s.savedSearchId, t.searches[s.savedSearchId])); }
  }

  lemma SaveKeepsHistory(t: Tables, s: SavedSearch)
    requires HistorySound(t.searches, t.history) && SavedValid(s)
    ensures HistorySound(t.searches[s.savedSearchId := RowFor(t, s)], t.history)
  {
    var row, id := RowFor(t, s), s.savedSearchId;
    if id !in t.searches || row.version > t.searches[id].version {
      forall j | 0 <= j < |t.history| ensures !Same(t.history[j], id, row.version) {
        assert t.history[j] in t.history;
      }
    }
  }

  /** A baseline at this version fits the history: none was evaluated at it, and it is the row's, or an older one. */
  ghost predicate BaselineFits(t: Tables, id: string, version: nat)
    requires id in t.searches
  {
    && !EvaluatedBefore(t.history, |t.history|, id, version)
    && (version == t.searches[id].version || (version < t.searches[id].version && t.searches[id].primed))
  }

  lemma BaselineKeepsSound(t: Tables, id: string, version: nat, ids: seq<string>)
    requires Sound(t) && id in t.searches && BaselineFits(t, id, version)
    ensures Sound(BaselineAt(t, id, version, ids))
  {
    var h := Evaluation(id, version, ids, true);
    HistoryGrows(t.history, h);
    forall m ensures ShouldAlert(t.history + [h], m) <==> ShouldAlert(t.history, m) { AlertsGrow(t.history, h, m); }
    MatchesSeen(t, h, t.matches + MatchesFor(id, version, ids));
    BaselineHistory(t, h);
  }

  lemma BaselineHistory(t: Tables, h: Evaluation)
    requires HistorySound(t.searches, t.history) && h.savedSearchId in t.searches
    requires var row := t.searches[h.savedSearchId]; h.version == row.version || (h.version < row.version && row.primed)
    requires h.baseline <==> !EvaluatedBefore(t.history, |t.history|, h.savedSearchId, h.version)
    ensures HistorySound(t.searches[h.savedSearchId := t.searches[h.savedSearchId].(primed := true)], t.history + [h])
  {
    BaselinesGrow(t.history, h);
    PrimedGrow(t.searches, t.history, h);
  }

  lemma PrimedGrow(searches: map<string, SearchRow>, history: seq<Evaluation>, h: Evaluation)
    requires h.savedSearchId in searches
    requires h.version == searches[h.savedSearchId].version || searches[h.savedSearchId].primed
    requires forall id :: id in searches ==>
               (searches[id].primed <==> EvaluatedBefore(history, |history|, id, searches[id].version))
    ensures var rows, next := searches[h.savedSearchId := searches[h.savedSearchId].(primed := true)], history + [h];
            forall id :: id in rows ==> (rows[id].primed <==> EvaluatedBefore(next, |next|, id, rows[id].version))
  {
    HistoryGrows(history, h);
    var rows, next := searches[h.savedSearchId := searches[h.savedSearchId].(primed := true)], history + [h];
    forall id | id in rows ensures rows[id].primed <==> EvaluatedBefore(next, |next|, id, rows[id].version) {
      assert rows[id].version == searches[id].version;
    }
  }

  lemma BaselinesGrow(history: seq<Evaluation>, h: Evaluation)
    requires forall k :: 0 <= k < |history| ==>
               (history[k].baseline <==> !EvaluatedBefore(history, k, history[k].savedSearchId, history[k].version))
    requires h.baseline <==> !EvaluatedBefore(history, |history|, h.savedSearchId, h.version)
    ensures var next := history + [h];
            forall k :: 0 <= k < |next| ==>
              (next[k].baseline <==> !EvaluatedBefore(next, k, next[k].savedSearchId, next[k].version))
  {
    HistoryGrows(history, h);
    var next := history + [h];
    forall k | 0 <= k < |next|
      ensures next[k].baseline <==> !EvaluatedBefore(next, k, next[k].savedSearchId, next[k].version)
    {
      if k < |history| { assert next[k] == history[k]; } else { assert next[k] == h; }
    }
  }

  lemma MarkKeepsOutbox(t: Tables, id: string, version: nat, owner: string, ids: seq<string>, at: int)
    requires Sound(t) && MarkAll(Marked(t.matches, t.outbox, []), id, version, owner, ids, at).Ok?
    ensures var m := MarkAll(Marked(t.matches, t.outbox, []), id, version, owner, ids, at).value;
            OutboxExact(m.outbox, t.history + [Evaluation(id, version, ids, false)])
  {
    var h := Evaluation(id, version, ids, false);
    var r := MarkAll(Marked(t.matches, t.outbox, []), id, version, owner, ids, at).value;
    MarkAllExactly(Marked(t.matches, t.outbox, []), id, version, owner, ids, at);
    forall m ensures HasAlert(r.outbox, m) <==> ShouldAlert(t.history + [h], m) {
      AlertsGrow(t.history, h, m);
      assert HasAlert(t.outbox, m) <==> ShouldAlert(t.history, m);
      NewAlerts(t, id, version, owner, ids, at, r, m);
    }
    NewAlertsOnce(t, id, version, ids, r);
  }

  /** The events of one marking and the older ones are about different matches. */
  lemma NewAlertsOnce(t: Tables, id: string, version: nat, ids: seq<string>, r: Marked)
    requires Sound(t) && r.outbox == t.outbox + r.created
    requires forall e :: e in r.created ==>
               e.savedSearchId == id && e.version == version && Match(id, version, e.canonicalId) !in t.matches
    requires forall i, j :: 0 <= i < j < |r.created| ==> r.created[i].canonicalId != r.created[j].canonicalId
    ensures forall i, j :: 0 <= i < j < |r.outbox| ==> MatchOf(r.outbox[i]) != MatchOf(r.outbox[j])
  {
    forall i, j | 0 <= i < j < |r.outbox| ensures MatchOf(r.outbox[i]) != MatchOf(r.outbox[j]) {
      if j >= |t.outbox| {
        var e := r.created[j - |t.outbox|];
        assert e in r.created && r.outbox[j] == e;
        if i < |t.outbox| {
          AlertedWasSeen(t, r.outbox[i]);
        } else {
          assert r.outbox[i] == r.created[i - |t.outbox|] && r.created[i - |t.outbox|] in r.created;
        }
      }
    }
  }

  lemma AlertedWasSeen(t: Tables, e: AlertEvent)
    requires Sound(t) && e in t.outbox
    ensures MatchOf(e) in t.matches
  {
    var m := MatchOf(e);
    assert HasAlert(t.outbox, m);
    var k :| 0 <= k < |t.history| && AlertsAt(t.history, k, m);
  }

  lemma NewAlerts(t: Tables, id: string, version: nat, owner: string, ids: seq<string>, at: int, r: Marked, m: Match)
    requires r.outbox == t.outbox + r.created
    requires forall e :: e in r.created <==>
               e.canonicalId in ids && e == EventFor(id, version, owner, e.canonicalId, at)
               && Match(id, version, e.canonicalId) !in t.matches
    ensures HasAlert(r.outbox, m) <==>
            HasAlert(t.outbox, m) || (m == Match(id, version, m.canonicalId) && m.canonicalId in ids && m !in t.matches)
  {
    if HasAlert(t.outbox, m) {
      var e :| e in t.outbox && MatchOf(e) == m;
      assert e in r.outbox;
    }
    if HasAlert(r.outbox, m) {
      var e :| e in r.outbox && MatchOf(e) == m;
      if e !in t.outbox { assert e in r.created; }
    }
    if m == Match(id, version, m.canonicalId) && m.canonicalId in ids && m !in t.matches {
      var e := EventFor(id, version, owner, m.canonicalId, at);
      assert e in r.created && e in r.outbox && MatchOf(e) == m;
    }
  }

  lemma MarkKeepsSound(t: Tables, saved: SavedSearch, ids: seq<string>, at: int)
    requires Sound(t) && MarkStep(t, saved, ids, at).Ok?
    requires EvaluatedBefore(t.history, |t.history|, saved.savedSearchId, saved.version)
    ensures Sound(MarkStep(t, saved, ids, at).value.0)
  {
    var id, version := saved.savedSearchId, saved.version;
    var h := Evaluation(id, version, ids, false);
    var r := MarkAll(Marked(t.matches, t.outbox, []), id, version, saved.ownerId, ids, at).value;
    MarkAllExactly(Marked(t.matches, t.outbox, []), id, version, saved.ownerId, ids, at);
    MarkKeepsOutbox(t, id, version, saved.ownerId, ids, at);
    EvaluatedIsOld(t, id, version);
    BaselineHistory(t, h);
    assert t.searches[id := t.searches[id].(primed := true)] == t.searches;
    MatchesSeen(t, h, r.matches);
  }

  lemma EvaluatedIsOld(t: Tables, id: string, version: nat)
    requires Sound(t) && EvaluatedBefore(t.history, |t.history|, id, version)
    ensures id in t.searches && version <= t.searches[id].version
  {
    var j :| 0 <= j < |t.history| && Same(t.history[j], id, version);
    assert t.history[j] in t.history;
  }

  lemma MatchesSeen(t: Tables, h: Evaluation, matches: set<Match>)
    requires Sound(t) && matches == t.matches + MatchesFor(h.savedSearchId, h.version, h.ids)
    ensures forall m :: m in matches <==> SeenBefore(t.history + [h], |t.history| + 1, m)
  {
    HistoryGrows(t.history, h);
    forall m ensures m in matches <==> SeenBefore(t.history + [h], |t.history| + 1, m) {
      assert m in MatchesFor(h.savedSearchId, h.version, h.ids) <==>
             Same(h, m.savedSearchId, m.version) && m.canonicalId in h.ids;
    }
  }

  lemma EvaluateKeepsSound(t: Tables, id: string, ids: seq<string>, at: int)
    requires Sound(t) && EvaluateStep(t, id, ids, at).Ok?
    ensures Sound(EvaluateStep(t, id, ids, at).value.0)
  {
    var row := t.searches[id];
    if row.enabled {
      if row.primed {
        MarkKeepsSound(t, SavedFromRow(id, row), ids, at);
      } else {
        BaselineKeepsSound(t, id, row.version, ids);
      }
    }
  }

  lemma {:induction false} RunIsSound(steps: seq<Step>)
    ensures Sound(Run(steps))
  {
    if steps == [] {
    } else {
      var init, last := steps[..|steps| - 1], steps[|steps| - 1];
      RunIsSound(init);
      var t := Run(init);
      match last
      case SaveCall(s) => if SaveStep(t, s).Ok? { SaveKeepsSound(t, s); }
      case EvaluateCall(id, ids, at) => if EvaluateStep(t, id, ids, at).Ok? { EvaluateKeepsSound(t, id, ids, at); }
    }
  }

  /** A later row of a search: versions never fall, and at one version criteria stay and priming lasts. */
  ghost predicate Follows(before: SearchRow, after: SearchRow) {
    && before.version <= after.version
    && (before.version == after.version ==> before.criteria == after.criteria && (before.primed ==> after.primed))
  }

  lemma StepFollows(t: Tables, step: Step, id: string)
    requires id in t.searches
    ensures id in Exec(t, step).searches && Follows(t.searches[id], Exec(t, step).searches[id])
  {
  }

  lemma {:induction false} RowsFollow(steps: seq<Step>, n: nat, k: nat, id: string)
    requires n <= k <= |steps| && id in Run(steps[..n]).searches
    ensures id in Run(steps[..k]).searches && Follows(Run(steps[..n]).searches[id], Run(steps[..k]).searches[id])
    decreases k
  {
    if n < k {
      RowsFollow(steps, n, k - 1, id);
      assert steps[..k][..k - 1] == steps[..k - 1];
      OneMoreStep(Run(steps[..n]).searches[id], Run(steps[..k - 1]), steps[k - 1], id);
    }
  }

  lemma OneMoreStep(first: SearchRow, t: Tables, step: Step, id: string)
    requires id in t.searches && Follows(first, t.searches[id])
    ensures id in Exec(t, step).searches && Follows(first, Exec(t, step).searches[id])
  {
    StepFollows(t, step, id);
  }

  /**
   A version names one query: between two moments of a run at which a saved search has the same version its criteria
   are the same, and a search primed at a version stays primed at it.
   */
  lemma VersionFixesCriteria(steps: seq<Step>, n: nat, k: nat, id: string)
    requires n <= k <= |steps| && id in Run(steps[..n]).searches
    ensures id in Run(steps[..k]).searches
    ensures var before, after := Run(steps[..n]).searches[id], Run(steps[..k]).searches[id];
            && before.version <= after.version
            && (before.version == after.version ==> before.criteria == after.criteria)
            && (before.version == after.version && before.primed ==> after.primed)
  {
    RowsFollow(steps, n, k, id);
  }

  /**
   Exactly once, over every interleaving of saves and evaluations: the outbox holds one event for a listing and
   query version when some evaluation of that version after its baseline was the first to match the listing, and
   none otherwise.
   */
  lemma ExactlyOnce(steps: seq<Step>, m: Match)
    ensures var t := Run(steps);
            && (HasAlert(t.outbox, m) <==> ShouldAlert(t.history, m))
            && forall i, j :: 0 <= i < j < |t.outbox| && MatchOf(t.outbox[i]) == m ==> MatchOf(t.outbox[j]) != m
  {
    RunIsSound(steps);
  }

  /** A listing in a version's baseline never alerts at that version. */
  lemma BaselinedNeverAlerts(steps: seq<Step>, k: nat, c: string)
    requires var t := Run(steps); k < |t.history| && t.history[k].baseline && c in t.history[k].ids
    ensures var t := Run(steps); !HasAlert(t.outbox, Match(t.history[k].savedSearchId, t.history[k].version, c))
  {
    RunIsSound(steps);
    BaselineIsSilent(Run(steps), k, c);
  }

  lemma BaselineIsSilent(t: Tables, k: nat, c: string)
    requires Sound(t) && k < |t.history| && t.history[k].baseline && c in t.history[k].ids
    ensures !HasAlert(t.outbox, Match(t.history[k].savedSearchId, t.history[k].version, c))
  {
    var b := t.history[k];
    var m := Match(b.savedSearchId, b.version, c);
    forall j | 0 <= j < |t.history| ensures !AlertsAt(t.history, j, m) {
      if Same(t.history[j], m.savedSearchId, m.version) {
        if j < k {
          assert EvaluatedBefore(t.history, k, b.savedSearchId, b.version);
        } else if j > k {
          assert SeenBefore(t.history, j, m);
        }
      }
    }
    assert !ShouldAlert(t.history, m);
  }

  /** A search still to be primed has no match at its current version. */
  lemma UnprimedHasNoMatches(steps: seq<Step>, id: string, c: string)
    requires var t := Run(steps); id in t.searches && !t.searches[id].primed
    ensures var t := Run(steps); Match(id, t.searches[id].version, c) !in t.matches
  {
    RunIsSound(steps);
    NoMatchesYet(Run(steps), id, c);
  }

  lemma NoMatchesYet(t: Tables, id: string, c: string)
    requires Sound(t) && id in t.searches && !t.searches[id].primed
    ensures Match(id, t.searches[id].version, c) !in t.matches
  {
    var m := Match(id, t.searches[id].version, c);
    if SeenBefore(t.history, |t.history|, m) {
      var j :| 0 <= j < |t.history| && Same(t.history[j], m.savedSearchId, m.version) &&
          m.canonicalId in t.history[j].ids;
      assert EvaluatedBefore(t.history, |t.history|, id, t.searches[id].version);
    }
  }

  /** Every listing ever evaluated had a clean id. */
  ghost predicate CleanHistory(t: Tables) {
    forall h :: h in t.history ==> CleanIds(h.ids)
  }

  /** With ids from the inventory, evaluating a known search never fails. */
  lemma CleanEvaluationSucceeds(t: Tables, id: string, ids: seq<string>, at: int)
    requires Sound(t) && CleanHistory(t) && id in t.searches && CleanIds(ids)
    ensures EvaluateStep(t, id, ids, at).Ok? && CleanHistory(EvaluateStep(t, id, ids, at).value.0)
  {
    var row := t.searches[id];
    if row.enabled && row.primed {
      forall e | e in t.outbox ensures '|' !in e.canonicalId && MatchOf(e) in t.matches {
        AlertedWasSeen(t, e);
        var j :| 0 <= j < |t.history| && Same(t.history[j], e.savedSearchId, e.version) &&
            e.canonicalId in t.history[j].ids;
        assert t.history[j] in t.history;
      }
      MarkAllSucceeds(Marked(t.matches, t.outbox, []), id, row.version, row.ownerId, ids, at);
    }
  }

  lemma OneBatchNeverCollides(id: string, v: nat, c: string, d: string)
    requires EventText(id, v, c) == EventText(id, v, d)
    ensures c == d
  {
    var head := id + "|" + Numeral(v) + "|";
    assert EventText(id, v, c) == head + c && EventText(id, v, d) == head + d;
    assert c == (head + c)[|head|..] && d == (head + d)[|head|..];
  }

  /** Every id of the batch is usable: not blank, and if it is new, its event id is not taken. */
  ghost predicate Recordable(m: Marked, id: string, version: nat, ids: seq<string>) {
    forall c :: c in ids ==>
                  !IsBlank(c) && (Match(id, version, c) in m.matches ||
                    !HasEventId(m.outbox, EventText(id, version, c)))
  }

  /** Exactly when a marking transaction commits. */
  lemma {:induction false} MarkAllAcceptedExactly(m0: Marked, id: string, version: nat, owner: string,
                                                  ids: seq<string>, at: int)
    requires m0.created == []
    ensures MarkAll(m0, id, version, owner, ids, at).Ok? <==> Recordable(m0, id, version, ids)
  {
    if ids == [] {
    } else {
      var init, c := ids[..|ids| - 1], ids[|ids| - 1];
      assert ids == init + [c];
      MarkAllAcceptedExactly(m0, id, version, owner, init, at);
      if MarkAll(m0, id, version, owner, init, at).Ok? {
        MarkAllExactly(m0, id, version, owner, init, at);
        var before := MarkAll(m0, id, version, owner, init, at).value;
        TakenBefore(m0, before, id, version, owner, init, at, c);
      }
    }
  }

  /** A refused marking says why: an id is blank, or the event id of a new match is taken. */
  lemma {:induction false} MarkAllRefusedExactly(m0: Marked, id: string, version: nat, owner: string,
                                                 ids: seq<string>, at: int)
    requires m0.created == [] && MarkAll(m0, id, version, owner, ids, at).Err?
    ensures var e := MarkAll(m0, id, version, owner, ids, at).error;
            || (e == BlankCanonicalId && exists c :: c in ids && IsBlank(c))
            || (e == IntegrityViolation && exists c :: c in ids && Match(id, version, c) !in m0.matches
                                                       && HasEventId(m0.outbox, EventText(id, version, c)))
  {
    if ids == [] {
    } else {
      var init, c := ids[..|ids| - 1], ids[|ids| - 1];
      assert ids == init + [c] && c in ids;
      if MarkAll(m0, id, version, owner, init, at).Err? {
        MarkAllRefusedExactly(m0, id, version, owner, init, at);
        assert forall x :: x in init ==> x in ids;
      } else if !IsBlank(c) {
        MarkAllExactly(m0, id, version, owner, init, at);
        TakenBefore(m0, MarkAll(m0, id, version, owner, init, at).value, id, version, owner, init, at, c);
      }
    }
  }

  lemma TakenBefore(m0: Marked, m: Marked, id: string, version: nat, owner: string, ids: seq<string>, at: int,
                    c: string)
    requires m.outbox == m0.outbox + m.created && m.matches == m0.matches + MatchesFor(id, version, ids)
    requires forall e :: e in m.created <==>
               e.canonicalId in ids && e == EventFor(id, version, owner, e.canonicalId, at)
               && Match(id, version, e.canonicalId) !in m0.matches
    ensures Match(id, version, c) !in m.matches ==>
              (HasEventId(m.outbox, EventText(id, version, c)) <==> HasEventId(m0.outbox, EventText(id, version, c)))
    ensures Match(id, version, c) in m.matches && Match(id, version, c) !in m0.matches ==> c in ids
  {
    if Match(id, version, c) !in m.matches && HasEventId(m.outbox, EventText(id, version, c)) {
      var e :| e in m.outbox && e.eventId == EventText(id, version, c);
      if e in m.created { OneBatchNeverCollides(id, version, e.canonicalId, c); }
    }
  }

  /**
   An event id can be taken by another search's alert when ids contain '|'; the new alert is then refused, and with
   it the whole evaluation.
   */
  lemma CollisionBlocksAlert(t: Tables, id: string, c: string, at: int)
    requires RowsValid(t) && id in t.searches && t.searches[id].enabled && t.searches[id].primed && !IsBlank(c)
    requires Match(id, t.searches[id].version, c) !in t.matches
    requires HasEventId(t.outbox, EventText(id, t.searches[id].version, c))
    ensures EvaluateStep(t, id, [c], at) == Err(IntegrityViolation) && Exec(t, EvaluateCall(id, [c], at)) == t
  {
    var row := t.searches[id];
    var m0 := Marked(t.matches, t.outbox, []);
    assert [c][..0] == [] && MarkAll(m0, id, row.version, row.ownerId, [], at) == Ok(m0);
    assert MarkAll(m0, id, row.version, row.ownerId, [c], at) == MarkOne(m0, id, row.version, row.ownerId, c, at);
  }
}
