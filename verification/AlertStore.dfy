/** The saved-search store and the evaluator that feeds it complete search results. */
module AlertStore {
  import opened Wrappers
  import opened Text
  import opened Alerts
  import Search

  class SQLiteSavedSearchStore {
    var searches: map<string, SearchRow>
    var matches: set<Match>
    var outbox: seq<AlertEvent>
    ghost var history: seq<Evaluation>

    ghost function Snapshot(): Tables
      reads this
    {
      Tables(searches, matches, outbox, history)
    }

    ghost predicate Valid()
      reads this
    {
      Sound(Snapshot())
    }

    constructor ()
      ensures Valid() && Snapshot() == EMPTY_TABLES
    {
      searches, matches, outbox, history := map[], {}, [], [];
    }

    method Save(saved: SavedSearch) returns (r: Result<SavedSearch, AlertError>)
      requires Valid()
      modifies this
      ensures Valid()
      ensures var step := SaveStep(old(Snapshot()), saved);
              && (step.Ok? ==> Snapshot() == step.value.0 && r == Ok(step.value.1))
              && (step.Err? ==> Snapshot() == old(Snapshot()) && r == Err(step.error))
    {
      if !SavedValid(saved) { return Err(InvalidSearch); }
      var version: nat, primed := saved.version, false;
      if saved.savedSearchId in searches {
        var existing := searches[saved.savedSearchId];
        var changed := saved.query.criteria != existing.criteria;
        version := if changed then existing.version + 1 else existing.version;
        primed := if changed then false else existing.primed;
      }
      var row := SearchRow(saved.ownerId, saved.name, saved.query.criteria, version, saved.enabled, primed);
      assert row == RowFor(Snapshot(), saved);
      SaveKeepsSound(Snapshot(), saved);
      searches := searches[saved.savedSearchId := row];
      return Ok(saved.(version := version));
    }

    method Get(id: string) returns (r: Result<SavedSearch, AlertError>)
      ensures r == if id in searches then Ok(SavedFromRow(id, searches[id])) else Err(UnknownSearch)
    {
      if id !in searches { return Err(UnknownSearch); }
      return Ok(SavedFromRow(id, searches[id]));
    }

    /** establish_baseline, with any copy of a search: matches are recorded, nothing is alerted. */
    method EstablishBaseline(saved: SavedSearch, ids: seq<string>) returns (r: Result<(), AlertError>)
      modifies this
      ensures var step := BaselineStep(old(Snapshot()), saved, ids);
              && (step.Ok? ==> Snapshot() == step.value && r == Ok(()))
              && (step.Err? ==> Snapshot() == old(Snapshot()) && r == Err(step.error))
    {
      if !SavedValid(saved) { return Err(InvalidSearch); }
      var id, version: nat := saved.savedSearchId, saved.version;
      var recorded := CollectMatches(id in searches, id, version, ids);
      if recorded.Err? { return Err(recorded.error); }
      if id !in searches {
        assert MatchesFor(id, version, []) == {};
        return Ok(());
      }
      matches := matches + recorded.value;
      searches := searches[id := searches[id].(primed := true)];
      history := history + [Evaluation(id, version, ids, true)];
      return Ok(());
    }

    /** The rows a baseline inserts: each must name a listing, and a search that is stored. */
    method CollectMatches(known: bool, id: string, version: nat, ids: seq<string>)
      returns (r: Result<set<Match>, AlertError>)
      ensures r.Ok? <==> !AnyBlank(ids) && (known || ids == [])
      ensures r.Ok? ==> r.value == MatchesFor(id, version, ids)
      ensures r.Err? ==> ids != []
      ensures r.Err? ==> r.error == if known || IsBlank(ids[0]) then BlankCanonicalId else IntegrityViolation
    {
      var recorded := {};
      for i := 0 to |ids|
        invariant recorded == MatchesFor(id, version, ids[..i]) && !AnyBlank(ids[..i]) && (i > 0 ==> known)
      {
        assert ids[..i + 1] == ids[..i] + [ids[i]];
        MatchesGrow(id, version, ids[..i], ids[i]);
        if IsBlank(ids[i]) { assert ids[i] in ids; return Err(BlankCanonicalId); }
        if !known { return Err(IntegrityViolation); }
        recorded := recorded + {Match(id, version, ids[i])};
      }
      assert ids[..|ids|] == ids;
      return Ok(recorded);
    }

    /** mark_matches, with any copy of a search: one event per listing not matched at its version before. */
    method MarkMatches(saved: SavedSearch, ids: seq<string>, at: int) returns (r: Result<seq<AlertEvent>, AlertError>)
      modifies this
      ensures var step := MarkStep(old(Snapshot()), saved, ids, at);
              && (step.Ok? ==> Snapshot() == step.value.0 && r == Ok(step.value.1))
              && (step.Err? ==> Snapshot() == old(Snapshot()) && r == Err(step.error))
    {
      if !SavedValid(saved) { return Err(InvalidSearch); }
      var id, version: nat := saved.savedSearchId, saved.version;
      if id !in searches { return Err(UnknownSearch); }
      if !searches[id].primed { return Err(NotPrimed); }
      var marked := Marked(matches, outbox, []);
      ghost var start := marked;
      for i := 0 to |ids|
        invariant MarkAll(start, id, version, saved.ownerId, ids[..i], at) == Ok(marked)
      {
        assert ids[..i + 1][..i] == ids[..i];
        var step := MarkOne(marked, id, version, saved.ownerId, ids[i], at);
        if step.Err? {
          MarkFails(start, id, version, saved.ownerId, ids, i + 1, at);
          return Err(step.error);
        }
        marked := step.value;
      }
      assert ids[..|ids|] == ids;
      matches, outbox := marked.matches, marked.outbox;
      history := history + [Evaluation(id, version, ids, false)];
      return Ok(marked.created);
    }

    lemma {:induction false} MarkFails(m: Marked, id: string, version: nat, owner: string, ids: seq<string>, n: nat,
                                       at: int)
      requires n <= |ids| && MarkAll(m, id, version, owner, ids[..n], at).Err?
      ensures MarkAll(m, id, version, owner, ids, at) == MarkAll(m, id, version, owner, ids[..n], at)
      decreases |ids|
    {
      if n == |ids| {
        assert ids[..n] == ids;
      } else {
        var init := ids[..|ids| - 1];
        assert init[..n] == ids[..n];
        MarkFails(m, id, version, owner, init, n, at);
      }
    }
  }

  // ------------------------------------------------------------------------
  // The evaluator

  const EVALUATION_PAGE_SIZE := 100

  /** The ids of everything that matches now, in search order. */
  ghost function CurrentMatches<R>(s: Search.SearchService<R>, q: Search.Query): seq<string> {
    Mapped(Search.FullSort(s, q), Search.ResultId)
  }

  /** The ids that match now are those of the rows that rank, each listed once. */
  lemma CurrentMatchesExactly<R>(s: Search.SearchService<R>, q: Search.Query)
    requires Search.RowsDiffer(s.rows(q.criteria), s.rank(q.criteria))
    ensures forall c :: c in CurrentMatches(s, q) <==>
                        exists i :: 0 <= i < |s.rows(q.criteria)| && RanksAs(s, q, i, c)
    ensures Distinct(CurrentMatches(s, q))
  {
    var rows, rank, all, ids := s.rows(q.criteria), s.rank(q.criteria), Search.FullSort(s, q), CurrentMatches(s, q);
    Search.FullSortTells(s, q);
    forall c ensures c in ids <==> exists i :: 0 <= i < |rows| && RanksAs(s, q, i, c) {
      if k :| 0 <= k < |ids| && ids[k] == c {
        assert all[k] in all;
        var i :| 0 <= i < |rows| && rank(rows[i]) == Some(all[k]);
        assert RanksAs(s, q, i, c);
      }
      if i :| 0 <= i < |rows| && RanksAs(s, q, i, c) {
        assert rank(rows[i]) == Some(rank(rows[i]).value) && rank(rows[i]).value in all;
        var k :| 0 <= k < |all| && all[k] == rank(rows[i]).value;
        assert ids[k] == c;
      }
    }
    MatchesDiffer(rows, rank, all, ids);
  }

  /** Row i ranks, under this canonical id. */
  ghost predicate RanksAs<R>(s: Search.SearchService<R>, q: Search.Query, i: nat, c: string)
    requires i < |s.rows(q.criteria)|
  {
    var r := s.rank(q.criteria)(s.rows(q.criteria)[i]);
    r.Some? && r.value.canonicalId == c
  }

  lemma MatchesDiffer<R>(rows: seq<R>, rank: R -> Option<Search.SearchResult>, all: seq<Search.SearchResult>,
                         ids: seq<string>)
    requires Search.RowsDiffer(rows, rank) && ids == Mapped(all, Search.ResultId)
    requires forall r :: r in all ==> exists i :: 0 <= i < |rows| && rank(rows[i]) == Some(r)
    requires forall i, j :: 0 <= i < j < |all| ==> Search.Better(all[i], all[j])
    ensures Distinct(ids)
  {
    forall i, j | 0 <= i < j < |ids| ensures ids[i] != ids[j] {
      var k :| 0 <= k < |rows| && rank(rows[k]) == Some(all[i]);
      var l :| 0 <= l < |rows| && rank(rows[l]) == Some(all[j]);
      Search.NotBetterThanItself(all[i]);
      assert k != l;
    }
  }

  /** _all_matching_ids: the pages together are the full list. */
  method AllMatchingIds<R>(s: Search.SearchService<R>, q: Search.Query) returns (ids: seq<string>)
    requires Search.Faithful(s.codec) && Search.RowsDiffer(s.rows(q.criteria), s.rank(q.criteria))
    ensures ids == CurrentMatches(s, q)
    ensures forall c :: c in ids <==> exists i :: 0 <= i < |s.rows(q.criteria)| && RanksAs(s, q, i, c)
    ensures Distinct(ids)
  {
    CurrentMatchesExactly(s, q);
    var all, _ := Search.FollowPages(s, q, EVALUATION_PAGE_SIZE);
    return Mapped(all, Search.ResultId);
  }

  /** evaluate: does to the store what EvaluateStep says about the current matches. */
  method Evaluate<R>(store: SQLiteSavedSearchStore, s: Search.SearchService<R>, id: string, now: int)
    returns (r: Result<seq<AlertEvent>, AlertError>)
    requires store.Valid()
    requires Search.Faithful(s.codec)
    requires forall criteria :: Search.RowsDiffer(s.rows(criteria), s.rank(criteria))
    modifies store
    ensures store.Valid()
    ensures id !in old(store.searches) ==> r == Err(UnknownSearch) && store.Snapshot() == old(store.Snapshot())
    ensures id in old(store.searches) ==>
              var ids := CurrentMatches(s, SavedFromRow(id, old(store.searches)[id]).query);
              var step := EvaluateStep(old(store.Snapshot()), id, ids, now);
              && (step.Ok? ==> store.Snapshot() == step.value.0 && r == Ok(step.value.1))
              && (step.Err? ==> store.Snapshot() == old(store.Snapshot()) && r == Err(step.error))
  {
    var got := store.Get(id);
    if got.Err? { return Err(got.error); }
    var saved := got.value;
    if !saved.enabled { return Ok([]); }
    var ids := AllMatchingIds(s, saved.query);
    if !store.searches[id].primed {
      var baseline := store.EstablishBaseline(saved, ids);
      r := if baseline.Ok? then Ok([]) else Err(baseline.error);
    } else {
      r := store.MarkMatches(saved, ids, now);
    }
    if r.Ok? { EvaluateKeepsSound(old(store.Snapshot()), id, ids, now); }
  }
}
