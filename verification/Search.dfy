/** Deterministic search over the canonical inventory, one cursor-delimited page at a time. */
module Search {
  import opened Wrappers
  import opened StringOrder
  import opened Base64Url

  /** A query; the criteria stand for the fields that choose and rank listings. */
  datatype Query = Query(criteria: string, pageSize: int, cursor: Option<string>)

  /** The fields of a result that ordering and paging read; the score stands for the ranking. */
  datatype SearchResult = SearchResult(canonicalId: string, score: int, verifiedAt: int)

  function ResultId(r: SearchResult): string { r.canonicalId }

  datatype Key = Key(negScore: int, negVerified: int, id: string)

  /** _sort_key: best score first, then most recently verified, then by id. */
  function SortKey(r: SearchResult): Key {
    Key(-r.score, -r.verifiedAt, r.canonicalId)
  }

  /** Python's tuple comparison. */
  predicate KeyLess(a: Key, b: Key) {
    || a.negScore < b.negScore
    || (a.negScore == b.negScore
        && (a.negVerified < b.negVerified || (a.negVerified == b.negVerified && Less(a.id, b.id))))
  }

  lemma KeyTransitive(a: Key, b: Key, c: Key)
    requires KeyLess(a, b) && KeyLess(b, c)
    ensures KeyLess(a, c)
  {
    if Less(a.id, b.id) && Less(b.id, c.id) { LessTransitive(a.id, b.id, c.id); }
  }

  lemma KeyTotal(a: Key, b: Key)
    ensures a == b || KeyLess(a, b) || KeyLess(b, a)
    ensures !(KeyLess(a, b) && KeyLess(b, a)) && !KeyLess(a, a)
  {
    LessTotal(a.id, b.id);
    LessTotal(a.id, a.id);
  }

  /** The better score first, then the later verification, then the smaller id. */
  predicate Better(a: SearchResult, b: SearchResult) {
    || a.score > b.score
    || (a.score == b.score && a.verifiedAt > b.verifiedAt)
    || (a.score == b.score && a.verifiedAt == b.verifiedAt && Less(a.canonicalId, b.canonicalId))
  }

  lemma NotBetterThanItself(r: SearchResult)
    ensures !Better(r, r)
  {
    LessTotal(r.canonicalId, r.canonicalId);
  }

  lemma KeysOrderByRank(a: SearchResult, b: SearchResult)
    ensures KeyLess(SortKey(a), SortKey(b)) <==> Better(a, b)
  {
  }

  // ------------------------------------------------------------------------
  // Cursors

  datatype CursorPayload = CursorPayload(version: int, signature: string, score: int, verifiedAt: int, id: string)

  /** A JSON writer and reader; all that matters is that reading undoes writing, and that no text is empty. */
  datatype Codec = Codec(dumps: CursorPayload -> seq<Byte>, loads: seq<Byte> -> Option<CursorPayload>)

  ghost predicate Faithful(codec: Codec) {
    forall p :: codec.loads(codec.dumps(p)) == Some(p) && codec.dumps(p) != []
  }

  datatype SearchError = InvalidPageSize | InvalidCursor | ForeignCursor

  function EncodeCursor(codec: Codec, r: SearchResult, signature: string): string {
    Unpad(Encode(codec.dumps(CursorPayload(1, signature, r.score, r.verifiedAt, r.canonicalId))))
  }

  function DecodeCursor(codec: Codec, cursor: string, expected: string): Result<Key, SearchError> {
    match Decode(Repad(cursor))
    case None => Err(InvalidCursor)
    case Some(raw) =>
      match codec.loads(raw)
      case None => Err(InvalidCursor)
      case Some(p) =>
        if p.version != 1 || p.signature != expected then Err(ForeignCursor)
        else Ok(SortKey(SearchResult(p.id, p.score, p.verifiedAt)))
  }

  /** Any payload written as a cursor is read back, and accepted only under its own signature and version 1. */
  lemma PayloadRoundTrip(codec: Codec, p: CursorPayload, expected: string)
    requires Faithful(codec)
    ensures DecodeCursor(codec, Unpad(Encode(codec.dumps(p))), expected)
            == if p.version == 1 && p.signature == expected then Ok(Key(-p.score, -p.verifiedAt, p.id))
               else Err(ForeignCursor)
  {
    var raw := codec.dumps(p);
    UnpaddedRoundTrip(raw);
    assert codec.loads(raw) == Some(p);
    ReadBack(codec, Unpad(Encode(raw)), raw, p, expected);
  }

  lemma ReadBack(codec: Codec, cursor: string, raw: seq<Byte>, p: CursorPayload, expected: string)
    requires Decode(Repad(cursor)) == Some(raw) && codec.loads(raw) == Some(p)
    ensures DecodeCursor(codec, cursor, expected)
            == if p.version == 1 && p.signature == expected then Ok(Key(-p.score, -p.verifiedAt, p.id))
               else Err(ForeignCursor)
  {
  }

  /** A text that does not decode, or decodes to no payload, is no cursor at all. */
  lemma BrokenCursorIsInvalid(codec: Codec, cursor: string, expected: string)
    ensures var raw := Decode(Repad(cursor));
            DecodeCursor(codec, cursor, expected) == Err(InvalidCursor)
            <==> raw == None || codec.loads(raw.value) == None
  {
  }

  /** A cursor is accepted only if it holds a payload of version 1 under the expected signature, whose key it gives. */
  lemma AcceptedCursorHolds(codec: Codec, cursor: string, expected: string)
    requires DecodeCursor(codec, cursor, expected).Ok?
    ensures var raw := Decode(Repad(cursor));
            && raw != None && codec.loads(raw.value) != None
            && var p := codec.loads(raw.value).value;
               && p.version == 1 && p.signature == expected
               && DecodeCursor(codec, cursor, expected) == Ok(Key(-p.score, -p.verifiedAt, p.id))
  {
  }

  /** A cursor gives back exactly the sort key it was made from, and only to the query it was made for. */
  lemma CursorRoundTrip(codec: Codec, r: SearchResult, signature: string, expected: string)
    requires Faithful(codec)
    ensures DecodeCursor(codec, EncodeCursor(codec, r, signature), expected)
            == if expected == signature then Ok(SortKey(r)) else Err(ForeignCursor)
    ensures EncodeCursor(codec, r, signature) != ""
  {
    UnpaddedRoundTrip(codec.dumps(CursorPayload(1, signature, r.score, r.verifiedAt, r.canonicalId)));
  }

  // ------------------------------------------------------------------------
  // The reference: one full sort of everything eligible

  /** The results of all rows that pass the filters and ranking. */
  function Eligible<R>(rows: seq<R>, rank: R -> Option<SearchResult>): seq<SearchResult> {
    if rows == [] then [] else
    var rest := Eligible(rows[..|rows| - 1], rank);
    var r := rank(rows[|rows| - 1]);
    if r.Some? then rest + [r.value] else rest
  }

  /** A result is eligible exactly if some row ranks to it. */
  lemma {:induction false} EligibleExactly<R>(rows: seq<R>, rank: R -> Option<SearchResult>, r: SearchResult)
    ensures r in Eligible(rows, rank) <==> exists i :: 0 <= i < |rows| && rank(rows[i]) == Some(r)
  {
    if rows == [] {
    } else {
      var init := rows[..|rows| - 1];
      EligibleExactly(init, rank, r);
      if i :| 0 <= i < |rows| && rank(rows[i]) == Some(r) {
        if i < |init| { assert init[i] == rows[i]; }
      }
      if i :| 0 <= i < |init| && rank(init[i]) == Some(r) { assert rows[i] == init[i]; }
    }
  }

  /** Canonical ids are a primary key of the rows: no two rows rank to results that share one. */
  ghost predicate RowsDiffer<R>(rows: seq<R>, rank: R -> Option<SearchResult>) {
    forall i, j :: 0 <= i < j < |rows| && rank(rows[i]).Some? && rank(rows[j]).Some? ==>
                     rank(rows[i]).value.canonicalId != rank(rows[j]).value.canonicalId
  }

  lemma {:induction false} EligibleDiffer<R>(rows: seq<R>, rank: R -> Option<SearchResult>)
    requires RowsDiffer(rows, rank)
    ensures DistinctIds(Eligible(rows, rank))
  {
    if rows == [] {
    } else {
      var init, last := rows[..|rows| - 1], rank(rows[|rows| - 1]);
      assert forall i :: 0 <= i < |init| ==> init[i] == rows[i];
      EligibleDiffer(init, rank);
      if last.Some? {
        forall x | x in Eligible(init, rank) ensures x.canonicalId != last.value.canonicalId {
          EligibleExactly(init, rank, x);
          var i :| 0 <= i < |init| && rank(init[i]) == Some(x);
          assert rank(rows[i]) == Some(x);
        }
      }
    }
  }

  /** There is a result, and it lies after the position, None being the start. */
  predicate Lies(r: Option<SearchResult>, after: Option<Key>) {
    r.Some? && (after.None? || KeyLess(after.value, SortKey(r.value)))
  }

  /** The rows whose results lie after a position. */
  ghost function RowsAfter<R>(rows: seq<R>, rank: R -> Option<SearchResult>, after: Option<Key>): set<nat> {
    set i: nat | i < |rows| && Lies(rank(rows[i]), after)
  }

  lemma RowsAfterGrow<R>(rows: seq<R>, rank: R -> Option<SearchResult>, after: Option<Key>)
    requires rows != []
    ensures var init, n := rows[..|rows| - 1], |rows| - 1;
            && n !in RowsAfter(init, rank, after)
            && RowsAfter(rows, rank, after)
               == RowsAfter(init, rank, after) + (if Lies(rank(rows[n]), after) then {n} else {})
  {
    var init, n := rows[..|rows| - 1], |rows| - 1;
    forall i: nat | i < |rows|
      ensures i in RowsAfter(rows, rank, after) <==>
              i in RowsAfter(init, rank, after) || (i == n && Lies(rank(rows[n]), after))
    {
      if i < n { assert init[i] == rows[i]; }
    }
  }

  lemma AfterGrows<R>(rows: seq<R>, rank: R -> Option<SearchResult>, after: Option<Key>)
    requires rows != []
    ensures var init, last := rows[..|rows| - 1], rank(rows[|rows| - 1]);
            After(Eligible(rows, rank), after)
            == After(Eligible(init, rank), after) + (if Lies(last, after) then [last.value] else [])
  {
    var last, before := rank(rows[|rows| - 1]), Eligible(rows[..|rows| - 1], rank);
    if last.Some? { assert (before + [last.value])[..|before|] == before; }
  }

  /** There are as many results after a position as rows that rank behind it. */
  lemma {:induction false} AfterCounts<R>(rows: seq<R>, rank: R -> Option<SearchResult>, after: Option<Key>)
    ensures |After(Eligible(rows, rank), after)| == |RowsAfter(rows, rank, after)|
  {
    if rows == [] {
      assert RowsAfter(rows, rank, after) == {};
    } else {
      AfterCounts(rows[..|rows| - 1], rank, after);
      RowsAfterGrow(rows, rank, after);
      AfterGrows(rows, rank, after);
    }
  }

  /** Canonical ids are a primary key, so no two results share one. */
  ghost predicate DistinctIds(rs: seq<SearchResult>) {
    forall i, j :: 0 <= i < j < |rs| ==> rs[i].canonicalId != rs[j].canonicalId
  }

  function Insert(r: SearchResult, sorted: seq<SearchResult>): (rs: seq<SearchResult>)
    ensures forall x :: x in rs <==> x == r || x in sorted
    ensures |rs| == |sorted| + 1
  {
    if sorted == [] then [r]
    else if KeyLess(SortKey(r), SortKey(sorted[0])) then [r] + sorted
    else [sorted[0]] + Insert(r, sorted[1..])
  }

  /** Sorting by key. */
  function Sort(rs: seq<SearchResult>): (sorted: seq<SearchResult>)
    ensures forall x :: x in sorted <==> x in rs
    ensures |sorted| == |rs|
  {
    if rs == [] then [] else Insert(rs[|rs| - 1], Sort(rs[..|rs| - 1]))
  }

  ghost predicate Ascending(rs: seq<SearchResult>) {
    forall i, j :: 0 <= i < j < |rs| ==> KeyLess(SortKey(rs[i]), SortKey(rs[j]))
  }

  lemma {:induction false} InsertAscending(r: SearchResult, sorted: seq<SearchResult>)
    requires Ascending(sorted) && forall x :: x in sorted ==> x.canonicalId != r.canonicalId
    ensures Ascending(Insert(r, sorted))
  {
    if sorted == [] {
    } else {
      KeyTotal(SortKey(r), SortKey(sorted[0]));
      if KeyLess(SortKey(r), SortKey(sorted[0])) {
        forall x | x in sorted ensures KeyLess(SortKey(r), SortKey(x)) {
          var i :| 0 <= i < |sorted| && sorted[i] == x;
          if i > 0 { KeyTransitive(SortKey(r), SortKey(sorted[0]), SortKey(x)); }
        }
      } else {
        InsertAscending(r, sorted[1..]);
        var rest := Insert(r, sorted[1..]);
        forall x | x in rest ensures KeyLess(SortKey(sorted[0]), SortKey(x)) {
          if x != r { var i :| 0 <= i < |sorted[1..]| && sorted[1..][i] == x; }
        }
      }
    }
  }

  lemma {:induction false} SortAscending(rs: seq<SearchResult>)
    requires DistinctIds(rs)
    ensures Ascending(Sort(rs))
  {
    if rs == [] {
    } else {
      var init, last := rs[..|rs| - 1], rs[|rs| - 1];
      SortAscending(init);
      forall x | x in Sort(init) ensures x.canonicalId != last.canonicalId {
        var i :| 0 <= i < |init| && init[i] == x;
      }
      InsertAscending(last, Sort(init));
    }
  }

  /** The full sort shows the best score first, then the most recently verified, then the smaller id. */
  lemma BestFirst(rs: seq<SearchResult>, i: nat, j: nat)
    requires DistinctIds(rs) && i < j < |rs|
    ensures var a, b := Sort(rs)[i], Sort(rs)[j];
            && a.score >= b.score && (a.score == b.score ==> a.verifiedAt >= b.verifiedAt)
            && (a.score == b.score && a.verifiedAt == b.verifiedAt ==> Less(a.canonicalId, b.canonicalId))
  {
    SortAscending(rs);
    assert KeyLess(SortKey(Sort(rs)[i]), SortKey(Sort(rs)[j]));
  }

  lemma {:induction false} AscendingIsUnique(a: seq<SearchResult>, b: seq<SearchResult>)
    requires Ascending(a) && Ascending(b) && |a| == |b| && forall x :: x in a <==> x in b
    ensures a == b
  {
    if a == [] {
    } else {
      assert a[0] in b && b[0] in a;
      FirstIsLeast(a, b[0]);
      FirstIsLeast(b, a[0]);
      KeyTotal(SortKey(a[0]), SortKey(b[0]));
      assert a[0] == b[0];
      TailMembers(a);
      TailMembers(b);
      AscendingIsUnique(a[1..], b[1..]);
      assert a == [a[0]] + a[1..] && b == [b[0]] + b[1..];
    }
  }

  lemma FirstIsLeast(a: seq<SearchResult>, x: SearchResult)
    requires Ascending(a) && x in a
    ensures x == a[0] || KeyLess(SortKey(a[0]), SortKey(x))
  {
    var i :| 0 <= i < |a| && a[i] == x;
  }

  lemma TailMembers(a: seq<SearchResult>)
    requires Ascending(a) && a != []
    ensures forall x :: x in a[1..] <==> x in a && x != a[0]
  {
    forall x | x in a[1..] ensures x != a[0] {
      KeyTotal(SortKey(a[0]), SortKey(a[0]));
      var i :| 0 <= i < |a[1..]| && a[1..][i] == x;
      assert KeyLess(SortKey(a[0]), SortKey(a[i + 1]));
    }
  }

  /** The results after a cursor position, None being the start. */
  function After(rs: seq<SearchResult>, after: Option<Key>): (rest: seq<SearchResult>)
    ensures forall x :: x in rest <==> x in rs && (after.None? || KeyLess(after.value, SortKey(x)))
  {
    if rs == [] then [] else
    var rest, last := After(rs[..|rs| - 1], after), rs[|rs| - 1];
    if after.None? || KeyLess(after.value, SortKey(last)) then rest + [last] else rest
  }

  lemma {:induction false} AfterStart(rs: seq<SearchResult>)
    ensures After(rs, None) == rs
  {
    if rs == [] {
    } else {
      AfterStart(rs[..|rs| - 1]);
      assert rs[..|rs| - 1] + [rs[|rs| - 1]] == rs;
    }
  }

  lemma AscendingAppend(rs: seq<SearchResult>, last: SearchResult)
    requires Ascending(rs) && forall x :: x in rs ==> KeyLess(SortKey(x), SortKey(last))
    ensures Ascending(rs + [last])
  {
  }

  lemma {:induction false} AfterKeeps(rs: seq<SearchResult>, after: Option<Key>)
    requires Ascending(rs)
    ensures Ascending(After(rs, after))
  {
    if rs == [] {
    } else {
      var init, last := rs[..|rs| - 1], rs[|rs| - 1];
      AfterKeeps(init, after);
      forall x | x in After(init, after) ensures KeyLess(SortKey(x), SortKey(last)) {
        var i :| 0 <= i < |init| && init[i] == x;
      }
      AscendingAppend(After(init, after), last);
    }
  }

  lemma {:induction false} AfterKeepsIds(rs: seq<SearchResult>, after: Option<Key>)
    requires DistinctIds(rs)
    ensures DistinctIds(After(rs, after))
  {
    if rs == [] {
    } else {
      var init, last := rs[..|rs| - 1], rs[|rs| - 1];
      AfterKeepsIds(init, after);
      forall x | x in After(init, after) ensures x.canonicalId != last.canonicalId {
        var i :| 0 <= i < |init| && init[i] == x;
      }
    }
  }

  lemma AscendingSameMembers(a: seq<SearchResult>, b: seq<SearchResult>)
    requires Ascending(a) && Ascending(b) && forall x :: x in a <==> x in b
    ensures a == b
  {
    AscendingIsDistinct(a);
    AscendingIsDistinct(b);
    DistinctByCount(a);
    DistinctByCount(b);
    assert SetOf(a) == SetOf(b);
    AscendingIsUnique(a, b);
  }

  lemma AscendingIsDistinct(a: seq<SearchResult>)
    requires Ascending(a)
    ensures Distinct(a)
  {
    forall i, j | 0 <= i < j < |a| ensures a[i] != a[j] { KeyTotal(SortKey(a[i]), SortKey(a[j])); }
  }

  /** Sorting what lies after a cursor is what lies after it in the full sort. */
  lemma SortAfter(rs: seq<SearchResult>, after: Option<Key>)
    requires DistinctIds(rs)
    ensures Sort(After(rs, after)) == After(Sort(rs), after)
  {
    AfterKeepsIds(rs, after);
    SortAscending(After(rs, after));
    SortAscending(rs);
    AfterKeeps(Sort(rs), after);
    AscendingSameMembers(Sort(After(rs, after)), After(Sort(rs), after));
  }

  lemma LaterInOrder(sorted: seq<SearchResult>, i: nat, x: SearchResult)
    requires Ascending(sorted) && i < |sorted| && x in sorted
    ensures KeyLess(SortKey(sorted[i]), SortKey(x)) <==> x in sorted[i + 1..]
  {
    var k :| 0 <= k < |sorted| && sorted[k] == x;
    KeyTotal(SortKey(sorted[i]), SortKey(x));
    if k > i { assert sorted[i + 1..][k - i - 1] == x; }
    if x in sorted[i + 1..] {
      var j :| 0 <= j < |sorted[i + 1..]| && sorted[i + 1..][j] == x;
      assert sorted[i + 1 + j] == x;
    }
  }

  /** In the full sort, what lies after position i's key is the rest of the list. */
  lemma AfterIsSuffix(sorted: seq<SearchResult>, i: nat)
    requires Ascending(sorted) && i < |sorted|
    ensures After(sorted, Some(SortKey(sorted[i]))) == sorted[i + 1..]
  {
    var a, b := After(sorted, Some(SortKey(sorted[i]))), sorted[i + 1..];
    AfterKeeps(sorted, Some(SortKey(sorted[i])));
    forall x ensures x in a <==> x in b {
      if x in sorted { LaterInOrder(sorted, i, x); }
    }
    AscendingSameMembers(a, b);
  }

  // ------------------------------------------------------------------------
  // The service

  datatype SearchPage = SearchPage(results: seq<SearchResult>, nextCursor: Option<string>, totalCandidates: nat)

  /** The position a query's cursor names; an absent or empty cursor is the start. */
  function StartOf(codec: Codec, cursor: Option<string>, signature: string): Result<Option<Key>, SearchError> {
    if cursor.None? || cursor.value == "" then Ok(None) else
    match DecodeCursor(codec, cursor.value, signature)
    case Err(e) => Err(e)
    case Ok(key) => Ok(Some(key))
  }

  /** The first items of a list, all of them counted, and a cursor to the last one shown when there are more. */
  ghost predicate ShowsFirst(page: SearchPage, codec: Codec, signature: string, rest: seq<SearchResult>, size: nat)
    requires size >= 1
  {
    && page.totalCandidates == |rest|
    && page.results == (if |rest| <= size then rest else rest[..size])
    && page.nextCursor == (if |rest| <= size then None else Some(EncodeCursor(codec, rest[size - 1], signature)))
  }

  /** The page that starts after a position of the fully sorted list. */
  ghost predicate IsPage(page: SearchPage, codec: Codec, signature: string, sorted: seq<SearchResult>,
                         after: Option<Key>, size: nat)
    requires size >= 1
  {
    ShowsFirst(page, codec, signature, After(sorted, after), size)
  }

  /** What a query's signature digests: everything but the cursor. */
  datatype SignaturePayload = SignaturePayload(criteria: string, pageSize: int)

  /** The rows and the ranking for given criteria, fixed while a client pages through them. */
  datatype SearchService<!R> = SearchService(
    codec: Codec,
    rows: string -> seq<R>,
    rank: string -> R -> Option<SearchResult>,
    digest: SignaturePayload -> string)

  function Signature<R>(s: SearchService<R>, q: Query): string {
    s.digest(SignaturePayload(q.criteria, q.pageSize))
  }

  ghost function Matches<R>(s: SearchService<R>, q: Query): seq<SearchResult> {
    Eligible(s.rows(q.criteria), s.rank(q.criteria))
  }

  /** The reference answer to a query: everything eligible, sorted. */
  ghost function FullSort<R>(s: SearchService<R>, q: Query): seq<SearchResult> {
    Sort(Matches(s, q))
  }

  /** A page of a query: its page size and cursor replaced. */
  function PageOf(q: Query, size: int, cursor: Option<string>): Query {
    q.(pageSize := size, cursor := cursor)
  }

  /**
   Paging on changes neither the signature nor the answer, so the next page accepts the cursor of the one before and
   continues the same list.
   */
  lemma CursorNotSigned<R>(s: SearchService<R>, q: Query, size: int, cursor: Option<string>, other: Option<string>)
    ensures Signature(s, PageOf(q, size, cursor)) == Signature(s, PageOf(q, size, other))
    ensures Matches(s, PageOf(q, size, cursor)) == Matches(s, q)
    ensures FullSort(s, PageOf(q, size, cursor)) == FullSort(s, q)
  {
  }

  /** Some row ranks to this result, and it lies after the position. */
  ghost predicate RanksAfter<R>(rows: seq<R>, rank: R -> Option<SearchResult>, after: Option<Key>, r: SearchResult) {
    Lies(Some(r), after) && exists i :: 0 <= i < |rows| && rank(rows[i]) == Some(r)
  }

  /** The first results of a list that no others precede. */
  ghost predicate Leads(results: seq<SearchResult>, rest: seq<SearchResult>) {
    && (forall i, j :: 0 <= i < j < |results| ==> Better(results[i], results[j]))
    && forall r, x :: r in results && x in rest && x !in results ==> Better(r, x)
  }

  /**
   The page counts the candidates, shows the best of them in order, as many as fit, and points on from the last
   exactly if some are left.
   */
  ghost predicate PageShows(page: SearchPage, codec: Codec, signature: string, total: nat,
                            candidate: SearchResult -> bool, size: nat)
  {
    && page.totalCandidates == total && |page.results| == (if total <= size then total else size)
    && (forall r :: r in page.results ==> candidate(r))
    && (forall i, j :: 0 <= i < j < |page.results| ==> Better(page.results[i], page.results[j]))
    && (forall r, x :: r in page.results && candidate(x) && x !in page.results ==> Better(r, x))
    && (page.nextCursor.Some? <==> total > size)
    && (page.nextCursor.Some? ==>
          && page.results != []
          && page.nextCursor.value == EncodeCursor(codec, page.results[|page.results| - 1], signature))
  }

  /** A page, read off the rows: its candidates are the results of the rows that rank behind the position. */
  ghost predicate PageOfRows<R>(page: SearchPage, codec: Codec, signature: string, rows: seq<R>,
                                rank: R -> Option<SearchResult>, after: Option<Key>, size: nat)
  {
    PageShows(page, codec, signature, |RowsAfter(rows, rank, after)|,
              (r: SearchResult) => RanksAfter(rows, rank, after, r), size)
  }

  /** What lies after a position in the full sort, told by the rows. */
  lemma RestOfRows<R>(rows: seq<R>, rank: R -> Option<SearchResult>, after: Option<Key>)
    requires RowsDiffer(rows, rank)
    ensures var rest := After(Sort(Eligible(rows, rank)), after);
            && Ascending(rest) && |rest| == |RowsAfter(rows, rank, after)|
            && forall r :: r in rest <==> RanksAfter(rows, rank, after, r)
  {
    var all := Eligible(rows, rank);
    EligibleDiffer(rows, rank);
    SortAscending(all);
    AfterKeeps(Sort(all), after);
    SortAfter(all, after);
    AfterCounts(rows, rank, after);
    forall r ensures r in After(Sort(all), after) <==> RanksAfter(rows, rank, after, r) {
      EligibleExactly(rows, rank, r);
    }
  }

  lemma FirstAreBest(rest: seq<SearchResult>, n: nat)
    requires Ascending(rest) && n <= |rest|
    ensures Leads(rest[..n], rest)
  {
    forall i, j | 0 <= i < j < |rest| ensures Better(rest[i], rest[j]) { KeysOrderByRank(rest[i], rest[j]); }
    forall k | 0 <= k < n ensures rest[k] in rest[..n] { assert rest[..n][k] == rest[k]; }
    forall r, x | r in rest[..n] && x in rest && x !in rest[..n] ensures Better(r, x) {
      var i :| 0 <= i < n && rest[i] == r;
      var j :| 0 <= j < |rest| && rest[j] == x;
    }
  }

  lemma PageOfRest(page: SearchPage, codec: Codec, signature: string, rest: seq<SearchResult>,
                   candidate: SearchResult -> bool, size: nat)
    requires size >= 1 && ShowsFirst(page, codec, signature, rest, size) && Ascending(rest)
    requires forall r :: r in rest <==> candidate(r)
    ensures PageShows(page, codec, signature, |rest|, candidate, size)
  {
    assert page.results == rest[..|page.results|];
    FirstAreBest(rest, |page.results|);
  }

  lemma PageFromRows<R>(page: SearchPage, codec: Codec, signature: string, rows: seq<R>,
                        rank: R -> Option<SearchResult>, after: Option<Key>, size: nat)
    requires size >= 1 && RowsDiffer(rows, rank)
    requires IsPage(page, codec, signature, Sort(Eligible(rows, rank)), after, size)
    ensures PageOfRows(page, codec, signature, rows, rank, after, size)
  {
    RestOfRows(rows, rank, after);
    PageOfRest(page, codec, signature, After(Sort(Eligible(rows, rank)), after),
               (r: SearchResult) => RanksAfter(rows, rank, after, r), size);
  }

  /** A digest that tells payloads apart, as SHA-256 is taken to do. */
  ghost predicate TellsApart(digest: SignaturePayload -> string) {
    forall a, b :: digest(a) == digest(b) ==> a == b
  }

  /**
   The cursor of one query's page is good for a query exactly if that asks for the same criteria and page size,
   whatever its own cursor; any other refuses it. No cursor, or an empty one, is the start.
   */
  lemma CursorOfOtherQuery<R>(s: SearchService<R>, q: Query, other: Query, r: SearchResult)
    requires Faithful(s.codec) && TellsApart(s.digest)
    ensures StartOf(s.codec, Some(EncodeCursor(s.codec, r, Signature(s, q))), Signature(s, other))
            == if other.criteria == q.criteria && other.pageSize == q.pageSize then Ok(Some(SortKey(r)))
               else Err(ForeignCursor)
    ensures StartOf(s.codec, None, Signature(s, q)) == StartOf(s.codec, Some(""), Signature(s, q)) == Ok(None)
  {
    CursorRoundTrip(s.codec, r, Signature(s, q), Signature(s, other));
  }

  /** search: filter and rank the rows, keep those after the cursor, sort, cut a page. */
  method SearchFor<R>(s: SearchService<R>, q: Query) returns (r: Result<SearchPage, SearchError>)
    requires RowsDiffer(s.rows(q.criteria), s.rank(q.criteria))
    ensures r.Ok? <==> 1 <= q.pageSize <= 100 && StartOf(s.codec, q.cursor, Signature(s, q)).Ok?
    ensures !(1 <= q.pageSize <= 100) ==> r == Err(InvalidPageSize)
    ensures 1 <= q.pageSize <= 100 && r.Err? ==> StartOf(s.codec, q.cursor, Signature(s, q)) == Err(r.error)
    ensures r.Ok? ==> IsPage(r.value, s.codec, Signature(s, q), FullSort(s, q),
                             StartOf(s.codec, q.cursor, Signature(s, q)).value, q.pageSize)
    ensures r.Ok? ==> PageOfRows(r.value, s.codec, Signature(s, q), s.rows(q.criteria), s.rank(q.criteria),
                                 StartOf(s.codec, q.cursor, Signature(s, q)).value, q.pageSize)
  {
    EligibleDiffer(s.rows(q.criteria), s.rank(q.criteria));
    if !(1 <= q.pageSize <= 100) { return Err(InvalidPageSize); }
    var signature := Signature(s, q);
    var start := StartOf(s.codec, q.cursor, signature);
    if start.Err? { return Err(start.error); }
    var ranked := RankedAfter(s.rows(q.criteria), s.rank(q.criteria), start.value);
    SortAfter(Matches(s, q), start.value);
    var page := CutPage(s.codec, Sort(ranked), signature, q.pageSize);
    CutShowsFirst(s.codec, signature, Sort(ranked), q.pageSize);
    PageFromRows(page, s.codec, signature, s.rows(q.criteria), s.rank(q.criteria), start.value, q.pageSize);
    return Ok(page);
  }

  /** The loop of search: the ranked rows after the cursor. */
  method RankedAfter<R>(rows: seq<R>, rank: R -> Option<SearchResult>, after: Option<Key>)
    returns (ranked: seq<SearchResult>)
    ensures ranked == After(Eligible(rows, rank), after)
    ensures |ranked| == |RowsAfter(rows, rank, after)|
    ensures forall r :: r in ranked <==> RanksAfter(rows, rank, after, r)
  {
    ranked := [];
    for i := 0 to |rows|
      invariant ranked == After(Eligible(rows[..i], rank), after)
    {
      assert rows[..i + 1][..i] == rows[..i];
      var result := rank(rows[i]);
      if result.None? { continue; }
      var before := Eligible(rows[..i], rank);
      assert (before + [result.value])[..|before|] == before;
      if after.None? || KeyLess(after.value, SortKey(result.value)) {
        ranked := ranked + [result.value];
      }
    }
    assert rows[..|rows|] == rows;
    AfterCounts(rows, rank, after);
    forall r ensures r in ranked <==> RanksAfter(rows, rank, after, r) { EligibleExactly(rows, rank, r); }
  }

  /** The first items, and a cursor to the last of them when there are more. */
  function CutPage(codec: Codec, ranked: seq<SearchResult>, signature: string, size: nat): SearchPage {
    var items := if |ranked| <= size then ranked else ranked[..size];
    var next := if |ranked| > size && items != []
                then Some(EncodeCursor(codec, items[|items| - 1], signature)) else None;
    SearchPage(items, next, |ranked|)
  }

  lemma CutShowsFirst(codec: Codec, signature: string, rest: seq<SearchResult>, size: nat)
    requires size >= 1
    ensures ShowsFirst(CutPage(codec, rest, signature, size), codec, signature, rest, size)
  {
    if |rest| > size { assert rest[..size] != [] && rest[..size][size - 1] == rest[size - 1]; }
  }

  /** Pages of `size` it takes to show n results, counted one page at a time. */
  function PageCount(n: nat, size: nat): nat
    requires size >= 1
    decreases n
  {
    if n <= size then 1 else 1 + PageCount(n - size, size)
  }

  lemma {:induction false} PageCountIsCeiling(n: nat, size: nat)
    requires size >= 1
    ensures n <= PageCount(n, size) * size
    ensures n > 0 ==> (PageCount(n, size) - 1) * size < n
    ensures n == 0 ==> PageCount(n, size) == 1
    decreases n
  {
    if n > size {
      PageCountIsCeiling(n - size, size);
      var k := PageCount(n - size, size);
      assert (k + 1) * size == k * size + size;
      assert k * size == (k - 1) * size + size;
    }
  }

  /** The position after the first i results. */
  function PositionAfter(sorted: seq<SearchResult>, i: nat): Option<Key>
    requires i <= |sorted|
  {
    if i == 0 then None else Some(SortKey(sorted[i - 1]))
  }

  lemma AfterPosition(sorted: seq<SearchResult>, i: nat)
    requires Ascending(sorted) && i <= |sorted|
    ensures After(sorted, PositionAfter(sorted, i)) == sorted[i..]
  {
    if i == 0 { AfterStart(sorted); } else { AfterIsSuffix(sorted, i - 1); }
  }

  lemma CursorStartsAfter(codec: Codec, r: SearchResult, signature: string)
    requires Faithful(codec)
    ensures StartOf(codec, Some(EncodeCursor(codec, r, signature)), signature) == Ok(Some(SortKey(r)))
  {
    CursorRoundTrip(codec, r, signature, signature);
  }

  /** The cursor a client holds after i results. */
  ghost function CursorAt(codec: Codec, signature: string, sorted: seq<SearchResult>, i: nat): Option<string>
    requires i <= |sorted|
  {
    if i == 0 then None else Some(EncodeCursor(codec, sorted[i - 1], signature))
  }

  lemma CursorAtStarts(codec: Codec, signature: string, sorted: seq<SearchResult>, i: nat)
    requires Faithful(codec) && i <= |sorted|
    ensures StartOf(codec, CursorAt(codec, signature, sorted, i), signature) == Ok(PositionAfter(sorted, i))
  {
    if i > 0 { CursorStartsAfter(codec, sorted[i - 1], signature); }
  }

  /** The page that starts after the first i results of the full sort. */
  ghost predicate PageAfter(page: SearchPage, codec: Codec, signature: string, sorted: seq<SearchResult>, i: nat,
                            size: nat)
    requires i <= |sorted|
  {
    && page.totalCandidates == |sorted| - i
    && if |sorted| <= i + size then page.nextCursor.None? && page.results == sorted[i..]
       else page.nextCursor == CursorAt(codec, signature, sorted, i + size) && page.results == sorted[i..i + size]
  }

  lemma PageAt(codec: Codec, signature: string, sorted: seq<SearchResult>, i: nat, size: nat, page: SearchPage)
    requires i <= |sorted| && size >= 1 && After(sorted, PositionAfter(sorted, i)) == sorted[i..]
    requires IsPage(page, codec, signature, sorted, PositionAfter(sorted, i), size)
    ensures PageAfter(page, codec, signature, sorted, i, size)
  {
    if |sorted| > i + size { Window(sorted, i, size); }
  }

  lemma Window(sorted: seq<SearchResult>, i: nat, size: nat)
    requires 1 <= size && i + size <= |sorted|
    ensures sorted[i..][size - 1] == sorted[i + size - 1] && sorted[i..][..size] == sorted[i..i + size]
  {
  }

  /** A search with the cursor held after i results answers with the page after them. */
  method NextPage<R>(s: SearchService<R>, q: Query, ghost i: nat) returns (page: SearchPage)
    requires Faithful(s.codec) && RowsDiffer(s.rows(q.criteria), s.rank(q.criteria)) && 1 <= q.pageSize <= 100
    requires i <= |FullSort(s, q)| && q.cursor == CursorAt(s.codec, Signature(s, q), FullSort(s, q), i)
    ensures PageAfter(page, s.codec, Signature(s, q), FullSort(s, q), i, q.pageSize)
  {
    ghost var sorted := FullSort(s, q);
    EligibleDiffer(s.rows(q.criteria), s.rank(q.criteria));
    SortAscending(Matches(s, q));
    CursorAtStarts(s.codec, Signature(s, q), sorted, i);
    var r := SearchFor(s, q);
    page := r.value;
    AfterPosition(sorted, i);
    PageAt(s.codec, Signature(s, q), sorted, i, q.pageSize, page);
  }

  /** What a client holds after the first `shown` results. */
  ghost predicate Following(all: seq<SearchResult>, pages: nat, cursor: Option<string>, shown: nat,
                            codec: Codec, signature: string, sorted: seq<SearchResult>, size: nat)
  {
    && size >= 1 && shown <= |sorted| && all == sorted[..shown]
    && PageCount(|sorted|, size) == pages + PageCount(|sorted| - shown, size)
    && cursor == CursorAt(codec, signature, sorted, shown)
  }

  lemma NothingShown(codec: Codec, signature: string, sorted: seq<SearchResult>, size: nat)
    requires size >= 1
    ensures Following([], 0, None, 0, codec, signature, sorted, size)
  {
  }

  lemma MorePages(all: seq<SearchResult>, pages: nat, cursor: Option<string>, shown: nat,
                  codec: Codec, signature: string, sorted: seq<SearchResult>, size: nat, page: SearchPage)
    requires Following(all, pages, cursor, shown, codec, signature, sorted, size)
    requires PageAfter(page, codec, signature, sorted, shown, size) && page.nextCursor.Some?
    ensures Following(all + page.results, pages + 1, page.nextCursor, shown + size, codec, signature, sorted, size)
    ensures shown + size < |sorted|
  {
    TakeMore(sorted, shown, shown + size);
  }

  lemma LastPage(all: seq<SearchResult>, pages: nat, cursor: Option<string>, shown: nat,
                 codec: Codec, signature: string, sorted: seq<SearchResult>, size: nat, page: SearchPage)
    requires Following(all, pages, cursor, shown, codec, signature, sorted, size)
    requires PageAfter(page, codec, signature, sorted, shown, size) && page.nextCursor.None?
    ensures all + page.results == sorted && pages + 1 == PageCount(|sorted|, size)
  {
    TakeMore(sorted, shown, |sorted|);
  }

  lemma TakeMore(sorted: seq<SearchResult>, i: nat, j: nat)
    requires i <= j <= |sorted|
    ensures sorted[..i] + sorted[i..j] == sorted[..j]
    ensures sorted[i..|sorted|] == sorted[i..] && sorted[..|sorted|] == sorted
  {
  }

  /** The full sort holds the result of every row that ranks, and no other, the better before the worse. */
  lemma FullSortTells<R>(s: SearchService<R>, q: Query)
    requires RowsDiffer(s.rows(q.criteria), s.rank(q.criteria))
    ensures forall r :: r in FullSort(s, q) <==>
                        exists i :: && 0 <= i < |s.rows(q.criteria)|
                                    && s.rank(q.criteria)(s.rows(q.criteria)[i]) == Some(r)
    ensures forall i, j :: 0 <= i < j < |FullSort(s, q)| ==> Better(FullSort(s, q)[i], FullSort(s, q)[j])
  {
    var rows, rank, all := s.rows(q.criteria), s.rank(q.criteria), FullSort(s, q);
    forall r ensures r in all <==> exists i :: 0 <= i < |rows| && rank(rows[i]) == Some(r) {
      EligibleExactly(rows, rank, r);
    }
    EligibleDiffer(rows, rank);
    SortAscending(Matches(s, q));
    forall i, j | 0 <= i < j < |all| ensures Better(all[i], all[j]) { KeysOrderByRank(all[i], all[j]); }
  }

  /**
   Following next_cursor from page to page until it is absent, each time with the query's cursor replaced: over
   unchanged rows the pages concatenate to exactly the full sort, with no gap and no duplicate, in
   as many pages as PageCountIsCeiling says.
   */
  method FollowCursors<R>(s: SearchService<R>, q: Query, size: int) returns (all: seq<SearchResult>, ghost pages: nat)
    requires Faithful(s.codec) && RowsDiffer(s.rows(q.criteria), s.rank(q.criteria)) && 1 <= size <= 100
    ensures all == FullSort(s, q)
    ensures pages == PageCount(|all|, size)
  {
    ghost var sorted, signature := FullSort(s, q), Signature(s, PageOf(q, size, None));
    all, pages := [], 0;
    var cursor: Option<string> := None;
    ghost var shown: nat := 0;
    NothingShown(s.codec, signature, sorted, size);
    while true
      invariant Following(all, pages, cursor, shown, s.codec, signature, sorted, size)
      decreases |sorted| - shown
    {
      CursorNotSigned(s, q, size, cursor, None);
      var page := NextPage(s, PageOf(q, size, cursor), shown);
      if page.nextCursor.None? {
        LastPage(all, pages, cursor, shown, s.codec, signature, sorted, size, page);
        all, pages := all + page.results, pages + 1;
        return;
      }
      MorePages(all, pages, cursor, shown, s.codec, signature, sorted, size, page);
      all, pages, shown := all + page.results, pages + 1, shown + size;
      cursor := page.nextCursor;
      assert Following(all, pages, cursor, shown, s.codec, signature, sorted, size);
    }
  }

  /** The pages together, read off the rows: the result of each row that ranks, and no other, the best first. */
  method FollowPages<R>(s: SearchService<R>, q: Query, size: int) returns (all: seq<SearchResult>, ghost pages: nat)
    requires Faithful(s.codec) && RowsDiffer(s.rows(q.criteria), s.rank(q.criteria)) && 1 <= size <= 100
    ensures all == FullSort(s, q) && pages == PageCount(|all|, size)
    ensures forall r :: r in all <==>
                        exists i :: && 0 <= i < |s.rows(q.criteria)|
                                    && s.rank(q.criteria)(s.rows(q.criteria)[i]) == Some(r)
    ensures forall i, j :: 0 <= i < j < |all| ==> Better(all[i], all[j])
  {
    all, pages := FollowCursors(s, q, size);
    FullSortTells(s, q);
  }
}
