/**
 The canonical inventory as a materialised view: source records grouped by duplicate fingerprint,
 one canonical row per group, and a lifecycle log.
 */
module Inventory {
  import opened Wrappers
  import opened Text
  import opened Listings

  /** Any fingerprint function: the view is right whatever it computes. */
  type Fingerprint = Candidate -> string

  datatype SourceRow = SourceRow(candidate: Candidate, fingerprint: string)

  datatype CanonicalRow = CanonicalRow(
    fingerprint: string, activeSource: SourceKey, state: ListingState, columns: Columns, lastVerifiedAt: int)

  datatype Membership = Membership(canonicalId: string, source: SourceKey)

  datatype LifecycleEvent = LifecycleEvent(
    canonicalId: string, fromState: Option<ListingState>, toState: ListingState, reason: string, actorId: string)

  datatype InventoryError =
    | IngestionRefused
    | IntegrityViolation
    | ReasonAndActorRequired
    | UnknownCanonical
    | InvalidTransition

  /** A canonical id carries the first twenty characters of the fingerprint. */
  function CanonicalId(fingerprint: string): string {
    "CAN-" + (if |fingerprint| <= 20 then fingerprint else fingerprint[..20])
  }

  // ------------------------------------------------------------------------
  // The tables, and the calls on them as functions

  datatype Tables = Tables(
    sources: map<SourceKey, SourceRow>,
    canonicals: map<string, CanonicalRow>,
    members: seq<Membership>,
    lifecycle: seq<LifecycleEvent>)

  const EMPTY_TABLES := Tables(map[], map[], [], [])

  function Initial(c: Candidate, fp: string): CanonicalRow {
    CanonicalRow(fp, SourceKeyOf(c), c.state, c.columns, c.lastVerifiedAt)
  }

  /** The row after a group's new member: it takes over only if verified strictly later. State stays. */
  function Refreshed(row: CanonicalRow, c: Candidate): CanonicalRow {
    if c.lastVerifiedAt > row.lastVerifiedAt
    then row.(activeSource := SourceKeyOf(c), columns := c.columns, lastVerifiedAt := c.lastVerifiedAt)
    else row
  }

  /** add_source. A source version already stored returns at once, with the id made from the new fingerprint. */
  function AddStep(t: Tables, f: Fingerprint, c: Candidate, actorId: string): Result<(Tables, string), InventoryError> {
    if !IngestionAllowed(c) then Err(IngestionRefused) else
    var fp, key := f(c), SourceKeyOf(c);
    var id := CanonicalId(fp);
    if key in t.sources then Ok((t, id)) else
    var sources := t.sources[key := SourceRow(c, fp)];
    var members := t.members + [Membership(id, key)];
    if id in t.canonicals && t.canonicals[id].fingerprint == fp then
      Ok((Tables(sources, t.canonicals[id := Refreshed(t.canonicals[id], c)], members, t.lifecycle), id))
    else if id in t.canonicals then Err(IntegrityViolation)
    else if IsBlank(actorId) then Err(ReasonAndActorRequired)
    else
      Ok((Tables(sources, t.canonicals[id := Initial(c, fp)], members,
                 t.lifecycle + [LifecycleEvent(id, None, c.state, "CANONICAL_CREATED", actorId)]), id))
  }

  /** transition: asking for the current state changes nothing, not even the log. */
  function TransitionStep(t: Tables, id: string, target: ListingState, reason: string, actorId: string)
    : Result<Tables, InventoryError>
  {
    if id !in t.canonicals then Err(UnknownCanonical) else
    var current := t.canonicals[id].state;
    var resolved := TransitionListing(current, target);
    if resolved.None? then Err(InvalidTransition)
    else if resolved.value == current then Ok(t)
    else if IsBlank(reason) || IsBlank(actorId) then Err(ReasonAndActorRequired)
    else
      Ok(t.(canonicals := t.canonicals[id := t.canonicals[id].(state := resolved.value)],
            lifecycle := t.lifecycle + [LifecycleEvent(id, Some(current), resolved.value, reason, actorId)]))
  }

  datatype Step =
    | Add(c: Candidate, actorId: string)
    | Transition(id: string, target: ListingState, reason: string, actorId: string)

  /** A failing call is rolled back. */
  function Exec(f: Fingerprint, t: Tables, step: Step): Tables {
    match step
    case Add(c, actor) => (match AddStep(t, f, c, actor) case Ok(r) => r.0 case Err(_) => t)
    case Transition(id, target, reason, actor) =>
      (match TransitionStep(t, id, target, reason, actor) case Ok(t') => t' case Err(_) => t)
  }

  function Run(f: Fingerprint, t: Tables, steps: seq<Step>): Tables {
    if steps == [] then t else Exec(f, Run(f, t, steps[..|steps| - 1]), steps[|steps| - 1])
  }

  // ------------------------------------------------------------------------
  // What the calls ask for and what they leave

  lemma CanonicalIdExactly(fingerprint: string)
    ensures var id := CanonicalId(fingerprint);
            && |id| >= 4 && id[..4] == "CAN-" && id[4..] <= fingerprint
            && |id| == (if |fingerprint| < 20 then 4 + |fingerprint| else 24)
  {
  }

  /** A submission of this source version is stored. */
  ghost predicate Known(t: Tables, c: Candidate) {
    exists k :: k in t.sources && SameSource(t.sources[k].candidate, c)
  }

  lemma KnownExactly(t: Tables, f: Fingerprint, c: Candidate)
    requires SourcesKeyed(t, f)
    ensures Known(t, c) <==> SourceKeyOf(c) in t.sources
  {
    if SourceKeyOf(c) in t.sources { KeysExactly(t.sources[SourceKeyOf(c)].candidate, c); }
    if k :| k in t.sources && SameSource(t.sources[k].candidate, c) { KeysExactly(t.sources[k].candidate, c); }
  }

  /**
   When a submission is taken: it is complete and rightful, and it is known, or joins a group of its fingerprint, or
   founds one under an id that is free, in the name of an actor.
   */
  lemma AddAcceptedExactly(t: Tables, f: Fingerprint, c: Candidate, actorId: string)
    requires SourcesKeyed(t, f)
    ensures AddStep(t, f, c, actorId).Ok? <==>
            && !IsBlank(c.listingId) && !IsBlank(c.sourceRef) && !IsBlank(c.publisherId)
            && c.columns.priceMinor >= 0 && c.columns.areaSqm > 0.0
            && (c.columns.bedrooms == None || c.columns.bedrooms.value >= 0) && c.sourceUpdatedAt <= c.lastVerifiedAt
            && (|| c.latitude == None == c.longitude
                || (&& c.latitude != None && c.longitude != None
                    && -90.0 <= c.latitude.value <= 90.0 && -180.0 <= c.longitude.value <= 180.0))
            && (c.rights == OwnerSubmitted || c.rights == PartnerFeed || c.rights == LicensedData)
            && var id := CanonicalId(f(c));
               || Known(t, c)
               || (id in t.canonicals && t.canonicals[id].fingerprint == f(c))
               || (id !in t.canonicals && !IsBlank(actorId))
  {
    KnownExactly(t, f, c);
  }

  /** A submission is refused for what it is, for a group of another fingerprint under its id, or for no actor. */
  lemma AddRefusedExactly(t: Tables, f: Fingerprint, c: Candidate, actorId: string)
    requires SourcesKeyed(t, f)
    ensures var r, id := AddStep(t, f, c, actorId), CanonicalId(f(c));
            && (r == Err(IngestionRefused) <==> !IngestionAllowed(c))
            && (r == Err(IntegrityViolation) <==>
                  IngestionAllowed(c) && !Known(t, c) && id in t.canonicals && t.canonicals[id].fingerprint != f(c))
            && (r == Err(ReasonAndActorRequired) <==>
                  IngestionAllowed(c) && !Known(t, c) && id !in t.canonicals && IsBlank(actorId))
  {
    KnownExactly(t, f, c);
  }

  /** The row of the group that a new source has joined or founded. */
  ghost predicate RowAfter(t: Tables, id: string, fp: string, c: Candidate, key: SourceKey, row: CanonicalRow) {
    if id !in t.canonicals then row == CanonicalRow(fp, key, c.state, c.columns, c.lastVerifiedAt)
    else if c.lastVerifiedAt > t.canonicals[id].lastVerifiedAt
    then row == CanonicalRow(fp, key, t.canonicals[id].state, c.columns, c.lastVerifiedAt)
    else row == t.canonicals[id]
  }

  /** The source is stored as it came, in its group and no other; a new group is told of in the log. */
  ghost predicate Stored(t: Tables, fp: string, c: Candidate, actorId: string, after: Tables, id: string,
                         key: SourceKey)
  {
    && key !in t.sources && after.sources == t.sources[key := SourceRow(c, fp)]
    && after.members == t.members + [Membership(id, key)]
    && id in after.canonicals && RowAfter(t, id, fp, c, key, after.canonicals[id])
    && after.canonicals[id].lastVerifiedAt >= c.lastVerifiedAt
    && after.canonicals == t.canonicals[id := after.canonicals[id]]
    && after.lifecycle ==
       t.lifecycle + (if id in t.canonicals then []
                      else [LifecycleEvent(id, None, c.state, "CANONICAL_CREATED", actorId)])
  }

  /** What an accepted submission leaves: nothing new if it is known, and otherwise itself, in its group. */
  lemma AddExactly(t: Tables, f: Fingerprint, c: Candidate, actorId: string)
    requires SourcesKeyed(t, f) && AddStep(t, f, c, actorId).Ok?
    ensures var (after, id) := AddStep(t, f, c, actorId).value;
            && id == CanonicalId(f(c)) && Known(after, c)
            && if Known(t, c) then after == t
               else exists key :: Stored(t, f(c), c, actorId, after, id, key)
  {
    KnownExactly(t, f, c);
    var (after, id) := AddStep(t, f, c, actorId).value;
    if !Known(t, c) {
      assert after.sources[SourceKeyOf(c)].candidate == c;
      assert t.lifecycle + [] == t.lifecycle;
      assert Stored(t, f(c), c, actorId, after, id, SourceKeyOf(c));
    }
  }

  /** When a listing moves, and what that leaves: the new state, and an entry that tells the move, by whom and why. */
  lemma MoveExactly(t: Tables, id: string, target: ListingState, reason: string, actorId: string)
    ensures var r := TransitionStep(t, id, target, reason, actorId);
            && (r.Ok? <==>
                  && id in t.canonicals
                  && (|| t.canonicals[id].state == target
                      || (t.canonicals[id].state in Origins(target) && !IsBlank(reason) && !IsBlank(actorId))))
            && (r == Err(UnknownCanonical) <==> id !in t.canonicals)
            && (r == Err(InvalidTransition) <==>
                  id in t.canonicals && t.canonicals[id].state != target
                  && t.canonicals[id].state !in Origins(target))
            && (r == Err(ReasonAndActorRequired) <==>
                  id in t.canonicals && t.canonicals[id].state != target && t.canonicals[id].state in Origins(target)
                  && (IsBlank(reason) || IsBlank(actorId)))
            && (r.Ok? && t.canonicals[id].state == target ==> r.value == t)
            && (r.Ok? && t.canonicals[id].state != target ==>
                  && r.value.canonicals == t.canonicals[id := t.canonicals[id].(state := target)]
                  && r.value.lifecycle ==
                     t.lifecycle + [LifecycleEvent(id, Some(t.canonicals[id].state), target, reason, actorId)]
                  && r.value.sources == t.sources && r.value.members == t.members)
  {
    if id in t.canonicals { TransitionExactly(t.canonicals[id].state, target); }
  }

  // ------------------------------------------------------------------------
  // The view, defined from the source records alone

  /** A group's sources in the order they were added. */
  function MembersOf(members: seq<Membership>, id: string): seq<SourceKey> {
    if members == [] then [] else
    var rest, last := MembersOf(members[..|members| - 1], id), members[|members| - 1];
    if last.canonicalId == id then rest + [last.source] else rest
  }

  function Verified(t: Tables, key: SourceKey): int
    requires key in t.sources
  {
    t.sources[key].candidate.lastVerifiedAt
  }

  /** a is the earliest-added of the group's most recently verified sources. */
  ghost predicate EarliestLatest(t: Tables, group: seq<SourceKey>, a: SourceKey)
    requires forall k :: k in group ==> k in t.sources
  {
    exists i :: 0 <= i < |group| && group[i] == a
                && (forall j :: 0 <= j < |group| ==> Verified(t, group[j]) <= Verified(t, a))
                && (forall j :: 0 <= j < i ==> Verified(t, group[j]) < Verified(t, a))
  }

  /** A group's log entries, in order. */
  function LogOf(lifecycle: seq<LifecycleEvent>, id: string): seq<LifecycleEvent> {
    if lifecycle == [] then [] else
    var rest, last := LogOf(lifecycle[..|lifecycle| - 1], id), lifecycle[|lifecycle| - 1];
    if last.canonicalId == id then rest + [last] else rest
  }

  /** The log starts from nothing, each entry continues the one before, and every change is allowed. */
  ghost predicate LinkAt(log: seq<LifecycleEvent>, i: nat)
    requires i < |log|
  {
    && !IsBlank(log[i].reason) && !IsBlank(log[i].actorId)
    && if i == 0 then log[i].fromState.None?
       else log[i].fromState == Some(log[i - 1].toState) && log[i].toState in AllowedTransitions(log[i - 1].toState)
  }

  ghost predicate LogChained(log: seq<LifecycleEvent>) {
    forall i :: 0 <= i < |log| ==> LinkAt(log, i)
  }

  /** The row copies the earliest member of its group verified last. */
  ghost predicate ActiveAgrees(t: Tables, row: CanonicalRow, group: seq<SourceKey>) {
    && (forall k :: k in group ==> k in t.sources && t.sources[k].fingerprint == row.fingerprint)
    && EarliestLatest(t, group, row.activeSource)
    && row.columns == t.sources[row.activeSource].candidate.columns
    && row.lastVerifiedAt == t.sources[row.activeSource].candidate.lastVerifiedAt
  }

  /** What a canonical row must say, given the source records and the log. */
  ghost predicate RowAgrees(t: Tables, id: string)
    requires id in t.canonicals
  {
    var row, group, log := t.canonicals[id], MembersOf(t.members, id), LogOf(t.lifecycle, id);
    && id == CanonicalId(row.fingerprint)
    && ActiveAgrees(t, row, group)
    && LogAgrees(row, log, t.sources[group[0]].candidate.state)
  }

  /** The row's state is where its log ends, and the log starts with the state of the first member. */
  ghost predicate LogAgrees(row: CanonicalRow, log: seq<LifecycleEvent>, first: ListingState) {
    log != [] && LogChained(log) && row.state == log[|log| - 1].toState && log[0].toState == first
  }

  /** Each stored source is in exactly one group, and every group has a row. */
  ghost predicate Grouped(t: Tables) {
    && (forall i :: 0 <= i < |t.members| ==>
                      t.members[i].source in t.sources && t.members[i].canonicalId in t.canonicals)
    && (forall i, j :: 0 <= i < j < |t.members| ==> t.members[i].source != t.members[j].source)
    && (forall k :: k in t.sources ==> exists i :: 0 <= i < |t.members| && t.members[i].source == k)
  }

  ghost predicate SourcesKeyed(t: Tables, f: Fingerprint) {
    forall k :: k in t.sources ==> var row := t.sources[k];
                                   SourceKeyOf(row.candidate) == k && row.fingerprint == f(row.candidate)
                                   && IngestionAllowed(row.candidate)
  }

  ghost predicate RowsAgree(t: Tables) {
    forall id {:trigger RowAgrees(t, id)} :: id in t.canonicals ==> RowAgrees(t, id)
  }

  /** Without a row there are neither members nor log entries. */
  ghost predicate NoStrays(t: Tables) {
    forall id :: id !in t.canonicals ==> MembersOf(t.members, id) == [] && LogOf(t.lifecycle, id) == []
  }

  ghost predicate Sound(t: Tables, f: Fingerprint) {
    Grouped(t) && SourcesKeyed(t, f) && RowsAgree(t) && NoStrays(t)
  }

  // ------------------------------------------------------------------------
  // Every call keeps the view

  lemma MembersGrow(members: seq<Membership>, m: Membership, id: string)
    ensures MembersOf(members + [m], id)
            == if m.canonicalId == id then MembersOf(members, id) + [m.source] else MembersOf(members, id)
  {
    assert (members + [m])[..|members|] == members;
  }

  lemma LogGrows(lifecycle: seq<LifecycleEvent>, e: LifecycleEvent, id: string)
    ensures LogOf(lifecycle + [e], id)
            == if e.canonicalId == id then LogOf(lifecycle, id) + [e] else LogOf(lifecycle, id)
  {
    assert (lifecycle + [e])[..|lifecycle|] == lifecycle;
  }

  /** A group untouched by a call keeps its row. */
  lemma UntouchedRowAgrees(t: Tables, t': Tables, id: string)
    requires id in t.canonicals && RowAgrees(t, id)
    requires id in t'.canonicals && t'.canonicals[id] == t.canonicals[id]
    requires forall k :: k in t.sources ==> k in t'.sources && t'.sources[k] == t.sources[k]
    requires MembersOf(t'.members, id) == MembersOf(t.members, id) && LogOf(t'.lifecycle, id) == LogOf(t.lifecycle, id)
    ensures RowAgrees(t', id)
  {
    var group, a := MembersOf(t.members, id), t.canonicals[id].activeSource;
    ActiveIsStored(t, group, a);
    UntouchedActiveAgrees(t, t', t.canonicals[id], group);
    assert group[0] in group && t'.sources[group[0]] == t.sources[group[0]];
    assert LogAgrees(t.canonicals[id], LogOf(t.lifecycle, id), t.sources[group[0]].candidate.state);
  }

  lemma UntouchedActiveAgrees(t: Tables, t': Tables, row: CanonicalRow, group: seq<SourceKey>)
    requires ActiveAgrees(t, row, group)
    requires forall k :: k in t.sources ==> k in t'.sources && t'.sources[k] == t.sources[k]
    ensures ActiveAgrees(t', row, group)
  {
    ActiveIsStored(t, group, row.activeSource);
    SameLatest(t, t', group, row.activeSource);
  }

  /** The call from t to t' concerned the group id only. */
  ghost predicate OnlyGroup(t: Tables, t': Tables, id: string) {
    && t'.canonicals.Keys == t.canonicals.Keys + {id}
    && (forall x :: x in t.canonicals && x != id ==> t'.canonicals[x] == t.canonicals[x])
    && (forall x :: x != id ==> MembersOf(t'.members, x) == MembersOf(t.members, x))
    && (forall x :: x != id ==> LogOf(t'.lifecycle, x) == LogOf(t.lifecycle, x))
    && (forall k :: k in t.sources ==> k in t'.sources && t'.sources[k] == t.sources[k])
  }

  /** When a call concerns one group, the rows of all others still agree. */
  lemma OneRowChanged(t: Tables, t': Tables, id: string)
    requires RowsAgree(t) && NoStrays(t) && OnlyGroup(t, t', id) && RowAgrees(t', id)
    ensures RowsAgree(t') && NoStrays(t')
  {
    forall x | x in t'.canonicals ensures RowAgrees(t', x) {
      if x != id {
        assert RowAgrees(t, x);
        UntouchedRowAgrees(t, t', x);
      }
    }
  }

  lemma ChainGrows(log: seq<LifecycleEvent>, e: LifecycleEvent)
    requires LogChained(log) && log != [] && !IsBlank(e.reason) && !IsBlank(e.actorId)
    requires e.fromState == Some(log[|log| - 1].toState) && e.toState in AllowedTransitions(log[|log| - 1].toState)
    ensures LogChained(log + [e])
  {
    var next := log + [e];
    forall i | 0 <= i < |next| ensures LinkAt(next, i) {
      if i < |log| { assert LinkAt(log, i); }
    }
  }

  lemma NewGroupAgrees(t: Tables, t': Tables, id: string, c: Candidate, e: LifecycleEvent)
    requires id in t'.canonicals && t'.canonicals[id] == Initial(c, t'.canonicals[id].fingerprint)
    requires id == CanonicalId(t'.canonicals[id].fingerprint)
    requires SourceKeyOf(c) in t'.sources && t'.sources[SourceKeyOf(c)] == SourceRow(c, t'.canonicals[id].fingerprint)
    requires MembersOf(t'.members, id) == [SourceKeyOf(c)] && LogOf(t'.lifecycle, id) == [e]
    requires e.fromState.None? && e.toState == c.state && !IsBlank(e.reason) && !IsBlank(e.actorId)
    ensures RowAgrees(t', id)
  {
    var group := [SourceKeyOf(c)];
    assert group[0] == SourceKeyOf(c);
    assert EarliestLatest(t', group, SourceKeyOf(c));
  }

  /** A newcomer takes over as earliest-latest exactly when it is verified strictly later. */
  lemma LatestJoins(t: Tables, t': Tables, group: seq<SourceKey>, a: SourceKey, key: SourceKey)
    requires forall k :: k in group ==> k in t.sources && k in t'.sources && t'.sources[k] == t.sources[k]
    requires key in t'.sources && EarliestLatest(t, group, a)
    ensures EarliestLatest(t', group + [key], if Verified(t', key) > Verified(t, a) then key else a)
  {
    var next := group + [key];
    var i :| 0 <= i < |group| && group[i] == a
             && (forall j :: 0 <= j < |group| ==> Verified(t, group[j]) <= Verified(t, a))
             && (forall j :: 0 <= j < i ==> Verified(t, group[j]) < Verified(t, a));
    forall j | 0 <= j < |group| ensures next[j] == group[j] && Verified(t', next[j]) == Verified(t, group[j]) {
      assert group[j] in group;
    }
    assert next[|group|] == key && next[i] == a;
  }

  lemma SameLatest(t: Tables, t': Tables, group: seq<SourceKey>, a: SourceKey)
    requires forall k :: k in group ==> k in t.sources && k in t'.sources && t'.sources[k] == t.sources[k]
    requires EarliestLatest(t, group, a)
    ensures EarliestLatest(t', group, a)
  {
    var i :| 0 <= i < |group| && group[i] == a
             && (forall j :: 0 <= j < |group| ==> Verified(t, group[j]) <= Verified(t, a))
             && (forall j :: 0 <= j < i ==> Verified(t, group[j]) < Verified(t, a));
    forall j | 0 <= j < |group| ensures Verified(t', group[j]) == Verified(t, group[j]) { assert group[j] in group; }
  }

  lemma ActiveIsStored(t: Tables, group: seq<SourceKey>, a: SourceKey)
    requires forall k :: k in group ==> k in t.sources
    requires EarliestLatest(t, group, a)
    ensures a in group && group != []
  {
  }

  /** Adding a member to a group moves the active source exactly when the newcomer is verified strictly later. */
  lemma JoinedGroupAgrees(t: Tables, t': Tables, id: string, c: Candidate)
    requires id in t.canonicals && RowAgrees(t, id)
    requires SourceKeyOf(c) !in t.sources
    requires t'.sources == t.sources[SourceKeyOf(c) := SourceRow(c, t.canonicals[id].fingerprint)]
    requires id in t'.canonicals && t'.canonicals[id] == Refreshed(t.canonicals[id], c)
    requires MembersOf(t'.members, id) == MembersOf(t.members, id) + [SourceKeyOf(c)]
    requires LogOf(t'.lifecycle, id) == LogOf(t.lifecycle, id)
    ensures RowAgrees(t', id)
  {
    var key, group, a := SourceKeyOf(c), MembersOf(t.members, id), t.canonicals[id].activeSource;
    ActiveIsStored(t, group, a);
    LatestJoins(t, t', group, a, key);
    assert (group + [key])[0] == group[0];
    assert group[0] in group;
  }

  lemma AddKeepsGroups(t: Tables, c: Candidate, fp: string, id: string, canonicals: map<string, CanonicalRow>,
                       lifecycle: seq<LifecycleEvent>)
    requires Grouped(t) && SourceKeyOf(c) !in t.sources
    requires t.canonicals.Keys <= canonicals.Keys && id in canonicals
    ensures Grouped(Tables(t.sources[SourceKeyOf(c) := SourceRow(c, fp)], canonicals,
                           t.members + [Membership(id, SourceKeyOf(c))], lifecycle))
  {
    var key := SourceKeyOf(c);
    var members := t.members + [Membership(id, key)];
    var sources := t.sources[key := SourceRow(c, fp)];
    forall k | k in sources ensures exists i :: 0 <= i < |members| && members[i].source == k {
      if k == key {
        assert members[|t.members|].source == key;
      } else {
        var i :| 0 <= i < |t.members| && t.members[i].source == k;
        assert members[i].source == k;
      }
    }
  }

  lemma MembersAfterAdd(members: seq<Membership>, id: string, key: SourceKey)
    ensures forall x :: MembersOf(members + [Membership(id, key)], x)
                        == if x == id then MembersOf(members, x) + [key] else MembersOf(members, x)
  {
    forall x ensures MembersOf(members + [Membership(id, key)], x)
                     == if x == id then MembersOf(members, x) + [key] else MembersOf(members, x)
    {
      MembersGrow(members, Membership(id, key), x);
    }
  }

  lemma LogAfterAppend(lifecycle: seq<LifecycleEvent>, e: LifecycleEvent)
    ensures forall x :: LogOf(lifecycle + [e], x)
                        == if x == e.canonicalId then LogOf(lifecycle, x) + [e] else LogOf(lifecycle, x)
  {
    forall x ensures LogOf(lifecycle + [e], x)
                     == if x == e.canonicalId then LogOf(lifecycle, x) + [e] else LogOf(lifecycle, x)
    {
      LogGrows(lifecycle, e, x);
    }
  }

  lemma TransitionConcerns(t: Tables, id: string, row: CanonicalRow, e: LifecycleEvent)
    requires id in t.canonicals && e.canonicalId == id
    ensures OnlyGroup(t, t.(canonicals := t.canonicals[id := row], lifecycle := t.lifecycle + [e]), id)
  {
    LogAfterAppend(t.lifecycle, e);
  }

  lemma AddConcerns(t: Tables, key: SourceKey, source: SourceRow, id: string, row: CanonicalRow,
                    events: seq<LifecycleEvent>)
    requires key !in t.sources && |events| <= 1 && forall e :: e in events ==> e.canonicalId == id
    ensures OnlyGroup(t, Tables(t.sources[key := source], t.canonicals[id := row], t.members + [Membership(id, key)],
                                t.lifecycle + events), id)
  {
    MembersAfterAdd(t.members, id, key);
    if events == [] {
      assert t.lifecycle + events == t.lifecycle;
    } else {
      assert events == [events[0]] && events[0] in events;
      LogAfterAppend(t.lifecycle, events[0]);
    }
  }

  lemma KeyedAfterAdd(t: Tables, t': Tables, f: Fingerprint, c: Candidate)
    requires SourcesKeyed(t, f) && IngestionAllowed(c) && t'.sources == t.sources[SourceKeyOf(c) := SourceRow(c, f(c))]
    ensures SourcesKeyed(t', f)
  {
  }

  /** A new source joins an existing group. */
  lemma JoinKeepsSound(t: Tables, f: Fingerprint, c: Candidate)
    requires Sound(t, f) && IngestionAllowed(c) && SourceKeyOf(c) !in t.sources
    requires CanonicalId(f(c)) in t.canonicals && t.canonicals[CanonicalId(f(c))].fingerprint == f(c)
    ensures var id, key := CanonicalId(f(c)), SourceKeyOf(c);
            Sound(Tables(t.sources[key := SourceRow(c, f(c))], t.canonicals[id := Refreshed(t.canonicals[id], c)],
                         t.members + [Membership(id, key)], t.lifecycle), f)
  {
    var id, key := CanonicalId(f(c)), SourceKeyOf(c);
    var t' := Tables(t.sources[key := SourceRow(c, f(c))], t.canonicals[id := Refreshed(t.canonicals[id], c)],
                     t.members + [Membership(id, key)], t.lifecycle);
    AddKeepsGroups(t, c, f(c), id, t'.canonicals, t.lifecycle);
    MembersGrow(t.members, Membership(id, key), id);
    assert RowAgrees(t, id);
    JoinedGroupAgrees(t, t', id, c);
    assert t.lifecycle + [] == t.lifecycle;
    AddConcerns(t, key, SourceRow(c, f(c)), id, Refreshed(t.canonicals[id], c), []);
    OneRowChanged(t, t', id);
    KeyedAfterAdd(t, t', f, c);
  }

  function Founded(t: Tables, f: Fingerprint, c: Candidate, e: LifecycleEvent): Tables {
    var id, key := CanonicalId(f(c)), SourceKeyOf(c);
    Tables(t.sources[key := SourceRow(c, f(c))], t.canonicals[id := Initial(c, f(c))],
           t.members + [Membership(id, key)], t.lifecycle + [e])
  }

  lemma FoundedRow(t: Tables, f: Fingerprint, c: Candidate, e: LifecycleEvent)
    requires NoStrays(t) && CanonicalId(f(c)) !in t.canonicals
    requires e.canonicalId == CanonicalId(f(c)) && e.fromState.None? && e.toState == c.state
    requires !IsBlank(e.reason) && !IsBlank(e.actorId)
    ensures RowAgrees(Founded(t, f, c, e), CanonicalId(f(c)))
  {
    var id := CanonicalId(f(c));
    MembersGrow(t.members, Membership(id, SourceKeyOf(c)), id);
    LogGrows(t.lifecycle, e, id);
    NewGroupAgrees(t, Founded(t, f, c, e), id, c, e);
  }

  /** A new source founds a group. */
  lemma FoundKeepsSound(t: Tables, f: Fingerprint, c: Candidate, e: LifecycleEvent)
    requires Sound(t, f) && IngestionAllowed(c) && SourceKeyOf(c) !in t.sources
    requires CanonicalId(f(c)) !in t.canonicals
    requires e.canonicalId == CanonicalId(f(c)) && e.fromState.None? && e.toState == c.state
    requires !IsBlank(e.reason) && !IsBlank(e.actorId)
    ensures Sound(Founded(t, f, c, e), f)
  {
    var id := CanonicalId(f(c));
    var t' := Founded(t, f, c, e);
    AddKeepsGroups(t, c, f(c), id, t'.canonicals, t'.lifecycle);
    FoundedRows(t, f, c, e);
    KeyedAfterAdd(t, t', f, c);
  }

  lemma FoundedRows(t: Tables, f: Fingerprint, c: Candidate, e: LifecycleEvent)
    requires RowsAgree(t) && NoStrays(t) && SourceKeyOf(c) !in t.sources && CanonicalId(f(c)) !in t.canonicals
    requires e.canonicalId == CanonicalId(f(c)) && e.fromState.None? && e.toState == c.state
    requires !IsBlank(e.reason) && !IsBlank(e.actorId)
    ensures RowsAgree(Founded(t, f, c, e)) && NoStrays(Founded(t, f, c, e))
  {
    var id := CanonicalId(f(c));
    FoundedRow(t, f, c, e);
    AddConcerns(t, SourceKeyOf(c), SourceRow(c, f(c)), id, Initial(c, f(c)), [e]);
    OneRowChanged(t, Founded(t, f, c, e), id);
  }

  lemma AddKeepsSound(t: Tables, f: Fingerprint, c: Candidate, actorId: string)
    requires Sound(t, f) && AddStep(t, f, c, actorId).Ok?
    ensures Sound(AddStep(t, f, c, actorId).value.0, f)
  {
    if SourceKeyOf(c) !in t.sources {
      var id := CanonicalId(f(c));
      if id in t.canonicals {
        JoinKeepsSound(t, f, c);
      } else {
        CreatedReason();
        FoundKeepsSound(t, f, c, LifecycleEvent(id, None, c.state, "CANONICAL_CREATED", actorId));
      }
    }
  }

  lemma CreatedReason()
    ensures !IsBlank("CANONICAL_CREATED")
  {
    var s := "CANONICAL_CREATED";
    assert !IsSpace(s[0]) && !IsSpace(s[|s| - 1]);
  }

  lemma MovedRowAgrees(t: Tables, t': Tables, id: string, e: LifecycleEvent)
    requires id in t.canonicals && RowAgrees(t, id) && t'.sources == t.sources
    requires id in t'.canonicals && t'.canonicals[id] == t.canonicals[id].(state := e.toState)
    requires MembersOf(t'.members, id) == MembersOf(t.members, id)
    requires LogOf(t'.lifecycle, id) == LogOf(t.lifecycle, id) + [e]
    requires e.fromState == Some(t.canonicals[id].state) && e.toState in AllowedTransitions(t.canonicals[id].state)
    requires !IsBlank(e.reason) && !IsBlank(e.actorId)
    ensures RowAgrees(t', id)
  {
    var log := LogOf(t.lifecycle, id);
    assert (log + [e])[0] == log[0];
    ChainGrows(log, e);
    var group, a := MembersOf(t.members, id), t.canonicals[id].activeSource;
    ActiveIsStored(t, group, a);
    SameLatest(t, t', group, a);
  }

  lemma TransitionKeepsSound(t: Tables, f: Fingerprint, id: string, target: ListingState, reason: string,
                             actorId: string)
    requires Sound(t, f) && TransitionStep(t, id, target, reason, actorId).Ok?
    ensures Sound(TransitionStep(t, id, target, reason, actorId).value, f)
  {
    var t' := TransitionStep(t, id, target, reason, actorId).value;
    var current := t.canonicals[id].state;
    if target != current {
      var e := LifecycleEvent(id, Some(current), target, reason, actorId);
      LogGrows(t.lifecycle, e, id);
      assert RowAgrees(t, id);
      MovedRowAgrees(t, t', id, e);
      TransitionConcerns(t, id, t.canonicals[id].(state := target), e);
      OneRowChanged(t, t', id);
    }
  }

  lemma {:induction false} RunKeepsSound(f: Fingerprint, t: Tables, steps: seq<Step>)
    requires Sound(t, f)
    ensures Sound(Run(f, t, steps), f)
  {
    if steps == [] {
    } else {
      var init, last := steps[..|steps| - 1], steps[|steps| - 1];
      RunKeepsSound(f, t, init);
      var before := Run(f, t, init);
      match last
      case Add(c, actor) => if AddStep(before, f, c, actor).Ok? { AddKeepsSound(before, f, c, actor); }
      case Transition(id, target, reason, actor) =>
        if TransitionStep(before, id, target, reason, actor).Ok? {
          TransitionKeepsSound(before, f, id, target, reason, actor);
        }
    }
  }

  /**
   The canonical inventory is a materialised view: after any sequence of adds and transitions, each row copies the
   earliest-added of its most recently verified sources, its state is the end of a chained log, and every source is
   in exactly one group.
   */
  lemma InventoryIsAView(f: Fingerprint, steps: seq<Step>, id: string)
    requires id in Run(f, EMPTY_TABLES, steps).canonicals
    ensures var t := Run(f, EMPTY_TABLES, steps); Grouped(t) && RowAgrees(t, id)
  {
    EmptyIsSound(f);
    RunKeepsSound(f, EMPTY_TABLES, steps);
    var t := Run(f, EMPTY_TABLES, steps);
    assert RowAgrees(t, id);
  }

  lemma EmptyIsSound(f: Fingerprint)
    ensures Sound(EMPTY_TABLES, f)
  {
  }

  /** No two of the group's sources were verified at the same time. */
  ghost predicate DistinctTimes(t: Tables, group: seq<SourceKey>)
    requires forall k :: k in group ==> k in t.sources
  {
    forall a, b :: a in group && b in group && Verified(t, a) == Verified(t, b) ==> a == b
  }

  /**
   Arrival order does not matter: two inventories whose group has the same sources, with distinct verification
   times, show the same columns, however the sources arrived and whatever else happened.
   */
  lemma ArrivalOrderIrrelevant(f: Fingerprint, left: seq<Step>, right: seq<Step>, id: string)
    requires var s, t := Run(f, EMPTY_TABLES, left), Run(f, EMPTY_TABLES, right);
             && id in s.canonicals && id in t.canonicals
             && (forall k :: k in MembersOf(s.members, id) <==> k in MembersOf(t.members, id))
             && (forall k :: k in MembersOf(s.members, id) ==>
                               k in s.sources && k in t.sources && s.sources[k] == t.sources[k])
             && DistinctTimes(s, MembersOf(s.members, id))
    ensures var s, t := Run(f, EMPTY_TABLES, left), Run(f, EMPTY_TABLES, right);
            s.canonicals[id].(state := t.canonicals[id].state) == t.canonicals[id]
  {
    InventoryIsAView(f, left, id);
    InventoryIsAView(f, right, id);
    SameGroupSameRow(Run(f, EMPTY_TABLES, left), Run(f, EMPTY_TABLES, right), id);
  }

  lemma SameGroupSameRow(s: Tables, t: Tables, id: string)
    requires id in s.canonicals && id in t.canonicals && RowAgrees(s, id) && RowAgrees(t, id)
    requires forall k :: k in MembersOf(s.members, id) <==> k in MembersOf(t.members, id)
    requires forall k :: k in MembersOf(s.members, id) ==>
                           k in s.sources && k in t.sources && s.sources[k] == t.sources[k]
    requires DistinctTimes(s, MembersOf(s.members, id))
    ensures s.canonicals[id].(state := t.canonicals[id].state) == t.canonicals[id]
  {
    var a, b := s.canonicals[id].activeSource, t.canonicals[id].activeSource;
    Latest(s, MembersOf(s.members, id), a);
    Latest(t, MembersOf(t.members, id), b);
    assert a in MembersOf(s.members, id) && b in MembersOf(s.members, id);
    assert Verified(s, b) <= Verified(s, a) && Verified(t, a) <= Verified(t, b);
    assert a == b;
  }

  lemma Latest(t: Tables, group: seq<SourceKey>, a: SourceKey)
    requires forall k :: k in group ==> k in t.sources
    requires EarliestLatest(t, group, a)
    ensures a in group && forall k :: k in group ==> Verified(t, k) <= Verified(t, a)
  {
  }

  /** SOLD, RENTED and WITHDRAWN never change, whatever is added or asked afterwards. */
  lemma {:induction false} FinalForever(f: Fingerprint, t: Tables, steps: seq<Step>, id: string)
    requires id in t.canonicals && Final(t.canonicals[id].state)
    ensures id in Run(f, t, steps).canonicals && Run(f, t, steps).canonicals[id].state == t.canonicals[id].state
  {
    if steps == [] {
    } else {
      FinalForever(f, t, steps[..|steps| - 1], id);
      FinalStep(f, Run(f, t, steps[..|steps| - 1]), steps[|steps| - 1], id);
    }
  }

  lemma FinalStep(f: Fingerprint, t: Tables, step: Step, id: string)
    requires id in t.canonicals && Final(t.canonicals[id].state)
    ensures id in Exec(f, t, step).canonicals && Exec(f, t, step).canonicals[id].state == t.canonicals[id].state
  {
    if step.Transition? && step.id == id { FinalStatesAreFinal(t.canonicals[id].state, step.target); }
  }

  // ------------------------------------------------------------------------
  // The early return for a known source version

  /** The group a stored source belongs to. */
  lemma GroupOfSource(t: Tables, f: Fingerprint, k: SourceKey) returns (id: string)
    requires Sound(t, f) && k in t.sources
    ensures id == CanonicalId(t.sources[k].fingerprint) && id in t.canonicals && k in MembersOf(t.members, id)
  {
    var i :| 0 <= i < |t.members| && t.members[i].source == k;
    id := t.members[i].canonicalId;
    MemberListed(t.members, i);
    assert RowAgrees(t, id);
  }

  lemma {:induction false} MemberListed(members: seq<Membership>, i: nat)
    requires i < |members|
    ensures members[i].source in MembersOf(members, members[i].canonicalId)
  {
    if i < |members| - 1 { MemberListed(members[..|members| - 1], i); }
  }

  /**
   Adding a known source version again changes nothing; the id it returns is that of the group the stored record
   belongs to if and only if the two fingerprints give the same canonical id.
   */
  lemma KnownSourceReturns(t: Tables, f: Fingerprint, c: Candidate, actorId: string)
    requires Sound(t, f) && IngestionAllowed(c) && SourceKeyOf(c) in t.sources
    ensures var r := AddStep(t, f, c, actorId);
            && r.Ok? && r.value.0 == t
            && (SourceKeyOf(c) in MembersOf(t.members, r.value.1)
                <==> CanonicalId(f(c)) == CanonicalId(t.sources[SourceKeyOf(c)].fingerprint))
  {
    var k := SourceKeyOf(c);
    var id := GroupOfSource(t, f, k);
    if k in MembersOf(t.members, CanonicalId(f(c))) {
      var x := CanonicalId(f(c));
      assert x in t.canonicals ==> RowAgrees(t, x);
    }
  }

  /** The same listing moved to another city has the same source version, so its new location is dropped. */
  lemma RelocationIsDropped(t: Tables, f: Fingerprint, c: Candidate, city: string, actorId: string)
    requires Sound(t, f) && IngestionAllowed(c) && SourceKeyOf(c) in t.sources &&
        t.sources[SourceKeyOf(c)].candidate == c
    requires var moved := c.(columns := c.columns.(city := city)); CanonicalId(f(moved)) != CanonicalId(f(c))
    ensures var moved := c.(columns := c.columns.(city := city));
            var r := AddStep(t, f, moved, actorId);
            r.Ok? && r.value.0 == t && SourceKeyOf(moved) !in MembersOf(t.members, r.value.1)
  {
    var moved := c.(columns := c.columns.(city := city));
    KnownSourceReturns(t, f, moved, actorId);
  }

  /** It happens to every listing that moves: added once, and then again from its new city. */
  lemma RelocationHappens(f: Fingerprint, c: Candidate, city: string, actorId: string)
    requires IngestionAllowed(c) && !IsBlank(actorId)
    requires var moved := c.(columns := c.columns.(city := city)); CanonicalId(f(moved)) != CanonicalId(f(c))
    ensures var moved := c.(columns := c.columns.(city := city));
            var t := Run(f, EMPTY_TABLES, [Add(c, actorId)]);
            var r := AddStep(t, f, moved, actorId);
            r.Ok? && r.value.0 == t && SourceKeyOf(moved) !in MembersOf(t.members, r.value.1)
  {
    FirstAdd(f, c, actorId);
    RelocationIsDropped(Run(f, EMPTY_TABLES, [Add(c, actorId)]), f, c, city, actorId);
  }

  lemma FirstAdd(f: Fingerprint, c: Candidate, actorId: string)
    requires IngestionAllowed(c) && !IsBlank(actorId)
    ensures var t := Run(f, EMPTY_TABLES, [Add(c, actorId)]);
            Sound(t, f) && t.sources == map[SourceKeyOf(c) := SourceRow(c, f(c))]
  {
    EmptyIsSound(f);
    OneAdd(f, EMPTY_TABLES, c, actorId);
    AddKeepsSound(EMPTY_TABLES, f, c, actorId);
  }

  lemma OneAdd(f: Fingerprint, t: Tables, c: Candidate, actorId: string)
    requires AddStep(t, f, c, actorId).Ok?
    ensures Run(f, t, [Add(c, actorId)]) == AddStep(t, f, c, actorId).value.0
  {
    assert [Add(c, actorId)][..0] == [];
  }

  /** A listing that is added as ACTIVE and then sold is SOLD, and its log says both. */
  lemma SaleHappens(f: Fingerprint, c: Candidate, reason: string, actorId: string)
    requires IngestionAllowed(c) && c.state == Active && !IsBlank(reason) && !IsBlank(actorId)
    ensures var id := CanonicalId(f(c));
            var t := Run(f, EMPTY_TABLES, [Add(c, actorId), Transition(id, Sold, reason, actorId)]);
            && id in t.canonicals && t.canonicals[id].state == Sold
            && t.lifecycle == [LifecycleEvent(id, None, Active, "CANONICAL_CREATED", actorId),
                               LifecycleEvent(id, Some(Active), Sold, reason, actorId)]
  {
    var id := CanonicalId(f(c));
    var steps := [Add(c, actorId), Transition(id, Sold, reason, actorId)];
    OneAdd(f, EMPTY_TABLES, c, actorId);
    assert steps[..1] == [Add(c, actorId)];
    MoveExactly(Run(f, EMPTY_TABLES, steps[..1]), id, Sold, reason, actorId);
  }

  /** A listing added again, unchanged but verified later, is stored again, and its row shows the later time. */
  lemma ReverificationRefreshes(f: Fingerprint, c: Candidate, later: int, actorId: string)
    requires IngestionAllowed(c) && !IsBlank(actorId) && later > c.lastVerifiedAt
    requires f(c.(lastVerifiedAt := later)) == f(c)
    ensures var t := Run(f, EMPTY_TABLES, [Add(c, actorId)]);
            var r := AddStep(t, f, c.(lastVerifiedAt := later), actorId);
            && r.Ok? && r.value.0.sources.Keys > t.sources.Keys
            && r.value.1 in r.value.0.canonicals && r.value.0.canonicals[r.value.1].lastVerifiedAt == later
  {
    FirstAdd(f, c, actorId);
    var again := c.(lastVerifiedAt := later);
    KeysExactly(c, again);
    OneAdd(f, EMPTY_TABLES, c, actorId);
  }

  // ------------------------------------------------------------------------
  // The store

  class SQLiteInventoryStore {
    const fingerprint: Fingerprint
    var sources: map<SourceKey, SourceRow>
    var canonicals: map<string, CanonicalRow>
    var members: seq<Membership>
    var lifecycle: seq<LifecycleEvent>

    ghost function Snapshot(): Tables
      reads this
    {
      Tables(sources, canonicals, members, lifecycle)
    }

    ghost predicate Valid()
      reads this
    {
      Sound(Snapshot(), fingerprint)
    }

    constructor (fingerprint: Fingerprint)
      ensures Valid() && Snapshot() == EMPTY_TABLES && this.fingerprint == fingerprint
    {
      this.fingerprint := fingerprint;
      sources, canonicals, members, lifecycle := map[], map[], [], [];
      new;
      EmptyIsSound(fingerprint);
    }

    /** The canonical listing with this fingerprint. */
    method FindByFingerprint(fp: string) returns (r: Option<string>)
      requires Valid()
      ensures r == if CanonicalId(fp) in canonicals && canonicals[CanonicalId(fp)].fingerprint == fp
                   then Some(CanonicalId(fp)) else None
    {
      if id :| id in canonicals && canonicals[id].fingerprint == fp {
        assert RowAgrees(Snapshot(), id);
        return Some(id);
      }
      return None;
    }

    /** add_source, one transaction: the canonical row is looked up by its unique fingerprint. */
    method AddSource(c: Candidate, actorId: string) returns (r: Result<string, InventoryError>)
      requires Valid()
      modifies this
      ensures Valid()
      ensures var step := AddStep(old(Snapshot()), fingerprint, c, actorId);
              && (step.Ok? ==> Snapshot() == step.value.0 && r == Ok(step.value.1))
              && (step.Err? ==> Snapshot() == old(Snapshot()) && r == Err(step.error))
      ensures r.Ok? ==> Known(Snapshot(), c)
      ensures r.Ok? && !Known(old(Snapshot()), c) ==>
                exists key :: Stored(old(Snapshot()), fingerprint(c), c, actorId, Snapshot(), r.value, key)
    {
      if AddStep(Snapshot(), fingerprint, c, actorId).Ok? { AddExactly(Snapshot(), fingerprint, c, actorId); }
      if !IngestionAllowed(c) { return Err(IngestionRefused); }
      var fp, key := fingerprint(c), SourceKeyOf(c);
      var canonicalId := CanonicalId(fp);
      if key in sources { return Ok(canonicalId); }
      var existing := FindByFingerprint(fp);
      if existing.Some? {
        canonicalId := existing.value;
        var row := canonicals[canonicalId];
        if c.lastVerifiedAt > row.lastVerifiedAt {
          row := row.(activeSource := key, columns := c.columns, lastVerifiedAt := c.lastVerifiedAt);
        }
        canonicals := canonicals[canonicalId := row];
      } else {
        if canonicalId in canonicals { return Err(IntegrityViolation); }
        if IsBlank(actorId) { return Err(ReasonAndActorRequired); }
        canonicals := canonicals[canonicalId := CanonicalRow(fp, key, c.state, c.columns, c.lastVerifiedAt)];
        lifecycle := lifecycle + [LifecycleEvent(canonicalId, None, c.state, "CANONICAL_CREATED", actorId)];
      }
      sources := sources[key := SourceRow(c, fp)];
      members := members + [Membership(canonicalId, key)];
      assert AddStep(old(Snapshot()), fingerprint, c, actorId) == Ok((Snapshot(), canonicalId));
      AddKeepsSound(old(Snapshot()), fingerprint, c, actorId);
      return Ok(canonicalId);
    }

    method TransitionState(id: string, target: ListingState, reason: string, actorId: string)
      returns (r: Result<(), InventoryError>)
      requires Valid()
      modifies this
      ensures Valid()
      ensures var step := TransitionStep(old(Snapshot()), id, target, reason, actorId);
              && (step.Ok? ==> Snapshot() == step.value && r == Ok(()))
              && (step.Err? ==> Snapshot() == old(Snapshot()) && r == Err(step.error))
    {
      if id !in canonicals { return Err(UnknownCanonical); }
      var current := canonicals[id].state;
      var resolved := TransitionListing(current, target);
      if resolved.None? { return Err(InvalidTransition); }
      if resolved.value == current { return Ok(()); }
      if IsBlank(reason) || IsBlank(actorId) { return Err(ReasonAndActorRequired); }
      TransitionKeepsSound(Snapshot(), fingerprint, id, target, reason, actorId);
      canonicals := canonicals[id := canonicals[id].(state := resolved.value)];
      lifecycle := lifecycle + [LifecycleEvent(id, Some(current), resolved.value, reason, actorId)];
      assert Snapshot() == TransitionStep(old(Snapshot()), id, target, reason, actorId).value;
      return Ok(());
    }
  }
}
