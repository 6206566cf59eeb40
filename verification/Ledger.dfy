/** The append-only, hash-chained audit ledger. */
module Ledger {
  import opened Wrappers

  datatype Json = JNull | JText(text: string) | JList(items: seq<string>)

  type Payload = map<string, Json>

  /**
   SHA-256 over canonical JSON, taken as collision free: the digest of an event is a value
   built from every hashed field, and no digest equals the text GENESIS.
   */
  datatype Hash =
    | Genesis
    | Digest(sequence: int, eventId: string, missionId: string, actorId: string, eventType: string,
             payload: Payload, createdAt: int, previousHash: Hash)

  datatype AuditEvent = AuditEvent(
    sequence: int,
    eventId: string,
    missionId: string,
    actorId: string,
    eventType: string,
    payload: Payload,
    createdAt: int,
    previousHash: Hash,
    eventHash: Hash)

  function HashOf(e: AuditEvent): Hash {
    Digest(e.sequence, e.eventId, e.missionId, e.actorId, e.eventType, e.payload, e.createdAt, e.previousHash)
  }

  datatype LedgerError =
    | DuplicateEventId
    | FieldsRequired
    | SequenceGap
    | ChainBreak
    | EventMutated
    | HashTaken

  /** What a caller hands to append; the clock supplies createdAt. */
  datatype Draft = Draft(
    eventId: string, missionId: string, actorId: string, eventType: string, payload: Payload, createdAt: int)

  function HeadHash(events: seq<AuditEvent>): Hash {
    if events == [] then Genesis else events[|events| - 1].eventHash
  }

  function Seal(sequence: int, d: Draft, previous: Hash): (e: AuditEvent)
    ensures e.eventHash == HashOf(e)
  {
    AuditEvent(sequence, d.eventId, d.missionId, d.actorId, d.eventType, d.payload, d.createdAt, previous,
               Digest(sequence, d.eventId, d.missionId, d.actorId, d.eventType, d.payload, d.createdAt, previous))
  }

  predicate HasId(events: seq<AuditEvent>, id: string) {
    exists e :: e in events && e.eventId == id
  }

  /** append as a function of the events held: the new event, or the error. */
  function Appended(events: seq<AuditEvent>, d: Draft): Result<AuditEvent, LedgerError> {
    if HasId(events, d.eventId) then Err(DuplicateEventId)
    else if d.missionId == "" || d.actorId == "" || d.eventType == "" then Err(FieldsRequired)
    else Ok(Seal(|events| + 1, d, HeadHash(events)))
  }

  /** The event carries the draft's fields under a number, and links to what stood before it. */
  predicate Carries(e: AuditEvent, d: Draft, sequence: int, previous: Hash) {
    && e.sequence == sequence && e.previousHash == previous && e.eventHash == HashOf(e)
    && e.eventId == d.eventId && e.missionId == d.missionId && e.actorId == d.actorId
    && e.eventType == d.eventType && e.payload == d.payload && e.createdAt == d.createdAt
  }

  /**
   A draft is accepted exactly if its id is new and its names are given; its event then carries it, numbered by the
   ledger's length and linked to the last event.
   */
  lemma AppendedExactly(events: seq<AuditEvent>, d: Draft)
    ensures Appended(events, d).Ok? <==>
            && d.missionId != "" && d.actorId != "" && d.eventType != ""
            && forall e :: e in events ==> e.eventId != d.eventId
    ensures Appended(events, d).Ok? ==>
              Carries(Appended(events, d).value, d, |events| + 1,
                      if events == [] then Genesis else events[|events| - 1].eventHash)
    ensures Appended(events, d) == Err(DuplicateEventId) <==> exists e :: e in events && e.eventId == d.eventId
    ensures Appended(events, d) == Err(FieldsRequired) <==>
            && (d.missionId == "" || d.actorId == "" || d.eventType == "")
            && forall e :: e in events ==> e.eventId != d.eventId
  {
  }

  /** The durable append likewise, on any rows: numbered and linked by the last row, unless its hash is taken. */
  lemma InsertedExactly(rows: seq<AuditEvent>, d: Draft)
    ensures Inserted(rows, d).Ok? ==>
              && d.missionId != "" && d.actorId != "" && d.eventType != ""
              && (forall e :: e in rows ==> e.eventId != d.eventId && e.eventHash != Inserted(rows, d).value.eventHash)
              && var e := Inserted(rows, d).value;
                 if rows == [] then Carries(e, d, 1, Genesis)
                 else Carries(e, d, rows[|rows| - 1].sequence + 1, rows[|rows| - 1].eventHash)
    ensures Inserted(rows, d) == Err(FieldsRequired) <==> d.missionId == "" || d.actorId == "" || d.eventType == ""
    ensures Inserted(rows, d) == Err(DuplicateEventId) <==>
            && d.missionId != "" && d.actorId != "" && d.eventType != ""
            && exists e :: e in rows && e.eventId == d.eventId
    ensures Inserted(rows, d) == Err(HashTaken) ==>
              && rows != [] && var last := rows[|rows| - 1];
              exists e :: e in rows && e.eventHash == Seal(last.sequence + 1, d, last.eventHash).eventHash
  {
  }

  /** What verify_integrity establishes. */
  predicate Chained(events: seq<AuditEvent>) {
    forall i :: 0 <= i < |events| ==>
                  && events[i].sequence == i + 1
                  && events[i].previousHash == HeadHash(events[..i])
                  && events[i].eventHash == HashOf(events[i])
  }

  predicate UniqueIds(events: seq<AuditEvent>) {
    forall i, j :: 0 <= i < j < |events| ==> events[i].eventId != events[j].eventId
  }

  class AuditLedger {
    var events: seq<AuditEvent>

    constructor ()
      ensures events == []
    {
      events := [];
    }

    /** A rejected append leaves the ledger as it was. */
    method Append(d: Draft) returns (r: Result<AuditEvent, LedgerError>)
      modifies this
      ensures r == Appended(old(events), d)
      ensures events == if r.Ok? then old(events) + [r.value] else old(events)
    {
      if HasId(events, d.eventId) { return Err(DuplicateEventId); }
      if d.missionId == "" || d.actorId == "" || d.eventType == "" { return Err(FieldsRequired); }
      var sequence := |events| + 1;
      var previous := if events != [] then events[|events| - 1].eventHash else Genesis;
      var event := Seal(sequence, d, previous);
      events := events + [event];
      return Ok(event);
    }

    method VerifyIntegrity() returns (r: Result<(), LedgerError>)
      ensures r.Ok? <==> Chained(events)
      ensures r == Err(SequenceGap) ==> exists i :: 0 <= i < |events| && events[i].sequence != i + 1
      ensures r == Err(ChainBreak) ==>
                exists i :: 0 <= i < |events| && events[i].previousHash != HeadHash(events[..i])
      ensures r == Err(EventMutated) ==> exists i :: 0 <= i < |events| && events[i].eventHash != HashOf(events[i])
      ensures r.Err? ==> r.error in {SequenceGap, ChainBreak, EventMutated}
    {
      var previous := Genesis;
      for i := 0 to |events|
        invariant previous == HeadHash(events[..i])
        invariant Chained(events[..i])
      {
        var event := events[i];
        if event.sequence != i + 1 { return Err(SequenceGap); }
        if event.previousHash != previous { return Err(ChainBreak); }
        if HashOf(event) != event.eventHash { return Err(EventMutated); }
        previous := event.eventHash;
        ChainStep(events, i);
      }
      assert events[..|events|] == events;
      return Ok(());
    }

    /** from_events: a ledger over the given events, if they verify. */
    static method FromEvents(events: seq<AuditEvent>) returns (r: Result<AuditLedger, LedgerError>)
      ensures r.Ok? <==> Chained(events)
      ensures r.Ok? ==> fresh(r.value) && r.value.events == events
    {
      var ledger := new AuditLedger();
      ledger.events := events;
      var valid := ledger.VerifyIntegrity();
      return if valid.Ok? then Ok(ledger) else Err(valid.error);
    }
  }

  predicate HasHash(events: seq<AuditEvent>, hash: Hash) {
    exists e :: e in events && e.eventHash == hash
  }

  /**
   The durable append as a function of the rows, whether or not they verify: fields first, then the id, then an event
   that follows the last row, unless its hash is already stored.
   */
  function Inserted(rows: seq<AuditEvent>, d: Draft): Result<AuditEvent, LedgerError> {
    if d.missionId == "" || d.actorId == "" || d.eventType == "" then Err(FieldsRequired)
    else if HasId(rows, d.eventId) then Err(DuplicateEventId)
    else
      var event := Seal(if rows == [] then 1 else rows[|rows| - 1].sequence + 1, d, HeadHash(rows));
      if HasHash(rows, event.eventHash) then Err(HashTaken) else Ok(event)
  }

  /** The durable ledger: the rows of audit_events by sequence, each append one transaction. */
  class SQLiteAuditLedger {
    var rows: seq<AuditEvent>

    constructor ()
      ensures Valid() && rows == []
    {
      rows := [];
    }

    /** The sequence is a primary key, and the rows are listed by it. */
    predicate Valid()
      reads this
    {
      forall i, j :: 0 <= i < j < |rows| ==> rows[i].sequence < rows[j].sequence
    }

    method Append(d: Draft) returns (r: Result<AuditEvent, LedgerError>)
      requires Valid()
      modifies this
      ensures Valid() && r == Inserted(old(rows), d)
      ensures rows == if r.Ok? then old(rows) + [r.value] else old(rows)
    {
      if d.missionId == "" || d.actorId == "" || d.eventType == "" { return Err(FieldsRequired); }
      if HasId(rows, d.eventId) { return Err(DuplicateEventId); }
      var sequence := if rows == [] then 1 else rows[|rows| - 1].sequence + 1;
      var previous := if rows == [] then Genesis else rows[|rows| - 1].eventHash;
      var event := Seal(sequence, d, previous);
      if HasHash(rows, event.eventHash) { return Err(HashTaken); }
      rows := rows + [event];
      return Ok(event);
    }
  }

  /** On rows that verify, the durable append accepts the same drafts as the one in memory, and adds the same event. */
  lemma DurableAppendAgrees(rows: seq<AuditEvent>, d: Draft)
    requires Chained(rows)
    ensures Inserted(rows, d).Ok? <==> Appended(rows, d).Ok?
    ensures Inserted(rows, d).Ok? ==> Inserted(rows, d) == Appended(rows, d)
  {
    var event := Seal(|rows| + 1, d, HeadHash(rows));
    forall e | e in rows ensures e.eventHash != event.eventHash {
      var i :| 0 <= i < |rows| && rows[i] == e;
      assert HashOf(e) == e.eventHash && e.sequence != event.sequence;
    }
  }

  /** On any rows, an accepted append verifies exactly if they did: it neither hides nor repairs a broken chain. */
  lemma InsertKeepsVerdict(rows: seq<AuditEvent>, d: Draft)
    requires Inserted(rows, d).Ok?
    ensures Chained(rows + [Inserted(rows, d).value]) <==> Chained(rows)
  {
    var next := rows + [Inserted(rows, d).value];
    assert next[..|rows|] == rows;
    if Chained(next) { ChainedPrefix(next, |rows|); }
    if Chained(rows) {
      ChainStep(next, |rows|);
      assert next[..|next|] == next;
    }
  }

  /** Every append keeps the chain verifiable and the ids unique. */
  lemma AppendKeepsChain(events: seq<AuditEvent>, d: Draft)
    requires Chained(events) && UniqueIds(events) && Appended(events, d).Ok?
    ensures Chained(events + [Appended(events, d).value])
    ensures UniqueIds(events + [Appended(events, d).value])
  {
    var next := events + [Appended(events, d).value];
    forall i | 0 <= i < |next|
      ensures next[i].sequence == i + 1 && next[i].eventHash == HashOf(next[i])
      ensures next[i].previousHash == HeadHash(next[..i])
    {
      if i < |events| {
        assert next[..i] == events[..i] && next[i] == events[i];
      } else {
        assert next[..i] == events;
      }
    }
    forall i | 0 <= i < |events| ensures events[i].eventId != d.eventId { assert events[i] in events; }
  }

  /** The events a sequence of appends leaves behind, rejected ones included. */
  function AppendAll(drafts: seq<Draft>): seq<AuditEvent> {
    if drafts == [] then [] else
    var before := AppendAll(drafts[..|drafts| - 1]);
    match Appended(before, drafts[|drafts| - 1])
    case Ok(event) => before + [event]
    case Err(_) => before
  }

  /** An accepted draft's event stands in the ledger where it was appended, whatever is appended afterwards. */
  lemma {:induction false} AppendsStay(drafts: seq<Draft>, i: nat)
    requires i < |drafts| && Appended(AppendAll(drafts[..i]), drafts[i]).Ok?
    ensures AppendAll(drafts[..i]) + [Appended(AppendAll(drafts[..i]), drafts[i]).value] <= AppendAll(drafts)
    decreases |drafts|
  {
    var init := drafts[..|drafts| - 1];
    if i < |init| {
      assert init[..i] == drafts[..i];
      AppendsStay(init, i);
    }
  }

  /** Every ledger built by appends alone verifies. */
  lemma {:induction false} BuiltLedgersVerify(drafts: seq<Draft>)
    ensures Chained(AppendAll(drafts)) && UniqueIds(AppendAll(drafts))
  {
    if drafts == [] {
    } else {
      var before, last := AppendAll(drafts[..|drafts| - 1]), drafts[|drafts| - 1];
      BuiltLedgersVerify(drafts[..|drafts| - 1]);
      if Appended(before, last).Ok? { AppendKeepsChain(before, last); }
    }
  }

  lemma ChainStep(events: seq<AuditEvent>, i: nat)
    requires i < |events| && Chained(events[..i])
    requires events[i].sequence == i + 1 && events[i].previousHash == HeadHash(events[..i])
    requires events[i].eventHash == HashOf(events[i])
    ensures Chained(events[..i + 1]) && HeadHash(events[..i + 1]) == events[i].eventHash
  {
    var next := events[..i + 1];
    forall k | 0 <= k <= i ensures next[k].sequence == k + 1 && next[k].eventHash == HashOf(next[k])
      ensures next[k].previousHash == HeadHash(next[..k])
    {
      assert next[..k] == events[..k] && (k < i ==> events[..i][..k] == events[..k] && events[..i][k] == next[k]);
    }
  }

  lemma ChainedPrefix(events: seq<AuditEvent>, n: nat)
    requires Chained(events) && n <= |events|
    ensures Chained(events[..n])
  {
    forall i | 0 <= i < n ensures HeadHash(events[..n][..i]) == HeadHash(events[..i]) {
      assert events[..n][..i] == events[..i];
    }
  }

  lemma LastLinks(events: seq<AuditEvent>)
    requires Chained(events) && events != []
    ensures Chained(events[..|events| - 1])
    ensures events[|events| - 1].previousHash == HeadHash(events[..|events| - 1])
  {
    ChainedPrefix(events, |events| - 1);
  }

  /** The head hash determines history: two verified ledgers with the same last hash are the same ledger. */
  lemma {:induction false} HeadDeterminesHistory(a: seq<AuditEvent>, b: seq<AuditEvent>)
    requires Chained(a) && Chained(b) && HeadHash(a) == HeadHash(b)
    ensures a == b
    decreases |a|
  {
    if a == [] || b == [] {
      assert a == [] && b == [];
    } else {
      LastLinks(a);
      LastLinks(b);
      HeadDeterminesHistory(a[..|a| - 1], b[..|b| - 1]);
      assert a == a[..|a| - 1] + [a[|a| - 1]] && b == b[..|b| - 1] + [b[|b| - 1]];
    }
  }

  /** Any change to a verified history that keeps its head hash fails verification. */
  lemma TamperingIsDetected(events: seq<AuditEvent>, forged: seq<AuditEvent>)
    requires Chained(events) && HeadHash(forged) == HeadHash(events) && forged != events
    ensures !Chained(forged)
  {
    if Chained(forged) { HeadDeterminesHistory(events, forged); }
  }
}
