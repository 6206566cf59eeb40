/** The durable reliability store and the controller that persists each decision before it is acted on. */
module ReliabilityController {
  import opened Wrappers
  import opened Text
  import opened ReliabilityContracts
  import opened ReliabilityEngine
  import opened ReliabilityRuns

  datatype OperationRow = OperationRow(spec: OperationSpec, status: Status, latestAttempt: int)

  datatype JournalRow = JournalRow(operationId: string, entry: Entry)

  /** The journal of one operation, in sequence order. */
  function EntriesOf(rows: seq<JournalRow>, id: string): seq<Entry> {
    if rows == [] then [] else
    var rest, last := EntriesOf(rows[..|rows| - 1], id), rows[|rows| - 1];
    if last.operationId == id then rest + [last.entry] else rest
  }

  function RowsFor(id: string, entries: seq<Entry>): (rows: seq<JournalRow>)
    ensures |rows| == |entries| && forall i :: 0 <= i < |rows| ==> rows[i] == JournalRow(id, entries[i])
  {
    seq(|entries|, i requires 0 <= i < |entries| => JournalRow(id, entries[i]))
  }

  /** Rows written for one operation extend its journal and no other. */
  lemma {:induction false} EntriesGrow(rows: seq<JournalRow>, id: string, entries: seq<Entry>, other: string)
    ensures EntriesOf(rows + RowsFor(id, entries), other)
            == EntriesOf(rows, other) + (if other == id then entries else [])
  {
    var all := rows + RowsFor(id, entries);
    if entries == [] {
      assert all == rows;
      assert EntriesOf(rows, other) + [] == EntriesOf(rows, other);
    } else {
      var init, last := entries[..|entries| - 1], entries[|entries| - 1];
      assert all[..|all| - 1] == rows + RowsFor(id, init);
      EntriesGrow(rows, id, init, other);
      assert init + [last] == entries;
      ConcatAssociative(EntriesOf(rows, other), init, [last]);
    }
  }

  /** What one recorded attempt adds to the journal. */
  function AttemptEntries(a: AttemptRecord, d: Decision, circuit: Option<Circuit>): seq<Entry> {
    [AttemptEntry(a), DecisionEntry(d)] + (if circuit.Some? then [CircuitEntry(circuit.value)] else [])
  }

  // ------------------------------------------------------------------------
  // The tables at one moment

  datatype Tables = Tables(operations: map<string, OperationRow>, circuits: map<string, Circuit>,
                           events: seq<JournalRow>)

  ghost function View(t: Tables, id: string): OpState
    requires id in t.operations && id in t.circuits
  {
    OpState(t.operations[id].spec, t.operations[id].status, t.operations[id].latestAttempt, t.circuits[id],
            EntriesOf(t.events, id))
  }

  ghost predicate SoundAt(t: Tables, id: string)
    requires id in t.operations && id in t.circuits
  {
    t.operations[id].spec.operationId == id && Sound(View(t, id))
  }

  ghost predicate TablesSound(t: Tables) {
    && t.operations.Keys == t.circuits.Keys
    && (forall id {:trigger SoundAt(t, id)} :: id in t.operations ==> SoundAt(t, id))
    && (forall id :: id !in t.operations ==> EntriesOf(t.events, id) == [])
  }

  /** The tables after one operation's rows are written. */
  function Written(t: Tables, id: string, row: OperationRow, c: Circuit, entries: seq<Entry>): Tables {
    Tables(t.operations[id := row], t.circuits[id := c], t.events + RowsFor(id, entries))
  }

  lemma ViewWritten(t: Tables, id: string, row: OperationRow, c: Circuit, entries: seq<Entry>)
    requires t.operations.Keys == t.circuits.Keys
    ensures var t' := Written(t, id, row, c, entries);
            && View(t', id) == OpState(row.spec, row.status, row.latestAttempt, c, EntriesOf(t.events, id) + entries)
            && (forall x :: x in t.operations && x != id ==> View(t', x) == View(t, x))
            && (forall x :: x != id ==> EntriesOf(t'.events, x) == EntriesOf(t.events, x))
  {
    var t' := Written(t, id, row, c, entries);
    forall x
      ensures EntriesOf(t'.events, x) == if x == id then EntriesOf(t.events, x) + entries else EntriesOf(t.events, x)
    {
      EntriesGrow(t.events, id, entries, x);
      assert EntriesOf(t.events, x) + [] == EntriesOf(t.events, x);
    }
  }

  /** Writing one operation's rows touches its own view only, and keeps the tables sound if that view is. */
  lemma WriteOne(t: Tables, id: string, row: OperationRow, c: Circuit, entries: seq<Entry>)
    requires TablesSound(t) && row.spec.operationId == id
    requires Sound(OpState(row.spec, row.status, row.latestAttempt, c, EntriesOf(t.events, id) + entries))
    ensures var t' := Written(t, id, row, c, entries);
            && TablesSound(t')
            && View(t', id) == OpState(row.spec, row.status, row.latestAttempt, c, EntriesOf(t.events, id) + entries)
            && forall x :: x in t.operations && x != id ==> View(t', x) == View(t, x)
  {
    var t' := Written(t, id, row, c, entries);
    ViewWritten(t, id, row, c, entries);
    forall x | x in t'.operations ensures SoundAt(t', x) {
      if x != id { StillSound(t, t', x); }
    }
  }

  lemma StillSound(t: Tables, t': Tables, x: string)
    requires TablesSound(t) && x in t.operations && x in t'.operations && x in t'.circuits && View(t', x) == View(t, x)
    ensures SoundAt(t', x)
  {
    assert SoundAt(t, x);
    assert t'.operations[x].spec == View(t', x).spec == t.operations[x].spec;
  }

  class SQLiteReliabilityStore {
    var operations: map<string, OperationRow>
    var circuits: map<string, Circuit>
    var events: seq<JournalRow>

    constructor ()
      ensures operations == map[] && circuits == map[] && events == []
    {
      operations, circuits, events := map[], map[], [];
    }

    ghost function Snapshot(): Tables
      reads this
    {
      Tables(operations, circuits, events)
    }

    ghost predicate Valid()
      reads this
    {
      TablesSound(Snapshot())
    }

    /** One operation as its rows present it. */
    ghost function Op(id: string): OpState
      requires id in operations && id in circuits
      reads this
    {
      View(Snapshot(), id)
    }

    method Register(spec: OperationSpec) returns (r: Result<(), ReliabilityError>)
      requires Valid()
      modifies this
      ensures Valid()
      ensures r.Ok? <==> SpecValid(spec) && spec.operationId !in old(operations)
      ensures r.Ok? <==>
              && !IsBlank(spec.operationId) && !IsBlank(spec.missionId) && spec.operationId !in old(operations)
              && spec.maxAttempts >= 1 && spec.timeoutSeconds >= 1
              && (spec.effect == ReadOnly ==> spec.compensationRef == None)
              && (spec.effect == ExternalWrite ==>
                    spec.idempotencyKey != None && !IsBlank(spec.idempotencyKey.value) && spec.reconciliationSupported)
      ensures r.Err? ==> r.error == if SpecValid(spec) then DuplicateOperation else InvalidOperation
      ensures r.Err? ==> Snapshot() == old(Snapshot())
      ensures r.Ok? ==> operations.Keys == old(operations.Keys) + {spec.operationId}
      ensures r.Ok? ==> Op(spec.operationId) == OpState(spec, Ready, 0, Circuit(Closed, 0, 3), [])
      ensures forall x :: x in old(operations) ==> Op(x) == old(Op(x))
    {
      if !SpecValid(spec) { return Err(InvalidOperation); }
      if spec.operationId in operations { return Err(DuplicateOperation); }
      operations := operations[spec.operationId := OperationRow(spec, Ready, 0)];
      circuits := circuits[spec.operationId := DEFAULT_CIRCUIT];
      RegisteredIsSound(spec, DEFAULT_CIRCUIT.threshold);
      assert old(events) + RowsFor(spec.operationId, []) == events;
      WriteOne(old(Snapshot()), spec.operationId, OperationRow(spec, Ready, 0), DEFAULT_CIRCUIT, []);
      return Ok(());
    }

    /**
     append_attempt_and_decision: one transaction, refused for a terminal operation or a number out of sequence.
     Without a circuit the stored one stays, and is not journalled again.
     */
    method AppendAttemptAndDecision(a: AttemptRecord, d: Decision, circuit: Option<Circuit>)
      returns (r: Result<(), ReliabilityError>)
      requires operations.Keys == circuits.Keys
      modifies this
      ensures r == (if !AttemptValid(a) then Err(InvalidAttempt)
                    else if !DecisionValid(d) then Err(InvalidDecision)
                    else if circuit.Some? && !CircuitValid(circuit.value) then Err(InvalidCircuit)
                    else if a.operationId != d.operationId then Err(IdentityMismatch)
                    else if a.operationId !in old(operations) then Err(UnknownOperation)
                    else if Terminal(old(operations)[a.operationId].status) then Err(TerminalOperation)
                    else if a.attempt != old(operations)[a.operationId].latestAttempt + 1 then Err(SequenceMismatch)
                    else Ok(()))
      ensures r.Err? ==> Snapshot() == old(Snapshot())
      ensures r.Ok? ==> var row := old(operations)[a.operationId].(status := StatusFor(d), latestAttempt := a.attempt);
                        var stored := if circuit.Some? then circuit.value else old(circuits)[a.operationId];
                        Snapshot() == Written(old(Snapshot()), a.operationId, row, stored,
                                              AttemptEntries(a, d, circuit))
    {
      if !AttemptValid(a) { return Err(InvalidAttempt); }
      if !DecisionValid(d) { return Err(InvalidDecision); }
      if circuit.Some? && !CircuitValid(circuit.value) { return Err(InvalidCircuit); }
      if a.operationId != d.operationId { return Err(IdentityMismatch); }
      var id := a.operationId;
      if id !in operations { return Err(UnknownOperation); }
      var row := operations[id];
      if Terminal(row.status) { return Err(TerminalOperation); }
      if a.attempt != row.latestAttempt + 1 { return Err(SequenceMismatch); }
      events := events + [JournalRow(id, AttemptEntry(a))];
      events := events + [JournalRow(id, DecisionEntry(d))];
      if circuit.Some? {
        circuits := circuits[id := circuit.value];
        events := events + [JournalRow(id, CircuitEntry(circuit.value))];
      } else {
        assert circuits == circuits[id := circuits[id]];
      }
      operations := operations[id := row.(status := StatusFor(d), latestAttempt := a.attempt)];
      assert events == old(events) + RowsFor(id, AttemptEntries(a, d, circuit));
      return Ok(());
    }

    method AppendReconciliationAndDecision(id: string, result: Reconciliation, d: Decision)
      returns (r: Result<(), ReliabilityError>)
      requires operations.Keys == circuits.Keys
      modifies this
      ensures r == (if !DecisionValid(d) then Err(InvalidDecision)
                    else if d.operationId != id then Err(IdentityMismatch)
                    else if id !in old(operations) then Err(UnknownOperation)
                    else if !old(operations)[id].status.ReconcileRequired? then Err(NotWaitingForReconciliation)
                    else Ok(()))
      ensures r.Err? ==> Snapshot() == old(Snapshot())
      ensures r.Ok? ==> Snapshot() == Written(old(Snapshot()), id, old(operations)[id].(status := StatusFor(d)),
                                              old(circuits)[id], [ReconciliationEntry(result), DecisionEntry(d)])
    {
      if !DecisionValid(d) { return Err(InvalidDecision); }
      if d.operationId != id { return Err(IdentityMismatch); }
      if id !in operations { return Err(UnknownOperation); }
      if !operations[id].status.ReconcileRequired? { return Err(NotWaitingForReconciliation); }
      events := events + [JournalRow(id, ReconciliationEntry(result))];
      events := events + [JournalRow(id, DecisionEntry(d))];
      operations := operations[id := operations[id].(status := StatusFor(d))];
      assert events == old(events) + RowsFor(id, [ReconciliationEntry(result), DecisionEntry(d)]);
      assert circuits == circuits[id := circuits[id]];
      return Ok(());
    }

    method SaveCircuit(id: string, c: Circuit) returns (r: Result<(), ReliabilityError>)
      requires operations.Keys == circuits.Keys
      modifies this
      ensures r == (if !CircuitValid(c) then Err(InvalidCircuit)
                    else if id in old(circuits) then Ok(()) else Err(UnknownOperation))
      ensures r.Err? ==> Snapshot() == old(Snapshot())
      ensures r.Ok? ==> Snapshot() == Written(old(Snapshot()), id, old(operations)[id], c, [CircuitEntry(c)])
    {
      if !CircuitValid(c) { return Err(InvalidCircuit); }
      if id !in circuits { return Err(UnknownOperation); }
      circuits := circuits[id := c];
      events := events + [JournalRow(id, CircuitEntry(c))];
      assert events == old(events) + RowsFor(id, [CircuitEntry(c)]);
      assert operations == operations[id := operations[id]];
      return Ok(());
    }

    /** The newest ATTEMPT row of an operation, searched from the end. */
    method FindLatestAttempt(id: string) returns (r: Option<AttemptRecord>)
      ensures r == LatestAttempt(EntriesOf(events, id))
    {
      var i := |events|;
      assert events[..i] == events;
      while i > 0
        invariant 0 <= i <= |events|
        invariant LatestAttempt(EntriesOf(events[..i], id)) == LatestAttempt(EntriesOf(events, id))
      {
        i := i - 1;
        var row := events[i];
        assert events[..i + 1][..i] == events[..i];
        var older := EntriesOf(events[..i], id);
        assert (older + [row.entry])[..|older|] == older;
        if row.operationId == id && row.entry.AttemptEntry? { return Some(row.entry.attempt); }
      }
      return None;
    }

    method FindLatestDecision(id: string) returns (r: Option<Decision>)
      ensures r == LatestDecision(EntriesOf(events, id))
    {
      var i := |events|;
      assert events[..i] == events;
      while i > 0
        invariant 0 <= i <= |events|
        invariant LatestDecision(EntriesOf(events[..i], id)) == LatestDecision(EntriesOf(events, id))
      {
        i := i - 1;
        var row := events[i];
        assert events[..i + 1][..i] == events[..i];
        var older := EntriesOf(events[..i], id);
        assert (older + [row.entry])[..|older|] == older;
        if row.operationId == id && row.entry.DecisionEntry? { return Some(row.entry.decision); }
      }
      return None;
    }
  }

  /** What record_attempt hands to the store passes the store's own checks. */
  lemma RecordedIsValid(s: OpState, a: AttemptRecord)
    requires Sound(s) && a.operationId == s.spec.operationId
    requires Decide(s.spec, a, s.circuit).Ok? && NextCircuit(s.circuit, a).Ok?
    ensures AttemptValid(a) && CircuitValid(NextCircuit(s.circuit, a).value)
    ensures var d := DecisionOn(s, Decide(s.spec, a, s.circuit).value, NextCircuit(s.circuit, a).value);
            DecisionValid(d) && d.operationId == a.operationId
  {
    DecideExactly(s.spec, a, s.circuit);
    CircuitCounts(s.circuit, a);
  }

  /** What reconcile computes from row and journal is what ReconcileStep says, and it passes the store's checks. */
  lemma ReconciledIsValid(t: Tables, id: string, result: Reconciliation)
    requires TablesSound(t) && id in t.operations && t.operations[id].status.ReconcileRequired?
    ensures var row, step := t.operations[id], ReconcileStep(View(t, id), result);
            var decided := DecideReconciled(row.spec, LatestAttempt(EntriesOf(t.events, id)), result);
            && (decided.Ok? <==> step.Ok?) && (decided.Err? ==> step == Err(decided.error))
            && (decided.Ok? ==> step.value.1 == decided.value
                                && DecisionValid(decided.value) && decided.value.operationId == id)
  {
    assert SoundAt(t, id);
    ReconcileAcceptedExactly(View(t, id), result);
  }

  /** The tables after writing what RecordStep decided show the operation as RecordStep leaves it. */
  lemma RecordWritten(t: Tables, a: AttemptRecord)
    requires TablesSound(t) && a.operationId in t.operations && RecordStep(View(t, a.operationId), a).Ok?
    ensures var id := a.operationId;
            var (after, d) := RecordStep(View(t, id), a).value;
            var row := t.operations[id].(status := StatusFor(d), latestAttempt := a.attempt);
            ShowsOnly(t, Written(t, id, row, after.circuit, AttemptEntries(a, d, Some(after.circuit))), id, after)
  {
    var id := a.operationId;
    assert SoundAt(t, id);
    var (after, d) := RecordStep(View(t, id), a).value;
    RecordKeepsSound(View(t, id), a);
    assert AttemptEntries(a, d, Some(after.circuit))
           == [AttemptEntry(a), DecisionEntry(d), CircuitEntry(after.circuit)];
    WriteOne(t, id, t.operations[id].(status := StatusFor(d), latestAttempt := a.attempt), after.circuit,
             AttemptEntries(a, d, Some(after.circuit)));
  }

  lemma ReconcileWritten(t: Tables, id: string, result: Reconciliation)
    requires TablesSound(t) && id in t.operations && ReconcileStep(View(t, id), result).Ok?
    ensures var (after, d) := ReconcileStep(View(t, id), result).value;
            ShowsOnly(t, Written(t, id, t.operations[id].(status := StatusFor(d)), t.circuits[id],
                                 [ReconciliationEntry(result), DecisionEntry(d)]), id, after)
  {
    assert SoundAt(t, id);
    var (after, d) := ReconcileStep(View(t, id), result).value;
    ReconcileKeepsSound(View(t, id), result);
    WriteOne(t, id, t.operations[id].(status := StatusFor(d)), t.circuits[id],
             [ReconciliationEntry(result), DecisionEntry(d)]);
  }

  /** The tables are sound, show operation id as `after`, and every other one as before. */
  ghost predicate ShowsOnly(t: Tables, t': Tables, id: string, after: OpState)
    requires t.operations.Keys == t.circuits.Keys
  {
    && TablesSound(t') && id in t'.operations && View(t', id) == after
    && forall x :: x in t.operations && x != id ==> x in t'.operations && View(t', x) == View(t, x)
  }

  class DurableOperationController {
    const store: SQLiteReliabilityStore

    constructor (store: SQLiteReliabilityStore)
      ensures this.store == store
    {
      this.store := store;
    }

    /** record_attempt does to the operation's rows what RecordStep says, and nothing to any other operation. */
    method RecordAttempt(a: AttemptRecord) returns (r: Result<Decision, ReliabilityError>)
      requires store.Valid()
      modifies store
      ensures store.Valid() && store.operations.Keys == old(store.operations.Keys)
      ensures a.operationId !in old(store.operations) ==> r == Err(UnknownOperation)
      ensures a.operationId in old(store.operations) ==>
                var step := RecordStep(old(store.Op(a.operationId)), a);
                && (step.Ok? ==> r == Ok(step.value.1) && store.Op(a.operationId) == step.value.0)
                && (step.Err? ==> r == Err(step.error))
      ensures r.Err? ==> store.Snapshot() == old(store.Snapshot())
      ensures forall x :: x in old(store.operations) && x != a.operationId ==> store.Op(x) == old(store.Op(x))
    {
      var id := a.operationId;
      if id !in store.operations { return Err(UnknownOperation); }
      ghost var s := store.Op(id);
      assert SoundAt(store.Snapshot(), id);
      var row, circuit := store.operations[id], store.circuits[id];
      if circuit.mode.Open? { return Err(CircuitIsOpen); }
      var decided := Decide(row.spec, a, circuit);
      if decided.Err? { return Err(decided.error); }
      var next := NextCircuit(circuit, a);
      if next.Err? { return Err(next.error); }
      var d := decided.value;
      if next.value.mode.Open? && d.action.Retry? {
        d := Decision(row.spec.operationId, Stop, CircuitOpenedAfterThreshold, None);
      }
      RecordedIsValid(s, a);
      var appended := store.AppendAttemptAndDecision(a, d, Some(next.value));
      if appended.Err? { return Err(appended.error); }
      RecordWritten(old(store.Snapshot()), a);
      return Ok(d);
    }

    method ReconcileOutcome(id: string, result: Reconciliation) returns (r: Result<Decision, ReliabilityError>)
      requires store.Valid()
      modifies store
      ensures store.Valid() && store.operations.Keys == old(store.operations.Keys)
      ensures id !in old(store.operations) ==> r == Err(UnknownOperation)
      ensures id in old(store.operations) ==>
                var step := ReconcileStep(old(store.Op(id)), result);
                && (step.Ok? ==> r == Ok(step.value.1) && store.Op(id) == step.value.0)
                && (step.Err? ==> r == Err(step.error))
      ensures r.Err? ==> store.Snapshot() == old(store.Snapshot())
      ensures forall x :: x in old(store.operations) && x != id ==> store.Op(x) == old(store.Op(x))
    {
      if id !in store.operations { return Err(UnknownOperation); }
      var row := store.operations[id];
      if !row.status.ReconcileRequired? { return Err(NotWaitingForReconciliation); }
      var previous := store.FindLatestAttempt(id);
      var decided := DecideReconciled(row.spec, previous, result);
      ReconciledIsValid(store.Snapshot(), id, result);
      if decided.Err? { return Err(decided.error); }
      var appended := store.AppendReconciliationAndDecision(id, result, decided.value);
      ReconcileWritten(old(store.Snapshot()), id, result);
      assert ShowsOnly(old(store.Snapshot()), store.Snapshot(), id, ReconcileStep(old(store.Op(id)), result).value.0);
      return Ok(decided.value);
    }

    method OpenProbe(id: string) returns (r: Result<(), ReliabilityError>)
      requires store.Valid()
      modifies store
      ensures store.Valid() && store.operations == old(store.operations)
      ensures id !in old(store.operations) ==> r == Err(UnknownOperation)
      ensures id in old(store.operations) ==> (r.Ok? <==> old(store.circuits)[id].mode == Open)
      ensures r.Ok? ==>
                var was := old(store.circuits)[id];
                var half := Circuit(HalfOpen, was.failures, was.threshold);
                && store.circuits == old(store.circuits)[id := half]
                && store.events == old(store.events) + [JournalRow(id, CircuitEntry(half))]
      ensures id in old(store.operations) ==>
                var step := ProbeStep(old(store.Op(id)));
                && (step.Ok? ==> r == Ok(()) && store.Op(id) == step.value)
                && (step.Err? ==> r == Err(step.error))
      ensures r.Err? ==> store.Snapshot() == old(store.Snapshot())
      ensures forall x :: x in old(store.operations) && x != id ==> store.Op(x) == old(store.Op(x))
    {
      if id !in store.operations { return Err(UnknownOperation); }
      ghost var s := store.Op(id);
      assert SoundAt(store.Snapshot(), id);
      ProbeExactly(store.circuits[id]);
      var half := ToHalfOpen(store.circuits[id]);
      if half.Err? { return Err(half.error); }
      var saved := store.SaveCircuit(id, half.value);
      ProbeKeepsSound(s);
      WriteOne(old(store.Snapshot()), id, old(store.operations)[id], half.value, [CircuitEntry(half.value)]);
      return Ok(());
    }

    /** resume_action: nothing for an operation that never started, otherwise the decision to act on. */
    method ResumeAction(id: string) returns (r: Result<Option<Decision>, ReliabilityError>)
      requires store.Valid()
      ensures r.Ok? <==> id in store.operations
      ensures r.Ok? ==> r.value == LatestDecision(EntriesOf(store.events, id))
      ensures r.Ok? && r.value.Some? ==> StatusFor(r.value.value) == store.operations[id].status
    {
      if id !in store.operations { return Err(UnknownOperation); }
      assert SoundAt(store.Snapshot(), id);
      if store.operations[id].status == Ready { return Ok(None); }
      var d := store.FindLatestDecision(id);
      return if d.None? then Err(NoDecision) else Ok(d);
    }
  }
}
