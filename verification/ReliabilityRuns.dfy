/**
 One durable operation as a state machine over its journal, and what holds of every run of it:
 the attempt bounds, the justification of retries, and settlement.
 */
module ReliabilityRuns {
  import opened Wrappers
  import opened ReliabilityContracts
  import opened ReliabilityEngine

  datatype Entry =
    | AttemptEntry(attempt: AttemptRecord)
    | DecisionEntry(decision: Decision)
    | CircuitEntry(circuit: Circuit)
    | ReconciliationEntry(result: Reconciliation)

  /** An operation's row, its circuit row, and its journal in sequence order. */
  datatype OpState = OpState(spec: OperationSpec, status: Status, latest: int, circuit: Circuit, journal: seq<Entry>)

  function StatusFor(d: Decision): Status {
    match d.action
    case Complete => Completed
    case Retry => RetryReady
    case Reconcile => ReconcileRequired
    case Stop => Stopped
  }

  function AttemptsOf(journal: seq<Entry>): seq<AttemptRecord> {
    if journal == [] then [] else
    var rest, last := AttemptsOf(journal[..|journal| - 1]), journal[|journal| - 1];
    if last.AttemptEntry? then rest + [last.attempt] else rest
  }

  /** The newest attempt in the journal. */
  function LatestAttempt(journal: seq<Entry>): Option<AttemptRecord> {
    if journal == [] then None
    else if journal[|journal| - 1].AttemptEntry? then Some(journal[|journal| - 1].attempt)
    else LatestAttempt(journal[..|journal| - 1])
  }

  function LatestDecision(journal: seq<Entry>): Option<Decision> {
    if journal == [] then None
    else if journal[|journal| - 1].DecisionEntry? then Some(journal[|journal| - 1].decision)
    else LatestDecision(journal[..|journal| - 1])
  }

  // ------------------------------------------------------------------------
  // The three calls, as functions

  function Registered(spec: OperationSpec, circuit: Circuit): OpState {
    OpState(spec, Ready, 0, circuit, [])
  }

  predicate Terminal(s: Status) { s.Completed? || s.Stopped? }

  /** What record_attempt journals: a retry that opens the circuit is turned into a stop. */
  function DecisionOn(s: OpState, d: Decision, next: Circuit): Decision {
    if next.mode.Open? && d.action.Retry?
    then Decision(s.spec.operationId, Stop, CircuitOpenedAfterThreshold, None) else d
  }

  function RecordStep(s: OpState, a: AttemptRecord): Result<(OpState, Decision), ReliabilityError> {
    if s.circuit.mode.Open? then Err(CircuitIsOpen) else
    match Decide(s.spec, a, s.circuit)
    case Err(e) => Err(e)
    case Ok(decided) =>
      match NextCircuit(s.circuit, a)
      case Err(e) => Err(e)
      case Ok(next) =>
        var d := DecisionOn(s, decided, next);
        if Terminal(s.status) then Err(TerminalOperation)
        else if a.attempt != s.latest + 1 then Err(SequenceMismatch)
        else Ok((OpState(s.spec, StatusFor(d), a.attempt, next,
                         s.journal + [AttemptEntry(a), DecisionEntry(d), CircuitEntry(next)]), d))
  }

  /** reconcile decides the latest attempt again, without looking at the stored circuit. */
  function DecideReconciled(spec: OperationSpec, latest: Option<AttemptRecord>, result: Reconciliation)
    : Result<Decision, ReliabilityError>
  {
    match latest
    case None => Err(NoAttempt)
    case Some(previous) =>
      if !previous.outcome.Unknown? then Err(LatestAttemptNotAmbiguous)
      else Decide(spec, previous.(reconciliation := Some(result)), DEFAULT_CIRCUIT)
  }

  function ReconcileStep(s: OpState, result: Reconciliation): Result<(OpState, Decision), ReliabilityError> {
    if !s.status.ReconcileRequired? then Err(NotWaitingForReconciliation) else
    match DecideReconciled(s.spec, LatestAttempt(s.journal), result)
    case Err(e) => Err(e)
    case Ok(d) =>
      Ok((s.(status := StatusFor(d), journal := s.journal + [ReconciliationEntry(result), DecisionEntry(d)]), d))
  }

  function ProbeStep(s: OpState): Result<OpState, ReliabilityError> {
    match ToHalfOpen(s.circuit)
    case Err(e) => Err(e)
    case Ok(c) => Ok(s.(circuit := c, journal := s.journal + [CircuitEntry(c)]))
  }

  datatype Call = Record(a: AttemptRecord) | Reconciled(result: Reconciliation) | Probe

  predicate Accepted(s: OpState, call: Call) {
    match call
    case Record(a) => a.operationId == s.spec.operationId && RecordStep(s, a).Ok?
    case Reconciled(r) => ReconcileStep(s, r).Ok?
    case Probe => ProbeStep(s).Ok?
  }

  /** A rejected call leaves the operation as it was. */
  function Exec(s: OpState, call: Call): OpState {
    if !Accepted(s, call) then s else
    match call
    case Record(a) => RecordStep(s, a).value.0
    case Reconciled(r) => ReconcileStep(s, r).value.0
    case Probe => ProbeStep(s).value
  }

  function Run(s: OpState, calls: seq<Call>): OpState {
    if calls == [] then s else Exec(Run(s, calls[..|calls| - 1]), calls[|calls| - 1])
  }

  // ------------------------------------------------------------------------
  // Reading a journal that has just grown

  lemma Grown(journal: seq<Entry>, e: Entry)
    ensures AttemptsOf(journal + [e]) == AttemptsOf(journal) + (if e.AttemptEntry? then [e.attempt] else [])
    ensures LatestAttempt(journal + [e]) == if e.AttemptEntry? then Some(e.attempt) else LatestAttempt(journal)
    ensures LatestDecision(journal + [e]) == if e.DecisionEntry? then Some(e.decision) else LatestDecision(journal)
    ensures Reconciliations(journal + [e]) == Reconciliations(journal) + (if e.ReconciliationEntry? then 1 else 0)
    ensures ProbedSince(journal + [e]) ==
            if e.AttemptEntry? then false else (e.CircuitEntry? && e.circuit.mode.HalfOpen?) || ProbedSince(journal)
    ensures ReconciledSince(journal + [e]) ==
            if e.AttemptEntry? then None
            else if e.ReconciliationEntry? then Some(e.result) else ReconciledSince(journal)
    ensures DecidedAfterNotApplied(journal + [e]) ==
            if e.DecisionEntry? then journal != [] && journal[|journal| - 1] == ReconciliationEntry(NotApplied)
            else DecidedAfterNotApplied(journal)
  {
    assert (journal + [e])[..|journal|] == journal;
  }

  function Reconciliations(journal: seq<Entry>): nat {
    if journal == [] then 0
    else Reconciliations(journal[..|journal| - 1]) + (if journal[|journal| - 1].ReconciliationEntry? then 1 else 0)
  }

  /** The circuit was half-opened after the latest attempt. */
  predicate ProbedSince(journal: seq<Entry>) {
    journal != []
    && var last := journal[|journal| - 1];
       !last.AttemptEntry?
       && ((last.CircuitEntry? && last.circuit.mode.HalfOpen?) || ProbedSince(journal[..|journal| - 1]))
  }

  /** The result of the last reconciliation since the latest attempt; none when nobody has reconciled that attempt. */
  function ReconciledSince(journal: seq<Entry>): Option<Reconciliation> {
    if journal == [] then None else
    match journal[|journal| - 1]
    case AttemptEntry(_) => None
    case ReconciliationEntry(r) => Some(r)
    case _ => ReconciledSince(journal[..|journal| - 1])
  }

  /** The latest decision stands directly after a reconciliation that confirmed NOT_APPLIED. */
  predicate DecidedAfterNotApplied(journal: seq<Entry>) {
    journal != []
    && var init := journal[..|journal| - 1];
       if journal[|journal| - 1].DecisionEntry? then init != [] && init[|init| - 1] == ReconciliationEntry(NotApplied)
       else DecidedAfterNotApplied(init)
  }

  lemma {:induction false} LatestIsLast(journal: seq<Entry>)
    ensures var all := AttemptsOf(journal);
            LatestAttempt(journal) == if all == [] then None else Some(all[|all| - 1])
  {
    if journal == [] {
    } else {
      LatestIsLast(journal[..|journal| - 1]);
    }
  }

  // ------------------------------------------------------------------------
  // The invariant

  /** The latest decision is a RETRY that promises this attempt. */
  predicate Promised(before: seq<Entry>, a: AttemptRecord) {
    var d := LatestDecision(before);
    d.Some? && d.value.action.Retry? && d.value.nextAttempt == Some(a.attempt)
  }

  /** The latest decision asks to reconcile an ambiguous external write, and nobody has. */
  predicate Unreconciled(spec: OperationSpec, before: seq<Entry>) {
    var d := LatestDecision(before);
    && d.Some? && d.value.action.Reconcile? && spec.effect.ExternalWrite?
    && LatestAttempt(before).Some? && Ambiguous(LatestAttempt(before).value) && ReconciledSince(before).None?
  }

  /** The first attempt follows no decision; every later one was promised, or made blind. */
  ghost predicate AttemptFollows(spec: OperationSpec, before: seq<Entry>, a: AttemptRecord) {
    if a.attempt <= 1 then LatestDecision(before).None? else Promised(before, a) || Unreconciled(spec, before)
  }

  /**
   An attempt numbered above the threshold follows an ambiguous external write and a probe, and that write was
   confirmed NOT_APPLIED before the promise or not reconciled at all.
   */
  ghost predicate LateJustified(spec: OperationSpec, threshold: int, before: seq<Entry>, a: AttemptRecord) {
    a.attempt > threshold ==>
      && spec.effect.ExternalWrite? && ProbedSince(before)
      && LatestAttempt(before).Some? && Ambiguous(LatestAttempt(before).value)
      && LatestAttempt(before).value.attempt == a.attempt - 1
      && (Promised(before, a) ==> DecidedAfterNotApplied(before) && ReconciledSince(before) == Some(NotApplied))
  }

  /** A RETRY answers an attempt it is safe to repeat, at once or after reconciliation, and stays in budget. */
  ghost predicate RetryJustified(spec: OperationSpec, before: seq<Entry>, d: Decision) {
    d.action.Retry? ==>
      && before != [] && LatestAttempt(before).Some?
      && var a := LatestAttempt(before).value;
         && d.nextAttempt == Some(a.attempt + 1) && a.attempt < spec.maxAttempts
         && (|| (before[|before| - 1] == AttemptEntry(a) && SafeToRepeat(spec, a))
             || (before[|before| - 1] == ReconciliationEntry(NotApplied) && spec.effect.ExternalWrite? && Ambiguous(a)))
  }

  ghost predicate EntryJustified(spec: OperationSpec, threshold: int, journal: seq<Entry>, p: nat)
    requires p < |journal|
  {
    match journal[p]
    case AttemptEntry(a) => LateJustified(spec, threshold, journal[..p], a) && AttemptFollows(spec, journal[..p], a)
    case DecisionEntry(d) => RetryJustified(spec, journal[..p], d)
    case _ => true
  }

  ghost predicate JournalSound(spec: OperationSpec, threshold: int, journal: seq<Entry>) {
    && (forall p :: 0 <= p < |journal| ==> EntryJustified(spec, threshold, journal, p))
    && (forall i :: 0 <= i < |AttemptsOf(journal)| ==> AttemptsOf(journal)[i].attempt == i + 1
                                                       && AttemptValid(AttemptsOf(journal)[i])
                                                       && AttemptsOf(journal)[i].operationId == spec.operationId)
  }

  /** Status is READY exactly when nothing was decided, and otherwise the image of the latest decision. */
  ghost predicate StatusAgrees(s: OpState) {
    match LatestDecision(s.journal)
    case None => s.status == Ready && s.latest == 0
    case Some(d) => s.status == StatusFor(d) && DecisionValid(d) && d.operationId == s.spec.operationId
                    && (d.action.Retry? ==> d.nextAttempt == Some(s.latest + 1) && s.latest < s.spec.maxAttempts)
  }

  ghost predicate Sound(s: OpState) {
    && SpecValid(s.spec) && CircuitValid(s.circuit)
    && JournalSound(s.spec, s.circuit.threshold, s.journal)
    && s.latest == |AttemptsOf(s.journal)| <= s.spec.maxAttempts
    && StatusAgrees(s)
    && (s.status.ReconcileRequired? ==> Unreconciled(s.spec, s.journal))
    && (s.status.RetryReady? && s.latest >= s.circuit.threshold ==>
          DecidedAfterNotApplied(s.journal) && ReconciledSince(s.journal) == Some(NotApplied))
    && Reconciliations(s.journal) + (if s.status.ReconcileRequired? then 1 else 0) <= s.latest
    && (!Terminal(s.status) ==>
          && s.circuit.failures == s.latest
          && (s.circuit.mode.Closed? <==> s.latest < s.circuit.threshold))
    && (!Terminal(s.status) && s.latest >= s.circuit.threshold ==>
          && s.spec.effect.ExternalWrite?
          && LatestAttempt(s.journal).Some? && Ambiguous(LatestAttempt(s.journal).value)
          && (s.circuit.mode.HalfOpen? ==> ProbedSince(s.journal)))
  }

  lemma OldEntriesStay(spec: OperationSpec, threshold: int, journal: seq<Entry>, e: Entry)
    requires JournalSound(spec, threshold, journal)
    requires e.AttemptEntry? ==>
               && LateJustified(spec, threshold, journal, e.attempt) && AttemptFollows(spec, journal, e.attempt)
               && e.attempt.attempt == |AttemptsOf(journal)| + 1
               && AttemptValid(e.attempt) && e.attempt.operationId == spec.operationId
    requires e.DecisionEntry? ==> RetryJustified(spec, journal, e.decision)
    ensures JournalSound(spec, threshold, journal + [e])
  {
    var next := journal + [e];
    Grown(journal, e);
    forall p | 0 <= p < |next| ensures EntryJustified(spec, threshold, next, p) {
      if p < |journal| {
        assert next[..p] == journal[..p] && EntryJustified(spec, threshold, journal, p);
      } else {
        assert next[..p] == journal;
      }
    }
  }

  lemma RegisteredIsSound(spec: OperationSpec, threshold: int)
    requires SpecValid(spec) && threshold >= 1
    ensures Sound(Registered(spec, Circuit(Closed, 0, threshold)))
  {
  }

  /** The journal record_attempt leaves, entry by entry. */
  lemma AttemptJournal(journal: seq<Entry>, a: AttemptRecord, d: Decision, c: Circuit)
    requires !c.mode.HalfOpen?
    ensures var next := journal + [AttemptEntry(a), DecisionEntry(d), CircuitEntry(c)];
            && AttemptsOf(next) == AttemptsOf(journal) + [a]
            && LatestAttempt(next) == Some(a) && LatestDecision(next) == Some(d)
            && Reconciliations(next) == Reconciliations(journal) && ReconciledSince(next).None?
  {
    var j1 := journal + [AttemptEntry(a)];
    var j2 := j1 + [DecisionEntry(d)];
    Grown(journal, AttemptEntry(a));
    Grown(j1, DecisionEntry(d));
    Grown(j2, CircuitEntry(c));
    assert journal + [AttemptEntry(a), DecisionEntry(d), CircuitEntry(c)] == j2 + [CircuitEntry(c)];
  }

  lemma AttemptKeepsJournal(s: OpState, a: AttemptRecord, d: Decision, c: Circuit)
    requires Sound(s) && !Terminal(s.status) && !s.circuit.mode.Open?
    requires AttemptValid(a) && a.operationId == s.spec.operationId && a.attempt == s.latest + 1
    requires d.action.Retry? ==>
               d.nextAttempt == Some(a.attempt + 1) && a.attempt < s.spec.maxAttempts && SafeToRepeat(s.spec, a)
    ensures JournalSound(s.spec, s.circuit.threshold, s.journal + [AttemptEntry(a), DecisionEntry(d), CircuitEntry(c)])
  {
    var t := s.circuit.threshold;
    var j1 := s.journal + [AttemptEntry(a)];
    var j2 := j1 + [DecisionEntry(d)];
    LatestIsLast(s.journal);
    assert LateJustified(s.spec, t, s.journal, a) && AttemptFollows(s.spec, s.journal, a);
    OldEntriesStay(s.spec, t, s.journal, AttemptEntry(a));
    Grown(s.journal, AttemptEntry(a));
    OldEntriesStay(s.spec, t, j1, DecisionEntry(d));
    OldEntriesStay(s.spec, t, j2, CircuitEntry(c));
    assert s.journal + [AttemptEntry(a), DecisionEntry(d), CircuitEntry(c)] == j2 + [CircuitEntry(c)];
  }

  /** Exactly which attempts are accepted: nothing about reconciliation is asked. */
  lemma AttemptAcceptedExactly(s: OpState, a: AttemptRecord)
    requires Sound(s) && a.operationId == s.spec.operationId
    ensures RecordStep(s, a).Ok? <==>
            && !s.circuit.mode.Open? && !Terminal(s.status) && AttemptValid(a)
            && a.attempt == s.latest + 1 && a.attempt <= s.spec.maxAttempts
    ensures RecordStep(s, a).Ok? <==>
            && s.circuit.mode != Open && s.status != Completed && s.status != Stopped
            && a.attempt == s.latest + 1 <= s.spec.maxAttempts && (a.reconciliation.Some? ==> a.outcome == Unknown)
  {
    if AttemptValid(a) && a.attempt <= s.spec.maxAttempts {
      DecideExactly(s.spec, a, s.circuit);
      CircuitCounts(s.circuit, a);
    }
  }

  /** Why an attempt is refused, the first of these that applies. */
  lemma RecordRefusedExactly(s: OpState, a: AttemptRecord)
    requires Sound(s) && a.operationId == s.spec.operationId
    ensures RecordStep(s, a).Err? ==>
              RecordStep(s, a).error == if s.circuit.mode == Open then CircuitIsOpen
                                        else if !AttemptValid(a) then InvalidAttempt
                                        else if a.attempt > s.spec.maxAttempts then ExceedsMaxAttempts
                                        else if s.status == Completed || s.status == Stopped then TerminalOperation
                                        else SequenceMismatch
  {
    RefusalsInOrder(s.spec, a, s.circuit);
    if AttemptValid(a) && a.attempt <= s.spec.maxAttempts {
      DecideExactly(s.spec, a, s.circuit);
      CircuitCounts(s.circuit, a);
    }
  }

  /** Why a reconciliation is refused: nothing waits for it, or there is no attempt of unknown outcome. */
  lemma ReconcileRefusals(s: OpState, result: Reconciliation)
    ensures s.status != ReconcileRequired ==> ReconcileStep(s, result) == Err(NotWaitingForReconciliation)
    ensures s.status == ReconcileRequired && LatestAttempt(s.journal) == None ==>
              ReconcileStep(s, result) == Err(NoAttempt)
    ensures s.status == ReconcileRequired && LatestAttempt(s.journal) != None
            && LatestAttempt(s.journal).value.outcome != Unknown ==>
              ReconcileStep(s, result) == Err(LatestAttemptNotAmbiguous)
  {
  }

  /** The status that an action leaves. */
  ghost predicate Shows(status: Status, action: Action) {
    || (action == Complete && status == Completed) || (action == Retry && status == RetryReady)
    || (action == Reconcile && status == ReconcileRequired) || (action == Stop && status == Stopped)
  }

  /** What an accepted attempt leaves: the decision by outcome, budget and threshold, the circuit, and three entries. */
  lemma RecordedExactly(s: OpState, a: AttemptRecord)
    requires Sound(s) && a.operationId == s.spec.operationId && RecordStep(s, a).Ok?
    ensures var (after, d) := RecordStep(s, a).value;
            var t, failures, written := s.circuit.threshold, s.circuit.failures + 1, s.spec.effect == ExternalWrite;
            && after.spec == s.spec && after.latest == s.latest + 1 && Shows(after.status, d.action)
            && after.circuit == (if a.outcome == Success then Circuit(Closed, 0, t)
                                 else Circuit(if failures >= t then Open else Closed, failures, t))
            && after.journal == s.journal + [AttemptEntry(a), DecisionEntry(d), CircuitEntry(after.circuit)]
            && d.operationId == s.spec.operationId
            && d.nextAttempt == (if d.action == Retry then Some(s.latest + 2) else None)
            && (d.action == Complete <==> a.outcome == Success || (written && a.reconciliation == Some(Applied)))
            && (d.action == Reconcile <==> written && a.outcome == Unknown && a.reconciliation == None)
            && (d.action == Retry <==> SafeToRepeat(s.spec, a) && s.latest + 1 < s.spec.maxAttempts && s.latest + 1 < t)
            && (d.reason == CircuitOpenedAfterThreshold <==>
                  SafeToRepeat(s.spec, a) && s.latest + 1 < s.spec.maxAttempts && s.latest + 1 >= t)
  {
    AttemptAcceptedExactly(s, a);
    DecideExactly(s.spec, a, s.circuit);
    CircuitCounts(s.circuit, a);
  }

  lemma RecordKeepsSound(s: OpState, a: AttemptRecord)
    requires Sound(s) && a.operationId == s.spec.operationId && RecordStep(s, a).Ok?
    ensures Sound(RecordStep(s, a).value.0)
  {
    AttemptAcceptedExactly(s, a);
    DecideExactly(s.spec, a, s.circuit);
    CircuitCounts(s.circuit, a);
    var decided, next := Decide(s.spec, a, s.circuit).value, NextCircuit(s.circuit, a).value;
    var d := DecisionOn(s, decided, next);
    AttemptJournal(s.journal, a, d, next);
    AttemptKeepsJournal(s, a, d, next);
  }

  lemma ReconcileJournal(s: OpState, result: Reconciliation, d: Decision)
    requires Sound(s) && s.status.ReconcileRequired?
    requires d.action.Retry? ==>
               result.NotApplied? && s.latest < s.spec.maxAttempts && d.nextAttempt == Some(s.latest + 1)
    ensures var next := s.journal + [ReconciliationEntry(result), DecisionEntry(d)];
            && JournalSound(s.spec, s.circuit.threshold, next)
            && AttemptsOf(next) == AttemptsOf(s.journal) && LatestAttempt(next) == LatestAttempt(s.journal)
            && LatestDecision(next) == Some(d) && Reconciliations(next) == Reconciliations(s.journal) + 1
            && (ProbedSince(s.journal) ==> ProbedSince(next))
            && ReconciledSince(next) == Some(result) && (DecidedAfterNotApplied(next) <==> result.NotApplied?)
  {
    var j1 := s.journal + [ReconciliationEntry(result)];
    LatestIsLast(s.journal);
    Grown(s.journal, ReconciliationEntry(result));
    OldEntriesStay(s.spec, s.circuit.threshold, s.journal, ReconciliationEntry(result));
    OldEntriesStay(s.spec, s.circuit.threshold, j1, DecisionEntry(d));
    Grown(j1, DecisionEntry(d));
    assert s.journal + [ReconciliationEntry(result), DecisionEntry(d)] == j1 + [DecisionEntry(d)];
  }

  /** Reconciliation is accepted exactly when the status asks for it, and settles the question. */
  lemma ReconcileAcceptedExactly(s: OpState, result: Reconciliation)
    requires Sound(s)
    ensures ReconcileStep(s, result).Ok? <==> s.status.ReconcileRequired?
    ensures s.status.ReconcileRequired? ==>
              var (after, d) := ReconcileStep(s, result).value;
              && (d.action.Complete? <==> result.Applied?)
              && (d.action.Retry? <==> result.NotApplied? && s.latest < s.spec.maxAttempts)
              && (d.action.Retry? ==> d.nextAttempt == Some(s.latest + 1))
              && !d.action.Reconcile? && DecisionValid(d) && d.operationId == s.spec.operationId
              && after.status == StatusFor(d)
  {
    LatestIsLast(s.journal);
    if s.status.ReconcileRequired? {
      var previous := LatestAttempt(s.journal).value;
      DecideExactly(s.spec, previous.(reconciliation := Some(result)), DEFAULT_CIRCUIT);
    }
  }

  /** What a reconciliation leaves: the answer settles the action, the circuit stays, and two entries are added. */
  lemma ReconciledExactly(s: OpState, result: Reconciliation)
    requires Sound(s) && s.status == ReconcileRequired
    ensures ReconcileStep(s, result).Ok?
    ensures var (after, d) := ReconcileStep(s, result).value;
            && after.spec == s.spec && after.latest == s.latest && after.circuit == s.circuit
            && Shows(after.status, d.action) && d.operationId == s.spec.operationId
            && after.journal == s.journal + [ReconciliationEntry(result), DecisionEntry(d)]
            && match result
               case Applied => d.action == Complete && d.reason == ConfirmedApplied && d.nextAttempt == None
               case NotApplied =>
                 if s.latest < s.spec.maxAttempts
                 then d.action == Retry && d.reason == ConfirmedNotApplied && d.nextAttempt == Some(s.latest + 1)
                 else d.action == Stop && d.reason == RetryBudgetExhausted(ConfirmedNotApplied) && d.nextAttempt == None
               case StillUnknown => d.action == Stop && d.reason == RemainsUnknown && d.nextAttempt == None
  {
    LatestIsLast(s.journal);
    var previous := LatestAttempt(s.journal).value;
    ReconcileAcceptedExactly(s, result);
    ReasonsExactly(s.spec, previous.(reconciliation := Some(result)), DEFAULT_CIRCUIT);
  }

  lemma ReconcileKeepsSound(s: OpState, result: Reconciliation)
    requires Sound(s) && ReconcileStep(s, result).Ok?
    ensures Sound(ReconcileStep(s, result).value.0)
  {
    ReconcileAcceptedExactly(s, result);
    var (after, d) := ReconcileStep(s, result).value;
    ReconcileJournal(s, result, d);
  }

  /** After a probe the next attempt in budget is accepted, and refused without one. */
  lemma ProbedAttemptIsAccepted(s: OpState, a: AttemptRecord)
    requires Sound(s) && !Terminal(s.status) && s.circuit.mode.Open?
    requires AttemptValid(a) && a.operationId == s.spec.operationId
    requires a.attempt == s.latest + 1 <= s.spec.maxAttempts
    ensures !Accepted(s, Record(a)) && Accepted(s, Probe)
    ensures var half := Exec(s, Probe);
            && half.circuit == Circuit(HalfOpen, s.circuit.failures, s.circuit.threshold)
            && half.spec == s.spec && half.status == s.status && half.latest == s.latest
            && Accepted(half, Record(a))
  {
    ProbeExactly(s.circuit);
    ProbeKeepsSound(s);
    AttemptAcceptedExactly(Exec(s, Probe), a);
  }

  lemma ProbeKeepsSound(s: OpState)
    requires Sound(s) && ProbeStep(s).Ok?
    ensures Sound(ProbeStep(s).value)
  {
    var c := ToHalfOpen(s.circuit).value;
    Grown(s.journal, CircuitEntry(c));
    OldEntriesStay(s.spec, s.circuit.threshold, s.journal, CircuitEntry(c));
  }

  lemma ExecKeepsSound(s: OpState, call: Call)
    requires Sound(s)
    ensures Sound(Exec(s, call))
    ensures Exec(s, call).spec == s.spec && Exec(s, call).circuit.threshold == s.circuit.threshold
    ensures s.journal <= Exec(s, call).journal
  {
    if Accepted(s, call) {
      match call
      case Record(a) => RecordKeepsSound(s, a); CircuitCounts(s.circuit, a);
      case Reconciled(r) => ReconcileKeepsSound(s, r);
      case Probe => ProbeKeepsSound(s);
    }
  }

  lemma {:induction false} RunKeepsSound(s: OpState, calls: seq<Call>)
    requires Sound(s)
    ensures Sound(Run(s, calls))
    ensures Run(s, calls).spec == s.spec && Run(s, calls).circuit.threshold == s.circuit.threshold
  {
    if calls == [] {
    } else {
      RunKeepsSound(s, calls[..|calls| - 1]);
      ExecKeepsSound(Run(s, calls[..|calls| - 1]), calls[|calls| - 1]);
    }
  }

  // ------------------------------------------------------------------------
  // What follows for every run of an operation registered with threshold t

  function Min(a: int, b: int): int { if a <= b then a else b }

  /** The attempts of an operation that does not write externally: no more than budget and threshold. */
  lemma AttemptBound(spec: OperationSpec, t: int, calls: seq<Call>)
    requires SpecValid(spec) && t >= 1
    ensures var s := Run(Registered(spec, Circuit(Closed, 0, t)), calls);
            && |AttemptsOf(s.journal)| <= spec.maxAttempts
            && (!spec.effect.ExternalWrite? ==> |AttemptsOf(s.journal)| <= Min(spec.maxAttempts, t))
  {
    var start := Registered(spec, Circuit(Closed, 0, t));
    RegisteredIsSound(spec, t);
    RunKeepsSound(start, calls);
    var s := Run(start, calls);
    if |AttemptsOf(s.journal)| > t { LateAttemptIsExternal(s, |AttemptsOf(s.journal)|); }
  }

  lemma {:induction false} AttemptPosition(journal: seq<Entry>, i: nat) returns (p: nat)
    requires i < |AttemptsOf(journal)|
    ensures p < |journal| && journal[p] == AttemptEntry(AttemptsOf(journal)[i])
  {
    var init := journal[..|journal| - 1];
    if i < |AttemptsOf(init)| { p := AttemptPosition(init, i); } else { p := |journal| - 1; }
  }

  lemma LateAttemptIsExternal(s: OpState, n: nat)
    requires Sound(s) && s.circuit.threshold < n <= |AttemptsOf(s.journal)|
    ensures s.spec.effect.ExternalWrite?
  {
    var p := AttemptPosition(s.journal, n - 1);
    assert EntryJustified(s.spec, s.circuit.threshold, s.journal, p);
  }

  /**
   Above the threshold: an attempt numbered k >= t that has a successor was recorded UNKNOWN for an external write,
   and the circuit was probed between the two. Between them the write was confirmed NOT_APPLIED and the successor
   promised, or it was never reconciled and the successor made blind.
   */
  lemma LateAttemptsWereProbed(spec: OperationSpec, t: int, calls: seq<Call>, p: nat)
    requires SpecValid(spec) && t >= 1
    requires var s := Run(Registered(spec, Circuit(Closed, 0, t)), calls);
             p < |s.journal| && s.journal[p].AttemptEntry? && s.journal[p].attempt.attempt > t
    ensures var s := Run(Registered(spec, Circuit(Closed, 0, t)), calls);
            var before, k := s.journal[..p], s.journal[p].attempt.attempt - 1;
            && k >= t && spec.effect.ExternalWrite? && ProbedSince(before)
            && LatestAttempt(before).Some? && LatestAttempt(before).value.attempt == k
            && Ambiguous(LatestAttempt(before).value)
            && (if Promised(before, s.journal[p].attempt) then ReconciledSince(before) == Some(NotApplied)
                else Unreconciled(spec, before))
  {
    var start := Registered(spec, Circuit(Closed, 0, t));
    RegisteredIsSound(spec, t);
    RunKeepsSound(start, calls);
    var s := Run(start, calls);
    assert EntryJustified(s.spec, s.circuit.threshold, s.journal, p);
  }

  /** No blind retry is ever decided: each journalled RETRY is justified by what stands before it. */
  lemma EveryRetryIsJustified(spec: OperationSpec, t: int, calls: seq<Call>, p: nat)
    requires SpecValid(spec) && t >= 1
    requires var s := Run(Registered(spec, Circuit(Closed, 0, t)), calls);
             p < |s.journal| && s.journal[p].DecisionEntry? && s.journal[p].decision.action.Retry?
    ensures var s := Run(Registered(spec, Circuit(Closed, 0, t)), calls);
            RetryJustified(spec, s.journal[..p], s.journal[p].decision)
  {
    var start := Registered(spec, Circuit(Closed, 0, t));
    RegisteredIsSound(spec, t);
    RunKeepsSound(start, calls);
    var s := Run(start, calls);
    assert EntryJustified(s.spec, s.circuit.threshold, s.journal, p);
  }

  /** A promised retry is honoured: the attempt it names is accepted whenever the circuit is not OPEN. */
  lemma RetryIsHonoured(s: OpState, a: AttemptRecord)
    requires Sound(s) && s.status.RetryReady? && !s.circuit.mode.Open?
    requires AttemptValid(a) && a.operationId == s.spec.operationId
    ensures LatestDecision(s.journal).Some? && LatestDecision(s.journal).value.action.Retry?
    ensures Some(a.attempt) == LatestDecision(s.journal).value.nextAttempt <==> RecordStep(s, a).Ok?
  {
    AttemptAcceptedExactly(s, a);
  }

  /** Reconciling under an OPEN circuit leaves it OPEN, whatever is decided. */
  lemma RetryReadyWhileOpen(s: OpState, result: Reconciliation)
    requires Sound(s) && s.status.ReconcileRequired? && s.circuit.mode.Open?
    ensures ReconcileStep(s, result).Ok?
    ensures var (after, d) := ReconcileStep(s, result).value;
            after.circuit.mode.Open?
            && (after.status.RetryReady? <==> result.NotApplied? && s.latest < s.spec.maxAttempts)
  {
    ReconcileAcceptedExactly(s, result);
  }

  lemma RecordedRetryIsNeverOpen(s: OpState, a: AttemptRecord)
    requires Sound(s) && a.operationId == s.spec.operationId && RecordStep(s, a).Ok?
    ensures var (after, d) := RecordStep(s, a).value;
            && (after.status.RetryReady? <==>
                  SafeToRepeat(s.spec, a) && a.attempt < s.spec.maxAttempts && a.attempt < s.circuit.threshold)
            && (after.status.RetryReady? ==> !after.circuit.mode.Open?)
  {
    AttemptAcceptedExactly(s, a);
    DecideExactly(s.spec, a, s.circuit);
    CircuitCounts(s.circuit, a);
  }

  /**
   RETRY_READY beside a circuit that is not CLOSED is possible exactly from the threshold on, and then the retry was
   decided directly after a reconciliation that confirmed NOT_APPLIED.
   */
  lemma RetryReadyBesideOpen(spec: OperationSpec, t: int, calls: seq<Call>)
    requires SpecValid(spec) && t >= 1
    ensures var s := Run(Registered(spec, Circuit(Closed, 0, t)), calls);
            s.status.RetryReady? ==>
              && (!s.circuit.mode.Closed? <==> s.latest >= t)
              && (!s.circuit.mode.Closed? ==>
                    DecidedAfterNotApplied(s.journal) && ReconciledSince(s.journal) == Some(NotApplied))
  {
    RegisteredIsSound(spec, t);
    RunKeepsSound(Registered(spec, Circuit(Closed, 0, t)), calls);
  }

  /**
   Where every attempt comes from: the first follows no decision, and each later one was either promised by name in
   the latest decision, or made blind while an ambiguous external write stood unreconciled; never both.
   */
  lemma EveryAttemptIsPromisedOrBlind(spec: OperationSpec, t: int, calls: seq<Call>, p: nat)
    requires SpecValid(spec) && t >= 1
    requires var s := Run(Registered(spec, Circuit(Closed, 0, t)), calls); p < |s.journal| && s.journal[p].AttemptEntry?
    ensures var s := Run(Registered(spec, Circuit(Closed, 0, t)), calls);
            var before, a := s.journal[..p], s.journal[p].attempt;
            && (a.attempt <= 1 ==> LatestDecision(before).None?)
            && (a.attempt > 1 ==> (Promised(before, a) <==> !Unreconciled(spec, before)))
  {
    var start := Registered(spec, Circuit(Closed, 0, t));
    RegisteredIsSound(spec, t);
    RunKeepsSound(start, calls);
    var s := Run(start, calls);
    assert EntryJustified(s.spec, s.circuit.threshold, s.journal, p);
  }

  /**
   Recording, unlike deciding, does not wait for reconciliation: an ambiguous external write accepts the next
   attempt while RECONCILE_REQUIRED exactly when the circuit is not OPEN and the budget is not spent.
   */
  lemma AmbiguousWriteMayBeAttemptedAgain(s: OpState, a: AttemptRecord)
    requires Sound(s) && s.status.ReconcileRequired? && AttemptValid(a) && a.operationId == s.spec.operationId
    requires a.attempt == s.latest + 1
    ensures RecordStep(s, a).Ok? <==> !s.circuit.mode.Open? && s.latest < s.spec.maxAttempts
    ensures Unreconciled(s.spec, s.journal)
  {
    AttemptAcceptedExactly(s, a);
  }

  /** A run in which that happens: two attempts of an external write, the first never reconciled. */
  lemma BlindSecondAttempt(spec: OperationSpec)
    requires SpecValid(spec) && spec.effect.ExternalWrite? && spec.maxAttempts >= 2
    ensures var first := AttemptRecord(spec.operationId, 1, Unknown, None, None);
            var second := AttemptRecord(spec.operationId, 2, Success, None, None);
            var s := Run(Registered(spec, DEFAULT_CIRCUIT), [Record(first), Record(second)]);
            AttemptsOf(s.journal) == [first, second] && Reconciliations(s.journal) == 0 && s.status.Completed?
  {
    var first := AttemptRecord(spec.operationId, 1, Unknown, None, None);
    var second := AttemptRecord(spec.operationId, 2, Success, None, None);
    var s0 := Registered(spec, DEFAULT_CIRCUIT);
    RegisteredIsSound(spec, 3);
    AttemptAcceptedExactly(s0, first);
    RecordKeepsSound(s0, first);
    var s1 := RecordStep(s0, first).value.0;
    AttemptJournal(s0.journal, first, RecordStep(s0, first).value.1, s1.circuit);
    AttemptAcceptedExactly(s1, second);
    var s2 := RecordStep(s1, second).value.0;
    AttemptJournal(s1.journal, second, RecordStep(s1, second).value.1, s2.circuit);
    var calls := [Record(first), Record(second)];
    assert calls[..1] == [Record(first)] && calls[..1][..0] == [];
    assert Run(s0, [Record(first)]) == s1;
  }

  // ------------------------------------------------------------------------
  // Settlement

  /** How many attempt and reconcile calls a run accepts. */
  function AcceptedCalls(s: OpState, calls: seq<Call>): nat {
    if calls == [] then 0 else
    var before, last := Run(s, calls[..|calls| - 1]), calls[|calls| - 1];
    AcceptedCalls(s, calls[..|calls| - 1]) + (if !last.Probe? && Accepted(before, last) then 1 else 0)
  }

  lemma {:induction false} CallsAreJournalled(s: OpState, calls: seq<Call>)
    requires Sound(s)
    ensures AcceptedCalls(s, calls) + |AttemptsOf(s.journal)| + Reconciliations(s.journal)
            == |AttemptsOf(Run(s, calls).journal)| + Reconciliations(Run(s, calls).journal)
  {
    if calls == [] {
    } else {
      var init, last := calls[..|calls| - 1], calls[|calls| - 1];
      CallsAreJournalled(s, init);
      RunKeepsSound(s, init);
      var before := Run(s, init);
      if Accepted(before, last) {
        match last
        case Record(a) =>
          CircuitCounts(before.circuit, a);
          AttemptJournal(before.journal, a, RecordStep(before, a).value.1, RecordStep(before, a).value.0.circuit);
        case Reconciled(r) =>
          ReconcileAcceptedExactly(before, r);
          ReconcileJournal(before, r, ReconcileStep(before, r).value.1);
        case Probe =>
          Grown(before.journal, CircuitEntry(ProbeStep(before).value.circuit));
      }
    }
  }

  /** Every operation settles: at most 2 * max_attempts attempt and reconcile calls are ever accepted. */
  lemma EveryOperationSettles(spec: OperationSpec, t: int, calls: seq<Call>)
    requires SpecValid(spec) && t >= 1
    ensures AcceptedCalls(Registered(spec, Circuit(Closed, 0, t)), calls) <= 2 * spec.maxAttempts
  {
    var start := Registered(spec, Circuit(Closed, 0, t));
    RegisteredIsSound(spec, t);
    RunKeepsSound(start, calls);
    CallsAreJournalled(start, calls);
  }

  /** The status an outside reader sees is the journal's. */
  lemma StatusIsTheJournals(spec: OperationSpec, t: int, calls: seq<Call>)
    requires SpecValid(spec) && t >= 1
    ensures var s := Run(Registered(spec, Circuit(Closed, 0, t)), calls);
            && (s.status == Ready <==> LatestDecision(s.journal).None?)
            && (LatestDecision(s.journal).Some? ==> s.status == StatusFor(LatestDecision(s.journal).value))
            && s.latest == |AttemptsOf(s.journal)|
            && (forall i :: 0 <= i < s.latest ==> AttemptsOf(s.journal)[i].attempt == i + 1)
            && (s.status.ReconcileRequired? <==> Unreconciled(spec, s.journal))
  {
    RegisteredIsSound(spec, t);
    RunKeepsSound(Registered(spec, Circuit(Closed, 0, t)), calls);
  }
}
