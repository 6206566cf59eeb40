/** Pure decision logic for retry, reconciliation and stop. */
module ReliabilityEngine {
  import opened Wrappers
  import opened ReliabilityContracts

  function Checked(d: Decision): Result<Decision, ReliabilityError> {
    if DecisionValid(d) then Ok(d) else Err(InvalidDecision)
  }

  function Plain(o: OperationSpec, action: Action, reason: Reason): Result<Decision, ReliabilityError> {
    Checked(Decision(o.operationId, action, reason, None))
  }

  function RetryOrStop(o: OperationSpec, a: AttemptRecord, reason: Reason): Result<Decision, ReliabilityError> {
    if a.attempt >= o.maxAttempts then Plain(o, Stop, RetryBudgetExhausted(reason))
    else Checked(Decision(o.operationId, Retry, reason, Some(a.attempt + 1)))
  }

  /** decide: absent circuits count as the default one. */
  function Decide(o: OperationSpec, a: AttemptRecord, circuit: Circuit): Result<Decision, ReliabilityError> {
    if !SpecValid(o) then Err(InvalidOperation)
    else if !AttemptValid(a) then Err(InvalidAttempt)
    else if !CircuitValid(circuit) then Err(InvalidCircuit)
    else if a.operationId != o.operationId then Err(IdentityMismatch)
    else if a.attempt > o.maxAttempts then Err(ExceedsMaxAttempts)
    else if circuit.mode.Open? then Plain(o, Stop, CircuitOpenReason)
    else match a.outcome
      case Success => Plain(o, Complete, OperationSucceeded)
      case TerminalFailure => Plain(o, Stop, TerminalFailureReason)
      case RetryableFailure => RetryOrStop(o, a, RetryableFailureReason)
      case Unknown =>
        match o.effect
        case ExternalWrite =>
          (match a.reconciliation
           case None => Plain(o, Reconcile, ExternalWriteUnknown)
           case Some(Applied) => Plain(o, Complete, ConfirmedApplied)
           case Some(NotApplied) => RetryOrStop(o, a, ConfirmedNotApplied)
           case Some(StillUnknown) => Plain(o, Stop, RemainsUnknown))
        case ReadOnly => RetryOrStop(o, a, ReadUnknown)
        case LocalWrite => Plain(o, Stop, LocalWriteUnknown)
  }

  function NextCircuit(current: Circuit, a: AttemptRecord): Result<Circuit, ReliabilityError> {
    if !CircuitValid(current) then Err(InvalidCircuit)
    else if !AttemptValid(a) then Err(InvalidAttempt)
    else if a.outcome.Success? then Ok(Circuit(Closed, 0, current.threshold))
    else
      var failures := current.failures + 1;
      Ok(Circuit(if failures >= current.threshold then Open else Closed, failures, current.threshold))
  }

  function ToHalfOpen(current: Circuit): Result<Circuit, ReliabilityError> {
    if !CircuitValid(current) then Err(InvalidCircuit)
    else if !current.mode.Open? then Err(OnlyOpenCanProbe)
    else Ok(Circuit(HalfOpen, current.failures, current.threshold))
  }

  /** An ambiguous attempt: an UNKNOWN outcome recorded without a reconciliation result. */
  predicate Ambiguous(a: AttemptRecord) {
    a.outcome.Unknown? && a.reconciliation.None?
  }

  /** The only outcomes after which another attempt cannot repeat an effect. */
  predicate SafeToRepeat(o: OperationSpec, a: AttemptRecord) {
    || a.outcome.RetryableFailure?
    || (a.outcome.Unknown? && o.effect.ReadOnly?)
    || (a.outcome.Unknown? && o.effect.ExternalWrite? && a.reconciliation == Some(NotApplied))
  }

  /** Repeating is safe after a failure that may be retried, a lost read, and an external write found not applied. */
  lemma SafeExactly(o: OperationSpec, a: AttemptRecord)
    requires AttemptValid(a)
    ensures SafeToRepeat(o, a) <==>
            && !a.outcome.Success? && !a.outcome.TerminalFailure?
            && (a.outcome.Unknown? && !o.effect.ReadOnly? ==>
                  o.effect.ExternalWrite? && a.reconciliation == Some(NotApplied))
  {
  }

  /** decide never fails on well-formed arguments, and this is when it takes each action. */
  lemma DecideExactly(o: OperationSpec, a: AttemptRecord, c: Circuit)
    requires SpecValid(o) && AttemptValid(a) && CircuitValid(c)
    requires a.operationId == o.operationId && a.attempt <= o.maxAttempts
    ensures var r := Decide(o, a, c);
            && r.Ok? && DecisionValid(r.value) && r.value.operationId == o.operationId
            && (r.value.action.Retry? <==> !c.mode.Open? && SafeToRepeat(o, a) && a.attempt < o.maxAttempts)
            && (r.value.action.Retry? ==> r.value.nextAttempt == Some(a.attempt + 1))
            && (r.value.action.Reconcile? <==> !c.mode.Open? && o.effect.ExternalWrite? && Ambiguous(a))
            && (r.value.action.Complete? <==>
                  !c.mode.Open? && (a.outcome.Success? || (o.effect.ExternalWrite? &&
                    a.reconciliation == Some(Applied))))
  {
  }

  /** Each reason stands for one situation, and a decision gives the reason of its own. */
  lemma ReasonsExactly(o: OperationSpec, a: AttemptRecord, c: Circuit)
    requires SpecValid(o) && AttemptValid(a) && CircuitValid(c)
    requires a.operationId == o.operationId && a.attempt <= o.maxAttempts
    ensures var reason := Decide(o, a, c).value.reason;
            var shut, lost, spent := !c.mode.Open?, a.outcome.Unknown?, a.attempt == o.maxAttempts;
            var written := shut && lost && o.effect.ExternalWrite?;
            && (reason == CircuitOpenReason <==> c.mode.Open?)
            && (reason == OperationSucceeded <==> shut && a.outcome.Success?)
            && (reason == TerminalFailureReason <==> shut && a.outcome.TerminalFailure?)
            && (reason == RetryableFailureReason <==> shut && a.outcome.RetryableFailure? && !spent)
            && (reason == RetryBudgetExhausted(RetryableFailureReason) <==>
                  shut && a.outcome.RetryableFailure? && spent)
            && (reason == ReadUnknown <==> shut && lost && o.effect.ReadOnly? && !spent)
            && (reason == RetryBudgetExhausted(ReadUnknown) <==> shut && lost && o.effect.ReadOnly? && spent)
            && (reason == LocalWriteUnknown <==> shut && lost && o.effect.LocalWrite?)
            && (reason == ExternalWriteUnknown <==> written && a.reconciliation.None?)
            && (reason == ConfirmedApplied <==> written && a.reconciliation == Some(Applied))
            && (reason == ConfirmedNotApplied <==> written && a.reconciliation == Some(NotApplied) && !spent)
            && (reason == RetryBudgetExhausted(ConfirmedNotApplied) <==>
                  written && a.reconciliation == Some(NotApplied) && spent)
            && (reason == RemainsUnknown <==> written && a.reconciliation == Some(StillUnknown))
  {
  }

  /** A probe is for an OPEN circuit, and leaves it HALF_OPEN with its counts. */
  lemma ProbeExactly(c: Circuit)
    requires CircuitValid(c)
    ensures ToHalfOpen(c).Ok? <==> c.mode == Open
    ensures ToHalfOpen(c).Ok? ==>
              var half := ToHalfOpen(c).value;
              half.mode == HalfOpen && half.failures == c.failures && half.threshold == c.threshold
    ensures c.mode != Open ==> ToHalfOpen(c) == Err(OnlyOpenCanProbe)
  {
  }

  /** What decide and the circuit refuse, the first of these that applies. */
  lemma RefusalsInOrder(o: OperationSpec, a: AttemptRecord, c: Circuit)
    ensures Decide(o, a, c).Err? ==>
              Decide(o, a, c).error == if !SpecValid(o) then InvalidOperation
                                       else if !AttemptValid(a) then InvalidAttempt
                                       else if !CircuitValid(c) then InvalidCircuit
                                       else if a.operationId != o.operationId then IdentityMismatch
                                       else ExceedsMaxAttempts
    ensures NextCircuit(c, a).Err? ==>
              NextCircuit(c, a).error == if !CircuitValid(c) then InvalidCircuit else InvalidAttempt
  {
    if SpecValid(o) && AttemptValid(a) && CircuitValid(c) && a.operationId == o.operationId
       && a.attempt <= o.maxAttempts {
      DecideExactly(o, a, c);
    }
  }

  /** The circuit counts failures since the last success, and opens when they reach the threshold. */
  lemma CircuitCounts(c: Circuit, a: AttemptRecord)
    requires CircuitValid(c) && AttemptValid(a)
    ensures var r := NextCircuit(c, a);
            && r.Ok? && CircuitValid(r.value) && r.value.threshold == c.threshold
            && r.value.failures == (if a.outcome.Success? then 0 else c.failures + 1)
            && !r.value.mode.HalfOpen? && (r.value.mode.Open? <==> r.value.failures >= c.threshold)
  {
  }
}
