/** Records of the reliability controller and the checks they make on themselves. */
module ReliabilityContracts {
  import opened Wrappers
  import opened Text

  datatype EffectClass = ReadOnly | LocalWrite | ExternalWrite
  datatype Outcome = Success | RetryableFailure | TerminalFailure | Unknown
  datatype Reconciliation = Applied | NotApplied | StillUnknown
  datatype Action = Complete | Retry | Reconcile | Stop
  datatype CircuitMode = Closed | Open | HalfOpen
  datatype Status = Ready | RetryReady | ReconcileRequired | Completed | Stopped

  datatype OperationSpec = OperationSpec(
    operationId: string,
    missionId: string,
    effect: EffectClass,
    maxAttempts: int,
    timeoutSeconds: int,
    idempotencyKey: Option<string>,
    reconciliationSupported: bool,
    compensationRef: Option<string>)

  predicate SpecValid(o: OperationSpec) {
    && !IsBlank(o.operationId) && !IsBlank(o.missionId)
    && o.maxAttempts >= 1 && o.timeoutSeconds >= 1
    && (o.effect.ReadOnly? ==> o.compensationRef.None?)
    && (o.effect.ExternalWrite? ==>
          o.idempotencyKey.Some? && !IsBlank(o.idempotencyKey.value) && o.reconciliationSupported)
  }

  datatype AttemptRecord = AttemptRecord(
    operationId: string,
    attempt: int,
    outcome: Outcome,
    errorCode: Option<string>,
    reconciliation: Option<Reconciliation>)

  predicate AttemptValid(a: AttemptRecord) {
    && !IsBlank(a.operationId) && a.attempt >= 1
    && (a.outcome != Unknown ==> a.reconciliation.None?)
  }

  datatype Circuit = Circuit(mode: CircuitMode, failures: int, threshold: int)

  predicate CircuitValid(c: Circuit) {
    c.failures >= 0 && c.threshold >= 1 && (c.mode.Open? ==> c.failures >= c.threshold)
  }

  const DEFAULT_CIRCUIT := Circuit(Closed, 0, 3)

  /** The reason texts of decisions; none of them is blank. */
  datatype Reason =
    | CircuitOpenReason
    | OperationSucceeded
    | TerminalFailureReason
    | RetryableFailureReason
    | ExternalWriteUnknown
    | ConfirmedApplied
    | ConfirmedNotApplied
    | RemainsUnknown
    | ReadUnknown
    | LocalWriteUnknown
    | CircuitOpenedAfterThreshold
    | RetryBudgetExhausted(base: Reason)

  datatype Decision = Decision(operationId: string, action: Action, reason: Reason, nextAttempt: Option<int>)

  predicate DecisionValid(d: Decision) {
    && !IsBlank(d.operationId)
    && (if d.action.Retry? then d.nextAttempt.Some? && d.nextAttempt.value >= 2 else d.nextAttempt.None?)
  }

  /** What attempts, circuits and decisions are refused for. */
  lemma RefusedExactly(a: AttemptRecord, c: Circuit, d: Decision)
    ensures !AttemptValid(a) <==>
            IsBlank(a.operationId) || a.attempt < 1 || (a.reconciliation != None && a.outcome != Unknown)
    ensures !CircuitValid(c) <==> c.failures < 0 || c.threshold < 1 || (c.mode == Open && c.failures < c.threshold)
    ensures !DecisionValid(d) <==>
            || IsBlank(d.operationId) || (d.action == Retry && d.nextAttempt == None)
            || (d.nextAttempt != None && (d.action != Retry || d.nextAttempt.value < 2))
  {
  }

  datatype ReliabilityError =
    | InvalidOperation
    | DuplicateOperation
    | UnknownOperation
    | InvalidAttempt
    | InvalidCircuit
    | InvalidDecision
    | IdentityMismatch
    | ExceedsMaxAttempts
    | CircuitIsOpen
    | OnlyOpenCanProbe
    | TerminalOperation
    | SequenceMismatch
    | NotWaitingForReconciliation
    | LatestAttemptNotAmbiguous
    | NoAttempt
    | NoDecision
}
