/** Runs of one operation that reach states its rules only allow. */
module ReliabilityWitnesses {
  import opened Wrappers
  import opened ReliabilityContracts
  import opened ReliabilityEngine
  import opened ReliabilityRuns

  /** An attempt whose outcome nobody knows. */
  function Lost(spec: OperationSpec, n: int): AttemptRecord {
    AttemptRecord(spec.operationId, n, Unknown, None, None)
  }

  /** The outcome of an attempt is lost, and then found not to have happened. */
  function LostAndDenied(s: OpState): OpState {
    Exec(Exec(s, Record(Lost(s.spec, s.latest + 1))), Reconciled(NotApplied))
  }

  /** With attempts left and the circuit CLOSED, that ends RETRY_READY with one failure more. */
  lemma DeniedMayRetry(s: OpState)
    requires Sound(s) && s.spec.effect.ExternalWrite? && (s.status.Ready? || s.status.RetryReady?)
    requires s.circuit.mode.Closed? && s.latest + 1 < s.spec.maxAttempts
    ensures var after := LostAndDenied(s);
            && Sound(after) && after.spec == s.spec && after.status.RetryReady? && after.latest == s.latest + 1
            && after.circuit.threshold == s.circuit.threshold
            && after.circuit.mode == if s.latest + 1 >= s.circuit.threshold then Open else Closed
  {
    var a := Lost(s.spec, s.latest + 1);
    AttemptAcceptedExactly(s, a);
    DecideExactly(s.spec, a, s.circuit);
    CircuitCounts(s.circuit, a);
    RecordKeepsSound(s, a);
    var recorded := Exec(s, Record(a));
    assert recorded == RecordStep(s, a).value.0 && recorded.status.ReconcileRequired?;
    ReconcileAcceptedExactly(recorded, NotApplied);
    ReconcileKeepsSound(recorded, NotApplied);
  }

  /** n lost attempts, each found not to have been applied. */
  function Denied(spec: OperationSpec, n: nat): seq<Call> {
    if n == 0 then [] else Denied(spec, n - 1) + [Record(Lost(spec, n))] + [Reconciled(NotApplied)]
  }

  lemma RunAppend(s: OpState, calls: seq<Call>, last: Call)
    ensures Run(s, calls + [last]) == Exec(Run(s, calls), last)
  {
    assert (calls + [last])[..|calls|] == calls;
  }

  /** The state after n lost and denied attempts under threshold t. */
  ghost predicate AfterDenied(s: OpState, spec: OperationSpec, t: int, n: nat) {
    && Sound(s) && s.spec == spec && s.latest == n && s.circuit.threshold == t
    && s.status == (if n == 0 then Ready else RetryReady)
    && s.circuit.mode == if n >= t then Open else Closed
  }

  lemma OneMoreDenied(s: OpState, spec: OperationSpec, t: int, n: nat)
    requires AfterDenied(s, spec, t, n) && spec.effect.ExternalWrite? && n < t && n + 1 < spec.maxAttempts
    ensures AfterDenied(Exec(Exec(s, Record(Lost(spec, n + 1))), Reconciled(NotApplied)), spec, t, n + 1)
  {
    DeniedMayRetry(s);
  }

  /** What each step keeps, n of them keep. */
  lemma {:induction false} StepsKeep(run: nat -> OpState, step: (OpState, nat) -> OpState, inv: (OpState, nat) -> bool,
                                     n: nat)
    requires inv(run(0), 0) && forall k: nat :: k < n ==> run(k + 1) == step(run(k), k)
    requires forall s, k: nat :: k < n && inv(s, k) ==> inv(step(s, k), k + 1)
    ensures inv(run(n), n)
  {
    if n == 0 {
    } else {
      StepsKeep(run, step, inv, n - 1);
      assert run((n - 1) + 1) == step(run(n - 1), n - 1);
    }
  }

  function DeniedOnce(s: OpState, spec: OperationSpec, k: nat): OpState {
    Exec(Exec(s, Record(Lost(spec, k + 1))), Reconciled(NotApplied))
  }

  lemma DeniedOnceMore(start: OpState, spec: OperationSpec, k: nat)
    ensures Run(start, Denied(spec, k + 1)) == DeniedOnce(Run(start, Denied(spec, k)), spec, k)
  {
    TwoMore(start, Denied(spec, k), Run(start, Denied(spec, k)), Record(Lost(spec, k + 1)), Reconciled(NotApplied));
  }

  lemma TwoMore(s: OpState, calls: seq<Call>, before: OpState, a: Call, b: Call)
    requires Run(s, calls) == before
    ensures Run(s, calls + [a] + [b]) == Exec(Exec(before, a), b)
  {
    RunAppend(s, calls, a);
    RunAppend(s, calls + [a], b);
  }

  /** The state that many lost and denied attempts lead to. */
  lemma DeniedLeads(spec: OperationSpec, t: int)
    requires SpecValid(spec) && spec.effect.ExternalWrite? && 1 <= t < spec.maxAttempts
    ensures AfterDenied(Run(Registered(spec, Circuit(Closed, 0, t)), Denied(spec, t)), spec, t, t)
  {
    var start := Registered(spec, Circuit(Closed, 0, t));
    var run, step := (k: nat) => Run(start, Denied(spec, k)), (s: OpState, k: nat) => DeniedOnce(s, spec, k);
    RegisteredIsSound(spec, t);
    forall k: nat | k < t ensures run(k + 1) == step(run(k), k) { DeniedOnceMore(start, spec, k); }
    forall s, k: nat | k < t && AfterDenied(s, spec, t, k) ensures AfterDenied(step(s, k), spec, t, k + 1) {
      OneMoreDenied(s, spec, t, k);
    }
    StepsKeep(run, step, (s: OpState, k: nat) => AfterDenied(s, spec, t, k), t);
  }

  /** RETRY_READY beside an OPEN circuit: every external write with a budget above the threshold can get there. */
  lemma RetryReadyBesideOpenHappens(spec: OperationSpec, t: int)
    requires SpecValid(spec) && spec.effect.ExternalWrite? && 1 <= t < spec.maxAttempts
    ensures var s := Run(Registered(spec, Circuit(Closed, 0, t)), Denied(spec, t));
            s.status.RetryReady? && s.circuit.mode.Open? && s.latest == t
  {
    DeniedLeads(spec, t);
  }

  function Succeeded(spec: OperationSpec, n: int): AttemptRecord {
    AttemptRecord(spec.operationId, n, Success, None, None)
  }

  /** An attempt numbered above the threshold does happen: the same run, then a probe, then an attempt that succeeds. */
  lemma LateAttemptHappens(spec: OperationSpec, t: int)
    requires SpecValid(spec) && spec.effect.ExternalWrite? && 1 <= t < spec.maxAttempts
    ensures var s := Run(Registered(spec, Circuit(Closed, 0, t)),
                         Denied(spec, t) + [Probe] + [Record(Succeeded(spec, t + 1))]);
            && s.latest == t + 1 && s.status.Completed? && s.circuit == Circuit(Closed, 0, t)
            && LatestAttempt(s.journal) == Some(Succeeded(spec, t + 1))
  {
    DeniedLeads(spec, t);
    var start, a := Registered(spec, Circuit(Closed, 0, t)), Succeeded(spec, t + 1);
    var open := Run(start, Denied(spec, t));
    TwoMore(start, Denied(spec, t), open, Probe, Record(a));
    ProbedAttemptIsAccepted(open, a);
    var half := Exec(open, Probe);
    DecideExactly(spec, a, half.circuit);
    var (after, d) := RecordStep(half, a).value;
    AttemptJournal(half.journal, a, d, after.circuit);
  }
}
