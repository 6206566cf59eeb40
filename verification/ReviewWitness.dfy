/** A run in which a task is reviewed independently and then done in its own worker's name. */
module ReviewWitness {
  import opened Wrappers
  import opened StringOrder
  import opened TaskStates
  import opened Ledger
  import opened Runner
  import opened MissionRuns
  import opened MissionNumbering
  import opened Replays

  /** A numbered call that passes the guards is accepted and commits the record. */
  lemma Passes(m: Mission, s: MissionState, q: Request, now: int)
    requires m.missionId != "" && q.actorId != "" && Numbered(s.events) && q.taskId in s.tasks
    requires Admits(s.tasks[q.taskId], q)
    ensures var next := Exec(m, s, Attempt(q, None, now));
            next.tasks == s.tasks[q.taskId := Committed(s.tasks[q.taskId], q)] && Numbered(next.events)
  {
    NumberedIdsAreFresh(s.events);
    NumberedStep(m, s, q, None, now);
  }

  function Plain(t: string, target: TaskState, actor: string): Request {
    Request(t, target, actor, [], [], [], None)
  }

  /** The requests pass the guards one after the other and lead from one record to another. */
  ghost predicate Leads(r: TaskRecord, qs: seq<Request>, end: TaskRecord)
    decreases |qs|
  {
    if qs == [] then r == end else Admits(r, qs[0]) && Leads(Committed(r, qs[0]), qs[1..], end)
  }

  lemma LeadsFirst(r: TaskRecord, q: Request, rest: seq<Request>, end: TaskRecord)
    requires Admits(r, q) && Leads(Committed(r, q), rest, end)
    ensures Leads(r, [q] + rest, end)
  {
    assert ([q] + rest)[1..] == rest;
  }

  /** What each of the requests keeps up to its place, the run keeps to the end. */
  lemma {:induction false} RunOver(m: Mission, s: MissionState, qs: seq<Request>, inv: (MissionState, nat) -> bool,
                                   n: nat)
    requires n <= |qs| && inv(s, 0)
    requires forall x, k: nat :: k < |qs| && inv(x, k) ==> inv(Exec(m, x, AttemptOf(qs[k])), k + 1)
    ensures inv(Run(m, s, Steps(qs[..n])), n)
  {
    if n == 0 {
    } else {
      RunOver(m, s, qs, inv, n - 1);
      assert Steps(qs[..n]) == Steps(qs[..n - 1]) + [AttemptOf(qs[n - 1])];
      RunAppend(m, s, Steps(qs[..n - 1]), AttemptOf(qs[n - 1]));
    }
  }

  /** Task t has come to where the requests from k on lead to the end. */
  ghost predicate OnTheWay(s: MissionState, t: string, qs: seq<Request>, k: nat, end: TaskRecord) {
    k <= |qs| && Numbered(s.events) && t in s.tasks && Leads(s.tasks[t], qs[k..], end)
  }

  lemma OneMoreRequest(m: Mission, s: MissionState, t: string, qs: seq<Request>, k: nat, end: TaskRecord)
    requires m.missionId != "" && k < |qs| && OnTheWay(s, t, qs, k, end) && qs[k].taskId == t && qs[k].actorId != ""
    ensures OnTheWay(Exec(m, s, AttemptOf(qs[k])), t, qs, k + 1, end)
  {
    assert qs[k..][0] == qs[k] && qs[k..][1..] == qs[k + 1..];
    Passes(m, s, qs[k], 0);
  }

  /** Requests that lead to a record do so in a run. */
  lemma LeadsRun(m: Mission, s: MissionState, t: string, qs: seq<Request>, end: TaskRecord)
    requires m.missionId != "" && Numbered(s.events) && t in s.tasks && Leads(s.tasks[t], qs, end)
    requires forall k :: 0 <= k < |qs| ==> qs[k].taskId == t && qs[k].actorId != ""
    ensures OnTheWay(Run(m, s, Steps(qs)), t, qs, |qs|, end)
  {
    assert qs[0..] == qs;
    forall x, k: nat | k < |qs| && OnTheWay(x, t, qs, k, end)
      ensures OnTheWay(Exec(m, x, AttemptOf(qs[k])), t, qs, k + 1, end)
    {
      OneMoreRequest(m, x, t, qs, k, end);
    }
    RunOver(m, s, qs, (x: MissionState, k: nat) => OnTheWay(x, t, qs, k, end), |qs|);
    assert qs[..|qs|] == qs;
  }

  function AttemptOf(q: Request): Step { Attempt(q, None, 0) }

  function Steps(qs: seq<Request>): seq<Step> {
    Mapped(qs, AttemptOf)
  }

  function Reviewing(t: string, actor: string): Request {
    Request(t, Review, actor, ["E"], [], [], None)
  }

  function Verifying(t: string, reviewer: string): Request {
    Request(t, TaskState.Verified, reviewer, ["E"], [reviewer], [], None)
  }

  /** The calls that bring a task to VERIFIED: the worker w does it, r reviews it. */
  function ReviewCalls(t: string, w: string, r: string): seq<Request> {
    [Plain(t, TaskState.Ready, w)] + ([Plain(t, InProgress, w)] + ([Plain(t, ReadyForVerification, w)]
    + ([Reviewing(t, w)] + ([Verifying(t, r)] + []))))
  }

  function Worked(state: TaskState, evidence: seq<string>, reviewers: seq<string>, w: string): TaskRecord {
    TaskRecord(state, evidence, reviewers, Sorted({w}), [])
  }

  lemma OnlyWorker(w: string)
    ensures w in Sorted({w}) && SetOf(Sorted({w})) == {w} && NextWorkers([], InProgress, w) == Sorted({w})
  {
    assert SetOf<string>([]) + {w} == {w};
  }

  lemma WorkLeads(t: string, w: string, rest: seq<Request>, end: TaskRecord)
    requires Leads(Worked(ReadyForVerification, [], [], w), rest, end)
    ensures Leads(NEW_TASK, [Plain(t, TaskState.Ready, w)] + ([Plain(t, InProgress, w)]
                            + ([Plain(t, ReadyForVerification, w)] + rest)), end)
  {
    OnlyWorker(w);
    LeadsFirst(Worked(InProgress, [], [], w), Plain(t, ReadyForVerification, w), rest, end);
    var ready := TaskRecord(TaskState.Ready, [], [], [], []);
    LeadsFirst(ready, Plain(t, InProgress, w), [Plain(t, ReadyForVerification, w)] + rest, end);
    LeadsFirst(NEW_TASK, Plain(t, TaskState.Ready, w),
               [Plain(t, InProgress, w)] + ([Plain(t, ReadyForVerification, w)] + rest), end);
  }

  lemma ReviewLeads(t: string, w: string, r: string)
    requires w != r
    ensures Leads(NEW_TASK, ReviewCalls(t, w, r), Worked(TaskState.Verified, ["E"], [r], w))
  {
    OnlyWorker(w);
    var end := Worked(TaskState.Verified, ["E"], [r], w);
    var review, verify := Reviewing(t, w), Verifying(t, r);
    assert SetOf([r]) * SetOf(Sorted({w})) == {};
    LeadsFirst(Worked(Review, ["E"], [], w), verify, [], end);
    LeadsFirst(Worked(ReadyForVerification, [], [], w), review, [verify] + [], end);
    WorkLeads(t, w, [review] + ([verify] + []), end);
  }

  /** The run: reviewed by r, then marked DONE with its worker w as the reviewer on record. */
  lemma DoneNamesItsWorker(m: Mission, t: string, w: string, r: string)
    requires m.missionId != "" && t in TaskIds(m) && w != "" && r != "" && w != r
    ensures var s := Run(m, Start(m, []), Steps(ReviewCalls(t, w, r)));
            var done := Exec(m, s, Attempt(Request(t, Done, w, [], [w], [], None), None, 0));
            && t in done.tasks && done.tasks[t].state == Done
            && done.tasks[t].reviewerIds == [w] && w in done.tasks[t].workerIds
  {
    ReviewLeads(t, w, r);
    LeadsRun(m, Start(m, []), t, ReviewCalls(t, w, r), Worked(TaskState.Verified, ["E"], [r], w));
    MarkDone(m, Run(m, Start(m, []), Steps(ReviewCalls(t, w, r))), t, w, r);
  }

  lemma MarkDone(m: Mission, s: MissionState, t: string, w: string, r: string)
    requires m.missionId != "" && w != "" && Numbered(s.events)
    requires t in s.tasks && s.tasks[t] == Worked(TaskState.Verified, ["E"], [r], w)
    ensures var done := Exec(m, s, Attempt(Request(t, Done, w, [], [w], [], None), None, 0));
            && t in done.tasks && done.tasks[t].state == Done
            && done.tasks[t].reviewerIds == [w] && w in done.tasks[t].workerIds
  {
    OnlyWorker(w);
    Passes(m, s, Request(t, Done, w, [], [w], [], None), 0);
  }
}
