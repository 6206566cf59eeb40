/** The deterministic mission runner: audited transitions, dependency release, replay. */
module Runner {
  import opened Wrappers
  import opened StringOrder
  import opened Decimal
  import opened TaskGraph
  import opened TaskStates
  import opened Ledger

  const TRANSITION := "TASK_STATE_TRANSITION"

  datatype TaskRecord = TaskRecord(
    state: TaskState,
    evidenceIds: seq<string>,
    reviewerIds: seq<string>,
    workerIds: seq<string>,
    objections: seq<string>)

  type Tasks = map<string, TaskRecord>

  const NEW_TASK := TaskRecord(Backlog, [], [], [], [])

  /** The arguments of one transition call. */
  datatype Request = Request(
    taskId: string,
    target: TaskState,
    actorId: string,
    evidenceIds: seq<string>,
    reviewerIds: seq<string>,
    objections: seq<string>,
    approval: Option<string>)

  datatype RunnerError =
    | MissionRequired
    | DuplicateTaskIds
    | InvalidGraph(graphError: GraphError)
    | NodesMismatch
    | UnknownTask
    | Refused(transitionError: TransitionError)
    | AppendFailed(ledgerError: LedgerError)
    | MalformedEvent
    | Unfinished(taskIds: seq<string>)

  /** The runner's mutable state: its task records and the ledger it appends to. */
  datatype MissionState = MissionState(tasks: Tasks, events: seq<AuditEvent>)

  // ------------------------------------------------------------------------
  // One transition, as a function

  function NextWorkers(workers: seq<string>, target: TaskState, actorId: string): seq<string> {
    if target.InProgress? && actorId !in workers then Sorted(SetOf(workers) + {actorId}) else workers
  }

  function ContextOf(workers: seq<string>, q: Request): TransitionContext {
    TransitionContext(q.evidenceIds, q.reviewerIds, workers, q.objections, q.approval)
  }

  /** The event id: the caller's, or one numbered by the ledger's length when there is none or it is empty. */
  function EventIdFor(events: seq<AuditEvent>, given: Option<string>): (id: string)
    ensures id != ""
  {
    if given.Some? && given.value != "" then given.value else NumberedId(|events|)
  }

  function PayloadOf(q: Request, from: TaskState, workers: seq<string>): Payload {
    map[
      "task_id" := JText(q.taskId),
      "from" := JText(Name(from)),
      "to" := JText(Name(q.target)),
      "evidence_ids" := JList(q.evidenceIds),
      "reviewer_ids" := JList(q.reviewerIds),
      "worker_ids" := JList(workers),
      "blocking_objections" := JList(q.objections),
      "human_approval_id" := if q.approval.Some? then JText(q.approval.value) else JNull
    ]
  }

  function Committed(r: TaskRecord, q: Request): TaskRecord {
    TaskRecord(
      q.target,
      if q.evidenceIds != [] then q.evidenceIds else r.evidenceIds,
      if q.reviewerIds != [] then q.reviewerIds else r.reviewerIds,
      NextWorkers(r.workerIds, q.target, q.actorId),
      q.objections)
  }

  /** The draft of the event a transition of a task in record r appends. */
  function DraftFor(missionId: string, events: seq<AuditEvent>, r: TaskRecord, q: Request, given: Option<string>,
                    now: int): Draft
  {
    Draft(EventIdFor(events, given), missionId, q.actorId, TRANSITION,
          PayloadOf(q, r.state, NextWorkers(r.workerIds, q.target, q.actorId)), now)
  }

  /** transition: guards first, then the audit append, then the record. */
  function TryTransition(missionId: string, s: MissionState, q: Request, given: Option<string>, now: int)
    : Result<MissionState, RunnerError>
  {
    if q.taskId !in s.tasks then Err(UnknownTask) else
    var r := s.tasks[q.taskId];
    var refused := ValidateTransition(r.state, q.target, ContextOf(NextWorkers(r.workerIds, q.target, q.actorId), q));
    if refused.Some? then Err(Refused(refused.value)) else
    match Appended(s.events, DraftFor(missionId, s.events, r, q, given, now))
    case Err(e) => Err(AppendFailed(e))
    case Ok(event) => Ok(MissionState(s.tasks[q.taskId := Committed(r, q)], s.events + [event]))
  }

  // ------------------------------------------------------------------------
  // What a transition asks for and what it leaves

  /** A legal move, with the evidence, the independent reviewers and the approval that it needs. */
  predicate PassesGuards(r: TaskRecord, q: Request) {
    && r.state in Origins(q.target)
    && (q.target == Review || q.target == Verified ==> q.evidenceIds != [])
    && (q.target == Verified ==>
          q.reviewerIds != [] && q.objections == [] && forall x :: x in q.reviewerIds ==> x !in r.workerIds)
    && (r.state == AwaitingHumanApproval && q.target == InProgress ==> q.approval.Some? && q.approval.value != "")
  }

  lemma GuardsExactly(r: TaskRecord, q: Request)
    ensures ValidateTransition(r.state, q.target, ContextOf(NextWorkers(r.workerIds, q.target, q.actorId), q)).None?
            <==> PassesGuards(r, q)
  {
    MovesExactly(r.state, q.target);
    NoneInCommon(q.reviewerIds, r.workerIds);
    assert q.approval in {None, Some("")} <==> q.approval.None? || q.approval.value == "";
    assert q.target == InProgress || NextWorkers(r.workerIds, q.target, q.actorId) == r.workerIds;
  }

  lemma NoneInCommon(a: seq<string>, b: seq<string>)
    ensures SetOf(a) * SetOf(b) == {} <==> forall x :: x in a ==> x !in b
  {
    if x :| x in a && x in b { assert x in SetOf(a) * SetOf(b); }
  }

  /** The id of the event after n others, when the caller gives none. */
  function NumberedId(n: nat): string { "EVT-" + Padded(n + 1, 6) }

  lemma KnownNumbers()
    ensures NumberedId(0) == "EVT-000001" && NumberedId(41) == "EVT-000042"
  {
    assert Numeral(1) == "1" && Numeral(42) == Numeral(4) + "2" == "42";
    assert seq(5, _ => '0') + "1" == "000001" && seq(4, _ => '0') + "42" == "000042";
  }

  lemma NumberedIdsDiffer(a: nat, b: nat)
    requires a != b
    ensures NumberedId(a) != NumberedId(b)
  {
    PaddedValue(a + 1, 6);
    PaddedValue(b + 1, 6);
    assert NumberedId(a)[4..] == Padded(a + 1, 6) && NumberedId(b)[4..] == Padded(b + 1, 6);
  }

  /** The event tells what was asked, by whom, from which state, and who has worked on the task. */
  predicate Tells(e: AuditEvent, missionId: string, from: TaskState, q: Request, workers: seq<string>, now: int) {
    && e.missionId == missionId && e.actorId == q.actorId && e.createdAt == now
    && e.eventType == "TASK_STATE_TRANSITION"
    && e.payload == map[
      "task_id" := JText(q.taskId), "from" := JText(Name(from)), "to" := JText(Name(q.target)),
      "evidence_ids" := JList(q.evidenceIds), "reviewer_ids" := JList(q.reviewerIds), "worker_ids" := JList(workers),
      "blocking_objections" := JList(q.objections),
      "human_approval_id" := if q.approval.None? then JNull else JText(q.approval.value)]
  }

  /** The record after a move: new state and objections, new lists where the call gives any, and its worker listed. */
  ghost predicate MovedBy(before: TaskRecord, after: TaskRecord, q: Request) {
    && after.state == q.target && after.objections == q.objections
    && after.evidenceIds == (if q.evidenceIds == [] then before.evidenceIds else q.evidenceIds)
    && after.reviewerIds == (if q.reviewerIds == [] then before.reviewerIds else q.reviewerIds)
    && if q.target == InProgress && q.actorId !in before.workerIds
       then Ascending(after.workerIds) && SetOf(after.workerIds) == SetOf(before.workerIds) + {q.actorId}
       else after.workerIds == before.workerIds
  }

  /**
   A transition is accepted exactly if the task is known, the guards let it pass, mission and actor are named and the
   event id is new. It then appends one event that tells it and changes that task's record alone.
   */
  lemma TransitionExactly(missionId: string, s: MissionState, q: Request, given: Option<string>, now: int)
    ensures var t := TryTransition(missionId, s, q, given, now);
            var id := if given in {None, Some("")} then NumberedId(|s.events|) else given.value;
            && (t.Ok? <==>
                  && q.taskId in s.tasks && PassesGuards(s.tasks[q.taskId], q) && missionId != "" && q.actorId != ""
                  && forall e :: e in s.events ==> e.eventId != id)
            && (t == Err(UnknownTask) <==> q.taskId !in s.tasks)
            && (t.Err? && t.error.Refused? <==> q.taskId in s.tasks && !PassesGuards(s.tasks[q.taskId], q))
            && (t.Ok? ==> Transitioned(missionId, s, t.value, q, id, now))
  {
    if q.taskId in s.tasks {
      GuardsExactly(s.tasks[q.taskId], q);
      AppendedExactly(s.events, DraftFor(missionId, s.events, s.tasks[q.taskId], q, given, now));
      if TryTransition(missionId, s, q, given, now).Ok? { TransitionMoves(missionId, s, q, given, now); }
    }
  }

  lemma TransitionMoves(missionId: string, s: MissionState, q: Request, given: Option<string>, now: int)
    requires TryTransition(missionId, s, q, given, now).Ok?
    ensures Transitioned(missionId, s, TryTransition(missionId, s, q, given, now).value, q,
                         EventIdFor(s.events, given), now)
  {
    var r := s.tasks[q.taskId];
    AppendedExactly(s.events, DraftFor(missionId, s.events, r, q, given, now));
    CommittedMoves(r, q);
  }

  lemma CommittedMoves(r: TaskRecord, q: Request)
    ensures MovedBy(r, Committed(r, q), q)
  {
    if q.target == InProgress && q.actorId !in r.workerIds {
      var workers := SetOf(r.workerIds) + {q.actorId};
      assert SetOf(Sorted(workers)) == workers;
    }
  }

  ghost predicate Transitioned(missionId: string, s: MissionState, t: MissionState, q: Request, id: string, now: int) {
    && q.taskId in s.tasks && t.tasks.Keys == s.tasks.Keys
    && MovedBy(s.tasks[q.taskId], t.tasks[q.taskId], q)
    && (forall x :: x in s.tasks && x != q.taskId ==> t.tasks[x] == s.tasks[x])
    && |t.events| == |s.events| + 1 && s.events <= t.events && t.events[|s.events|].eventId == id
    && Tells(t.events[|s.events|], missionId, s.tasks[q.taskId].state, q, t.tasks[q.taskId].workerIds, now)
  }

  // ------------------------------------------------------------------------
  // Release of ready tasks, as a function

  function StateNames(tasks: Tasks): map<string, string> {
    map t | t in tasks :: Name(tasks[t].state)
  }

  function ReadyIds(nodes: seq<TaskNode>, tasks: Tasks): seq<string> {
    Sorted(set t | t in tasks && TaskGraph.Ready(ById(nodes), StateNames(tasks), t))
  }

  function ReleaseRequest(taskId: string, actorId: string): Request {
    Request(taskId, TaskState.Ready, actorId, [], [], [], None)
  }

  /** Release the listed tasks one by one; the first refusal aborts and leaves the earlier releases in place. */
  function ReleaseAll(missionId: string, s: MissionState, ids: seq<string>, actorId: string, now: int)
    : (MissionState, Option<RunnerError>)
    decreases ids
  {
    if ids == [] then (s, None) else
    match TryTransition(missionId, s, ReleaseRequest(ids[0], actorId), None, now)
    case Err(e) => (s, Some(e))
    case Ok(t) => ReleaseAll(missionId, t, ids[1..], actorId, now)
  }

  /** The node's task waits in BACKLOG and everything it depends on is DONE. */
  predicate Unblocked(n: TaskNode, tasks: Tasks) {
    && n.taskId in tasks && tasks[n.taskId].state == Backlog
    && forall d :: d in n.dependencies ==> d in tasks && tasks[d].state == Done
  }

  ghost predicate Releasable(nodes: seq<TaskNode>, tasks: Tasks, t: string) {
    exists n :: n in nodes && n.taskId == t && Unblocked(n, tasks)
  }

  lemma NodeById(nodes: seq<TaskNode>, n: TaskNode)
    requires Distinct(Ids(nodes)) && n in nodes
    ensures n.taskId in ById(nodes) && ById(nodes)[n.taskId] == n
  {
    var i :| 0 <= i < |nodes| && nodes[i] == n;
    KeyedTotal(nodes, TaskIdOf, i);
  }

  lemma ReadyMeans(byId: map<string, TaskNode>, tasks: Tasks, t: string)
    requires t in byId && byId[t].taskId == t
    ensures TaskGraph.Ready(byId, StateNames(tasks), t) <==> Unblocked(byId[t], tasks)
  {
    forall d | d in tasks
      ensures (StateNames(tasks)[d] == "DONE" <==> tasks[d].state == Done)
              && (StateNames(tasks)[d] == "BACKLOG" <==> tasks[d].state == Backlog)
    {
      NamesDiffer(tasks[d].state);
    }
  }

  /** What release_ready_tasks sets out to release, read off the nodes and the records. */
  lemma ReadyIdsExactly(nodes: seq<TaskNode>, tasks: Tasks, t: string)
    requires Distinct(Ids(nodes))
    ensures t in ReadyIds(nodes, tasks) <==> Releasable(nodes, tasks, t)
  {
    if t in ById(nodes) { ReadyMeans(ById(nodes), tasks, t); }
    if Releasable(nodes, tasks, t) {
      var n :| n in nodes && n.taskId == t && Unblocked(n, tasks);
      NodeById(nodes, n);
    }
  }

  lemma NamesDiffer(st: TaskState)
    ensures Name(st) == "DONE" <==> st == Done
    ensures Name(st) == "BACKLOG" <==> st == Backlog
  {
    ParseName(st);
  }

  /** The listed tasks are READY, free of objections; of every record the rest is as it was. */
  ghost predicate ReleasedRecords(before: Tasks, after: Tasks, ids: seq<string>) {
    && after.Keys == before.Keys
    && forall x :: x in before ==>
         after[x] == if x in ids then before[x].(state := TaskState.Ready, objections := []) else before[x]
  }

  /** The events tell the releases of the ids, in their order, numbered on from n. */
  ghost predicate ReleaseEvents(missionId: string, tasks: Tasks, n: nat, events: seq<AuditEvent>, ids: seq<string>,
                                actorId: string, now: int)
  {
    && |events| == |ids|
    && forall i :: 0 <= i < |ids| ==>
         && ids[i] in tasks && events[i].eventId == NumberedId(n + i)
         && Tells(events[i], missionId, Backlog, ReleaseRequest(ids[i], actorId), tasks[ids[i]].workerIds, now)
  }

  /** The first k ids are READY, each by an event of its own in their order, and nothing else has changed. */
  ghost predicate Released(missionId: string, s: MissionState, t: MissionState, ids: seq<string>, k: nat,
                           actorId: string, now: int)
  {
    && k <= |ids| && ReleasedRecords(s.tasks, t.tasks, ids[..k])
    && s.events <= t.events
    && ReleaseEvents(missionId, s.tasks, |s.events|, t.events[|s.events|..], ids[..k], actorId, now)
  }

  /** One release: refused only for its names or its number. */
  lemma ReleaseOne(missionId: string, s: MissionState, id: string, actorId: string, now: int)
    requires id in s.tasks && s.tasks[id].state == Backlog
    ensures var t := TryTransition(missionId, s, ReleaseRequest(id, actorId), None, now);
            && (t.Ok? <==>
                  missionId != "" && actorId != "" && forall e :: e in s.events ==> e.eventId != NumberedId(|s.events|))
            && (t.Ok? ==> Released(missionId, s, t.value, [id], 1, actorId, now))
  {
    TransitionExactly(missionId, s, ReleaseRequest(id, actorId), None, now);
    assert [id][..1] == [id];
  }

  lemma RecordsMore(a: Tasks, b: Tasks, c: Tasks, id: string, ids: seq<string>)
    requires ReleasedRecords(a, b, [id]) && ReleasedRecords(b, c, ids) && id !in ids
    ensures ReleasedRecords(a, c, [id] + ids)
  {
  }

  lemma EventsMore(missionId: string, a: Tasks, b: Tasks, n: nat, first: seq<AuditEvent>, events: seq<AuditEvent>,
                   id: string, ids: seq<string>, actorId: string, now: int)
    requires ReleasedRecords(a, b, [id]) && id !in ids
    requires ReleaseEvents(missionId, a, n, first, [id], actorId, now)
    requires ReleaseEvents(missionId, b, n + 1, events, ids, actorId, now)
    ensures ReleaseEvents(missionId, a, n, first + events, [id] + ids, actorId, now)
  {
    forall i | 0 < i < |ids| + 1
      ensures ([id] + ids)[i] == ids[i - 1] && (first + events)[i] == events[i - 1] && a[ids[i - 1]] == b[ids[i - 1]]
    {
      assert ids[i - 1] in ids;
    }
  }

  lemma ReleaseMore(missionId: string, s: MissionState, t: MissionState, u: MissionState, ids: seq<string>, k: nat,
                    actorId: string, now: int)
    requires ids != [] && Distinct(ids)
    requires Released(missionId, s, t, [ids[0]], 1, actorId, now)
    requires Released(missionId, t, u, ids[1..], k, actorId, now)
    ensures Released(missionId, s, u, ids, k + 1, actorId, now)
  {
    var n, rest := |s.events|, ids[1..][..k];
    OneAndRest(ids, k);
    assert |t.events| == n + 1;
    assert ReleasedRecords(s.tasks, u.tasks, ids[..k + 1]) by {
      RecordsMore(s.tasks, t.tasks, u.tasks, ids[0], rest);
    }
    assert ReleaseEvents(missionId, s.tasks, n, u.events[n..], ids[..k + 1], actorId, now) by {
      NewEvents(s.events, t.events, u.events);
      EventsMore(missionId, s.tasks, t.tasks, n, t.events[n..], u.events[n + 1..], ids[0], rest, actorId, now);
    }
  }

  lemma OneAndRest(ids: seq<string>, k: nat)
    requires ids != [] && Distinct(ids) && k < |ids|
    ensures [ids[0]][..1] == [ids[0]] && ids[..k + 1] == [ids[0]] + ids[1..][..k] && ids[0] !in ids[1..][..k]
  {
  }

  lemma NewEvents(s: seq<AuditEvent>, t: seq<AuditEvent>, u: seq<AuditEvent>)
    requires s <= t <= u
    ensures u[|s|..] == t[|s|..] + u[|t|..]
  {
  }

  /** Releasing a list goes to the end exactly if mission and actor are named and none of the numbers is taken. */
  lemma {:induction false} ReleasesAllExactly(missionId: string, s: MissionState, ids: seq<string>, actorId: string,
                                              now: int)
    requires Distinct(ids) && forall id :: id in ids ==> id in s.tasks && s.tasks[id].state == Backlog
    ensures ReleaseAll(missionId, s, ids, actorId, now).1.None? <==>
            ids == [] || (missionId != "" && actorId != "" && NumbersFree(s.events, |s.events|, |ids|))
    decreases ids
  {
    if ids == [] {
    } else {
      ReleaseOne(missionId, s, ids[0], actorId, now);
      var t := TryTransition(missionId, s, ReleaseRequest(ids[0], actorId), None, now);
      FirstNumberFree(s.events, |s.events|, |ids|);
      if t.Ok? {
        OthersWait(s.tasks, t.value.tasks, ids);
        ReleasesAllExactly(missionId, t.value, ids[1..], actorId, now);
        OneNumberUsed(s.events, t.value.events[|s.events|], |ids| - 1);
        assert t.value.events == s.events + [t.value.events[|s.events|]];
      }
    }
  }

  /** No event has the id numbered after n others, nor one of the next, count of them in all. */
  ghost predicate NumbersFree(events: seq<AuditEvent>, n: nat, count: nat) {
    forall j, e :: n <= j < n + count && e in events ==> e.eventId != NumberedId(j)
  }

  lemma FirstNumberFree(events: seq<AuditEvent>, n: nat, count: nat)
    requires count > 0
    ensures NumbersFree(events, n, count) <==>
            (forall e :: e in events ==> e.eventId != NumberedId(n)) && NumbersFree(events, n + 1, count - 1)
  {
  }

  lemma OneNumberUsed(events: seq<AuditEvent>, e: AuditEvent, count: nat)
    requires e.eventId == NumberedId(|events|)
    ensures NumbersFree(events + [e], |events| + 1, count) <==> NumbersFree(events, |events| + 1, count)
  {
    forall j: nat | |events| < j ensures e.eventId != NumberedId(j) { NumberedIdsDiffer(|events|, j); }
  }

  /** After the first release the other listed tasks still wait. */
  lemma OthersWait(before: Tasks, after: Tasks, ids: seq<string>)
    requires ids != [] && Distinct(ids) && forall id :: id in ids ==> id in before && before[id].state == Backlog
    requires ReleasedRecords(before, after, [ids[0]][..1])
    ensures Distinct(ids[1..]) && forall id :: id in ids[1..] ==> id in after && after[id].state == Backlog
  {
    forall id | id in ids[1..] ensures id in ids && id !in [ids[0]][..1] {
      var i :| 0 <= i < |ids[1..]| && ids[1..][i] == id;
      assert ids[i + 1] == id;
    }
  }

  /**
   Releasing a list goes some way: the first k tasks are READY, and if that is not all of them the next release is
   refused with the error that is reported.
   */
  lemma {:induction false} ReleaseExactly(missionId: string, s: MissionState, ids: seq<string>, actorId: string,
                                          now: int)
    returns (k: nat)
    requires Distinct(ids) && forall id :: id in ids ==> id in s.tasks && s.tasks[id].state == Backlog
    ensures var (t, failure) := ReleaseAll(missionId, s, ids, actorId, now);
            && Released(missionId, s, t, ids, k, actorId, now)
            && (failure.None? <==> k == |ids|)
            && (k < |ids| ==>
                  TryTransition(missionId, t, ReleaseRequest(ids[k], actorId), None, now) == Err(failure.value))
    decreases ids
  {
    if ids == [] {
      k := 0;
    } else {
      ReleaseOne(missionId, s, ids[0], actorId, now);
      var t := TryTransition(missionId, s, ReleaseRequest(ids[0], actorId), None, now);
      if t.Err? {
        k := 0;
      } else {
        OthersWait(s.tasks, t.value.tasks, ids);
        k := ReleaseExactly(missionId, t.value, ids[1..], actorId, now);
        ReleaseMore(missionId, s, t.value, ReleaseAll(missionId, s, ids, actorId, now).0, ids, k, actorId, now);
        k := k + 1;
      }
    }
  }

  /** The ids are the tasks that can be released, ascending, and the first k of them have been. */
  ghost predicate ReleasedReady(missionId: string, nodes: seq<TaskNode>, s: MissionState, t: MissionState,
                                ids: seq<string>, k: nat, actorId: string, now: int)
  {
    && Ascending(ids) && (forall id :: id in ids <==> Releasable(nodes, s.tasks, id))
    && Released(missionId, s, t, ids, k, actorId, now)
  }

  /** The first k have been released, and the next is refused with this error. */
  ghost predicate ReleaseStops(missionId: string, nodes: seq<TaskNode>, s: MissionState, t: MissionState,
                               ids: seq<string>, k: nat, actorId: string, now: int, e: RunnerError)
  {
    && k < |ids| && ReleasedReady(missionId, nodes, s, t, ids, k, actorId, now)
    && TryTransition(missionId, t, ReleaseRequest(ids[k], actorId), None, now) == Err(e)
  }

  /** What release_ready_tasks sets out to do, how far it gets, and when it gets to the end. */
  lemma ReleaseReadyExactly(missionId: string, nodes: seq<TaskNode>, s: MissionState, actorId: string, now: int)
    returns (k: nat)
    requires Distinct(Ids(nodes))
    ensures var ids := ReadyIds(nodes, s.tasks);
            var (t, failure) := ReleaseAll(missionId, s, ids, actorId, now);
            && ReleasedReady(missionId, nodes, s, t, ids, k, actorId, now)
            && (failure.None? <==> k == |ids|)
            && (failure.None? <==>
                  ids == [] || (missionId != "" && actorId != "" && NumbersFree(s.events, |s.events|, |ids|)))
            && (k < |ids| ==> ReleaseStops(missionId, nodes, s, t, ids, k, actorId, now, failure.value))
  {
    var ids := ReadyIds(nodes, s.tasks);
    AscendingIsDistinct(ids);
    forall id ensures id in ids <==> Releasable(nodes, s.tasks, id) { ReadyIdsExactly(nodes, s.tasks, id); }
    k := ReleaseExactly(missionId, s, ids, actorId, now);
    ReleasesAllExactly(missionId, s, ids, actorId, now);
  }

  // ------------------------------------------------------------------------
  // Replay, as a function

  function ListIn(p: Payload, key: string): Option<seq<string>> {
    if key !in p then Some([]) else if p[key].JList? then Some(p[key].items) else None
  }

  /** The transition call that replay reconstructs from an event. */
  function DecodeRequest(e: AuditEvent): Option<Request> {
    var p := e.payload;
    if "task_id" !in p || !p["task_id"].JText? || "to" !in p || !p["to"].JText? then None else
    var target := Parse(p["to"].text);
    var evidence, reviewers := ListIn(p, "evidence_ids"), ListIn(p, "reviewer_ids");
    var objections := ListIn(p, "blocking_objections");
    if target.None? || evidence.None? || reviewers.None? || objections.None? then None
    else if "human_approval_id" in p && p["human_approval_id"].JList? then None
    else
      var approval := if "human_approval_id" in p && p["human_approval_id"].JText?
                      then Some(p["human_approval_id"].text) else None;
      Some(Request(p["task_id"].text, target.value, e.actorId, evidence.value, reviewers.value, objections.value,
        approval))
  }

  /** What an event leaves out is read as empty; without a task or a state of that name it cannot be read at all. */
  lemma BareEventDecodes(e: AuditEvent, t: string, to: string)
    requires e.payload == map["task_id" := JText(t), "to" := JText(to)]
    ensures match Parse(to)
            case Some(target) => DecodeRequest(e) == Some(Request(t, target, e.actorId, [], [], [], None))
            case None => DecodeRequest(e) == None
    ensures DecodeRequest(e.(payload := e.payload - {"task_id"})) == None
  {
  }

  predicate IsTransitionOf(e: AuditEvent, missionId: string) {
    e.missionId == missionId && e.eventType == TRANSITION
  }

  /** The mission's transition events, in ledger order. */
  function MissionEvents(events: seq<AuditEvent>, missionId: string): seq<AuditEvent> {
    if events == [] then [] else
    var rest := MissionEvents(events[..|events| - 1], missionId);
    if IsTransitionOf(events[|events| - 1], missionId) then rest + [events[|events| - 1]] else rest
  }

  function NewTasks(taskIds: set<string>): Tasks {
    map t | t in taskIds :: NEW_TASK
  }

  /** Re-run transition events against new task records and an empty ledger. */
  function ReplayEvents(missionId: string, taskIds: set<string>, es: seq<AuditEvent>, now: int)
    : Result<MissionState, RunnerError>
  {
    if es == [] then Ok(MissionState(NewTasks(taskIds), [])) else
    match ReplayEvents(missionId, taskIds, es[..|es| - 1], now)
    case Err(e) => Err(e)
    case Ok(s) =>
      var e := es[|es| - 1];
      match DecodeRequest(e)
      case None => Err(MalformedEvent)
      case Some(q) => TryTransition(missionId, s, q, Some(e.eventId), now)
  }

  /** What one event does to a replay in progress. */
  function ReplayOne(missionId: string, s: MissionState, e: AuditEvent, now: int): Result<MissionState, RunnerError> {
    if !IsTransitionOf(e, missionId) then Ok(s) else
    match DecodeRequest(e)
    case None => Err(MalformedEvent)
    case Some(q) => TryTransition(missionId, s, q, Some(e.eventId), now)
  }

  function BareNodes(taskIds: seq<string>): (nodes: seq<TaskNode>)
    ensures Ids(nodes) == taskIds
  {
    seq(|taskIds|, i requires 0 <= i < |taskIds| => TaskNode(taskIds[i], [], []))
  }

  /** Absent or empty task_nodes become one bare node per id. */
  function NodesFor(taskIds: seq<string>, taskNodes: seq<TaskNode>): seq<TaskNode> {
    if taskNodes != [] then taskNodes else BareNodes(taskIds)
  }

  ghost predicate Creatable(missionId: string, taskIds: seq<string>, taskNodes: seq<TaskNode>) {
    var nodes := NodesFor(taskIds, taskNodes);
    missionId != "" && Distinct(taskIds) && WellFormed(nodes) && SetOf(taskIds) == SetOf(Ids(nodes))
  }

  // ------------------------------------------------------------------------
  // The runner object

  class MissionRunner {
    const missionId: string
    const nodes: seq<TaskNode>
    var tasks: Tasks
    var ledger: AuditLedger

    ghost predicate Valid()
      reads this
    {
      missionId != "" && WellFormed(nodes) && tasks.Keys == SetOf(Ids(nodes))
    }

    ghost function State(): MissionState
      reads this, ledger
    {
      MissionState(tasks, ledger.events)
    }

    constructor (missionId: string, nodes: seq<TaskNode>, ledger: AuditLedger)
      requires missionId != "" && WellFormed(nodes)
      ensures Valid() && this.missionId == missionId && this.nodes == nodes && this.ledger == ledger
      ensures tasks == NewTasks(SetOf(Ids(nodes)))
    {
      this.missionId, this.nodes, this.ledger := missionId, nodes, ledger;
      tasks := NewTasks(SetOf(Ids(nodes)));
    }

    /** __init__ with its checks. */
    static method Create(missionId: string, taskIds: seq<string>, ledger: AuditLedger, taskNodes: seq<TaskNode>)
      returns (r: Result<MissionRunner, RunnerError>)
      ensures r.Ok? <==> Creatable(missionId, taskIds, taskNodes)
      ensures r.Ok? ==>
                && fresh(r.value) && r.value.Valid() && r.value.missionId == missionId && r.value.ledger == ledger
                && r.value.nodes == NodesFor(taskIds, taskNodes)
                && r.value.tasks == NewTasks(SetOf(taskIds))
      ensures r.Ok? ==> SetOf(Ids(r.value.nodes)) == SetOf(taskIds)
      ensures r.Ok? && taskNodes == [] ==> forall n :: n in r.value.nodes ==> n.dependencies == []
      ensures r == Err(MissionRequired) <==> missionId == ""
      ensures r == Err(DuplicateTaskIds) <==>
              missionId != "" && !Distinct(taskIds)
    {
      if missionId == "" { return Err(MissionRequired); }
      DistinctByCount(taskIds);
      if |taskIds| != |SetOf(taskIds)| { return Err(DuplicateTaskIds); }
      var nodes := NodesFor(taskIds, taskNodes);
      var valid := ValidateGraph(nodes);
      if valid.Err? { return Err(InvalidGraph(valid.error)); }
      if SetOf(taskIds) != SetOf(Ids(nodes)) { return Err(NodesMismatch); }
      var runner := new MissionRunner(missionId, nodes, ledger);
      return Ok(runner);
    }

    method Transition(q: Request, given: Option<string>, now: int) returns (r: Result<AuditEvent, RunnerError>)
      modifies this`tasks, ledger
      ensures var t := TryTransition(missionId, old(State()), q, given, now);
              && (r.Ok? <==> t.Ok?)
              && (r.Err? ==> t == Err(r.error))
              && State() == (if t.Ok? then t.value else old(State()))
              && (r.Ok? ==> ledger.events == old(ledger.events) + [r.value])
      ensures r.Ok? ==> Transitioned(missionId, old(State()), State(), q, r.value.eventId, now)
      ensures tasks.Keys == old(tasks.Keys)
    {
      TransitionExactly(missionId, State(), q, given, now);
      if q.taskId !in tasks { return Err(UnknownTask); }
      var record := tasks[q.taskId];
      var workers := NextWorkers(record.workerIds, q.target, q.actorId);
      var refused := ValidateTransition(record.state, q.target, ContextOf(workers, q));
      if refused.Some? { return Err(Refused(refused.value)); }
      var id := EventIdFor(ledger.events, given);
      var event := ledger.Append(Draft(id, missionId, q.actorId, TRANSITION, PayloadOf(q, record.state, workers), now));
      if event.Err? { return Err(AppendFailed(event.error)); }
      record := record.(state := q.target, workerIds := workers, objections := q.objections);
      if q.evidenceIds != [] { record := record.(evidenceIds := q.evidenceIds); }
      if q.reviewerIds != [] { record := record.(reviewerIds := q.reviewerIds); }
      tasks := tasks[q.taskId := record];
      return Ok(event.value);
    }

    /** The loop of release_ready_tasks. */
    method ReleaseList(ids: seq<string>, actorId: string, now: int) returns (failure: Option<RunnerError>)
      modifies this`tasks, ledger
      ensures (State(), failure) == ReleaseAll(missionId, old(State()), ids, actorId, now)
      ensures tasks.Keys == old(tasks.Keys)
    {
      for i := 0 to |ids|
        invariant ReleaseAll(missionId, State(), ids[i..], actorId, now)
                  == ReleaseAll(missionId, old(State()), ids, actorId, now)
        invariant tasks.Keys == old(tasks.Keys)
      {
        var released := Transition(ReleaseRequest(ids[i], actorId), None, now);
        assert ids[i..][0] == ids[i] && ids[i..][1..] == ids[i + 1..];
        if released.Err? { return Some(released.error); }
      }
      return None;
    }

    /** release_ready_tasks: what it releases is decided from the states before the first release. */
    method ReleaseReadyTasks(actorId: string, now: int) returns (r: Result<seq<string>, RunnerError>)
      requires Valid()
      modifies this`tasks, ledger
      ensures Valid()
      ensures var (s, failure) := ReleaseAll(missionId, old(State()), ReadyIds(nodes, old(tasks)), actorId, now);
              State() == s && r == (if failure.None? then Ok(ReadyIds(nodes, old(tasks))) else Err(failure.value))
      ensures r.Ok? ==>
                ReleasedReady(missionId, nodes, old(State()), State(), r.value, |r.value|, actorId, now)
      ensures r.Err? ==> exists ids, k: nat ::
                ReleaseStops(missionId, nodes, old(State()), State(), ids, k, actorId, now, r.error)
    {
      var ready := ReadyTasks(nodes, StateNames(tasks));
      match ready {
        case Err(e) => return Err(InvalidGraph(e));
        case Ok(ids) =>
          ReadyIdsExact(nodes, tasks, ids);
          ghost var k := ReleaseReadyExactly(missionId, nodes, State(), actorId, now);
          var failure := ReleaseList(ids, actorId, now);
          return if failure.None? then Ok(ids) else Err(failure.value);
      }
    }

    method AssertAllDone() returns (r: Result<(), RunnerError>)
      ensures r.Ok? <==> (forall t :: t in tasks ==> tasks[t].state == Done) && Chained(ledger.events)
      ensures r.Err? && r.error.Unfinished? ==>
                Ascending(r.error.taskIds) && forall t :: t in r.error.taskIds <==> t in tasks && tasks[t].state != Done
    {
      var unfinished := Sorted(set t | t in tasks && tasks[t].state != Done);
      if unfinished != [] {
        assert unfinished[0] in tasks;
        return Err(Unfinished(unfinished));
      }
      assert forall t :: t in tasks && tasks[t].state != Done ==> t in unfinished;
      var valid := ledger.VerifyIntegrity();
      return if valid.Ok? then Ok(()) else Err(AppendFailed(valid.error));
    }

    /** One event of a replay: another mission's events and other kinds are passed over. */
    method Reapply(event: AuditEvent, now: int) returns (failure: Option<RunnerError>)
      modifies this`tasks, ledger
      ensures var r := ReplayOne(missionId, old(State()), event, now);
              && (failure.None? <==> r.Ok?) && (r.Ok? ==> State() == r.value)
      ensures tasks.Keys == old(tasks.Keys)
    {
      if event.missionId != missionId || event.eventType != TRANSITION { return None; }
      var q := DecodeRequest(event);
      if q.None? { return Some(MalformedEvent); }
      var done := Transition(q.value, Some(event.eventId), now);
      return if done.Ok? then None else Some(done.error);
    }

    /** replay: verify the events, then re-run the mission's own transitions on a new runner. */
    static method Replay(missionId: string, taskIds: seq<string>, events: seq<AuditEvent>, taskNodes: seq<TaskNode>,
                         now: int)
      returns (r: Result<MissionRunner, RunnerError>)
      ensures var replayed := ReplayEvents(missionId, SetOf(taskIds), MissionEvents(events, missionId), now);
              && (r.Ok? <==> Chained(events) && Creatable(missionId, taskIds, taskNodes) && replayed.Ok?)
              && (r.Ok? ==> && fresh(r.value) && fresh(r.value.ledger) && r.value.Valid()
                            && r.value.missionId == missionId && r.value.nodes == NodesFor(taskIds, taskNodes)
                            && r.value.State() == replayed.value)
    {
      var source := AuditLedger.FromEvents(events);
      if source.Err? { return Err(AppendFailed(source.error)); }
      var ledger := new AuditLedger();
      var created := MissionRunner.Create(missionId, taskIds, ledger, taskNodes);
      if created.Err? { return Err(created.error); }
      var runner := created.value;
      for i := 0 to |events|
        invariant fresh(runner) && fresh(runner.ledger) && runner.Valid()
        invariant runner.nodes == NodesFor(taskIds, taskNodes) && runner.missionId == missionId
        invariant ReplayUpTo(missionId, SetOf(taskIds), events, i, now) == Ok(runner.State())
      {
        ReplayNext(missionId, SetOf(taskIds), events, i, now);
        var failure := runner.Reapply(events[i], now);
        if failure.Some? {
          ReplayFails(missionId, SetOf(taskIds), events, i + 1, now);
          return Err(failure.value);
        }
      }
      assert events[..|events|] == events;
      return Ok(runner);
    }
  }

  lemma ReadyIdsExact(nodes: seq<TaskNode>, tasks: Tasks, ready: seq<string>)
    requires Ascending(ready)
    requires forall t :: t in ready <==> TaskGraph.Ready(ById(nodes), StateNames(tasks), t)
    ensures ready == ReadyIds(nodes, tasks)
  {
    AscendingUnique(ready, ReadyIds(nodes, tasks));
  }

  /** The replay of the first n events. */
  function ReplayUpTo(missionId: string, taskIds: set<string>, events: seq<AuditEvent>, n: nat, now: int)
    : Result<MissionState, RunnerError>
    requires n <= |events|
  {
    ReplayEvents(missionId, taskIds, MissionEvents(events[..n], missionId), now)
  }

  lemma ReplayNext(missionId: string, taskIds: set<string>, events: seq<AuditEvent>, n: nat, now: int)
    requires n < |events|
    ensures ReplayUpTo(missionId, taskIds, events, n + 1, now)
            == var before := ReplayUpTo(missionId, taskIds, events, n, now);
               if before.Err? then before else ReplayOne(missionId, before.value, events[n], now)
  {
    assert events[..n + 1][..n] == events[..n];
    var es := MissionEvents(events[..n], missionId);
    assert (es + [events[n]])[..|es|] == es;
  }

  /** A replay that fails on a prefix fails. */
  lemma {:induction false} ReplayFails(missionId: string, taskIds: set<string>, events: seq<AuditEvent>, n: nat,
                                       now: int)
    requires n <= |events| && ReplayUpTo(missionId, taskIds, events, n, now).Err?
    ensures ReplayEvents(missionId, taskIds, MissionEvents(events, missionId), now).Err?
    decreases |events|
  {
    if n == |events| {
      assert events[..n] == events;
    } else {
      var init := events[..|events| - 1];
      assert init[..n] == events[..n];
      ReplayFails(missionId, taskIds, init, n, now);
      var es := MissionEvents(init, missionId);
      if IsTransitionOf(events[|events| - 1], missionId) {
        assert (es + [events[|events| - 1]])[..|es|] == es;
      }
    }
  }
}
