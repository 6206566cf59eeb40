/** Exactly which events replay, and why a mission needs a single live runner. */
module Replays {
  import opened Wrappers
  import opened Decimal
  import opened TaskStates
  import opened Ledger
  import opened Runner
  import opened MissionRuns

  /** The guards of transition let the request through from this record. */
  predicate Admits(r: TaskRecord, q: Request) {
    ValidateTransition(r.state, q.target, ContextOf(NextWorkers(r.workerIds, q.target, q.actorId), q)).None?
  }

  /** What the requests make of a new task. */
  function RecordAfter(qs: seq<Request>): TaskRecord {
    if qs == [] then NEW_TASK else Committed(RecordAfter(qs[..|qs| - 1]), qs[|qs| - 1])
  }

  /** Every request passes the guards where the ones before it have led. */
  ghost predicate Guarded(qs: seq<Request>) {
    forall i :: 0 <= i < |qs| ==> Admits(RecordAfter(qs[..i]), qs[i])
  }

  /** The calls that the events record for one task. */
  function RequestsFor(es: seq<AuditEvent>, t: string): seq<Request> {
    if es == [] then [] else
    var rest, q := RequestsFor(es[..|es| - 1], t), DecodeRequest(es[|es| - 1]);
    if q.Some? && q.value.taskId == t then rest + [q.value] else rest
  }

  /** The id under which replay appends event i: its own, or a numbered one when it has none. */
  function ReplayedId(es: seq<AuditEvent>, i: nat): string
    requires i < |es|
  {
    if es[i].eventId != "" then es[i].eventId else NumberedId(i)
  }

  /** The event can be read back as a call on a known task, under names that append accepts. */
  predicate Readable(missionId: string, taskIds: set<string>, e: AuditEvent) {
    && missionId != "" && e.actorId != ""
    && var q := DecodeRequest(e); q.Some? && q.value.taskId in taskIds
  }

  ghost predicate AllReadable(missionId: string, taskIds: set<string>, es: seq<AuditEvent>) {
    forall i :: 0 <= i < |es| ==> Readable(missionId, taskIds, es[i])
  }

  ghost predicate IdsDiffer(es: seq<AuditEvent>) {
    forall i, j :: 0 <= i < j < |es| ==> ReplayedId(es, i) != ReplayedId(es, j)
  }

  ghost predicate AllGuarded(taskIds: set<string>, es: seq<AuditEvent>) {
    forall t :: t in taskIds ==> Guarded(RequestsFor(es, t))
  }

  /** Readable events under distinct ids, and for each task a history that passes its guards. */
  ghost predicate Replayable(missionId: string, taskIds: set<string>, es: seq<AuditEvent>) {
    AllReadable(missionId, taskIds, es) && IdsDiffer(es) && AllGuarded(taskIds, es)
  }

  /** The records are what the events say of each task. */
  ghost predicate RecordsShown(tasks: Tasks, taskIds: set<string>, es: seq<AuditEvent>) {
    tasks.Keys == taskIds && forall t :: t in taskIds ==> tasks[t] == RecordAfter(RequestsFor(es, t))
  }

  ghost predicate IdsShown(events: seq<AuditEvent>, es: seq<AuditEvent>) {
    |events| == |es| && forall i :: 0 <= i < |es| ==> events[i].eventId == ReplayedId(es, i)
  }

  /** The replayed state, described without replaying. */
  ghost predicate Shows(s: MissionState, taskIds: set<string>, es: seq<AuditEvent>) {
    RecordsShown(s.tasks, taskIds, es) && IdsShown(s.events, es)
  }

  lemma GuardedMore(qs: seq<Request>, q: Request)
    ensures Guarded(qs + [q]) <==> Guarded(qs) && Admits(RecordAfter(qs), q)
    ensures RecordAfter(qs + [q]) == Committed(RecordAfter(qs), q)
  {
    var next := qs + [q];
    assert next[..|qs|] == qs && next[|qs|] == q;
    assert forall i :: 0 <= i < |qs| ==> next[..i] == qs[..i] && next[i] == qs[i];
    if Guarded(next) {
      forall i | 0 <= i < |qs| ensures Admits(RecordAfter(qs[..i]), qs[i]) {
        assert Admits(RecordAfter(next[..i]), next[i]);
      }
      assert Admits(RecordAfter(next[..|qs|]), next[|qs|]);
    }
  }

  lemma RequestsMore(es: seq<AuditEvent>, e: AuditEvent, t: string)
    ensures RequestsFor(es + [e], t)
            == if DecodeRequest(e).Some? && DecodeRequest(e).value.taskId == t
               then RequestsFor(es, t) + [DecodeRequest(e).value] else RequestsFor(es, t)
  {
    assert (es + [e])[..|es|] == es;
  }

  /** Event e would be appended under an id that none of the others got. */
  ghost predicate IdIsNew(es: seq<AuditEvent>, e: AuditEvent) {
    forall i :: 0 <= i < |es| ==> ReplayedId(es, i) != ReplayedId(es + [e], |es|)
  }

  lemma ReadableMore(missionId: string, taskIds: set<string>, es: seq<AuditEvent>, e: AuditEvent)
    ensures AllReadable(missionId, taskIds, es + [e]) <==>
            AllReadable(missionId, taskIds, es) && Readable(missionId, taskIds, e)
  {
    var next := es + [e];
    if AllReadable(missionId, taskIds, next) {
      forall i | 0 <= i < |es| ensures Readable(missionId, taskIds, es[i]) {
        assert Readable(missionId, taskIds, next[i]);
      }
      assert Readable(missionId, taskIds, next[|es|]);
    }
  }

  lemma IdsMore(es: seq<AuditEvent>, e: AuditEvent)
    ensures forall i :: 0 <= i < |es| ==> ReplayedId(es + [e], i) == ReplayedId(es, i)
    ensures IdsDiffer(es + [e]) <==> IdsDiffer(es) && IdIsNew(es, e)
  {
    var next := es + [e];
    forall i | 0 <= i < |es| ensures ReplayedId(next, i) == ReplayedId(es, i) { assert next[i] == es[i]; }
    if IdsDiffer(next) {
      forall i, j | 0 <= i < j < |es| ensures ReplayedId(es, i) != ReplayedId(es, j) {
        assert ReplayedId(next, i) != ReplayedId(next, j);
      }
      forall i | 0 <= i < |es| ensures ReplayedId(es, i) != ReplayedId(next, |es|) {
        assert ReplayedId(next, i) != ReplayedId(next, |es|);
      }
    }
  }

  lemma GuardsMore(taskIds: set<string>, es: seq<AuditEvent>, e: AuditEvent, q: Request)
    requires DecodeRequest(e) == Some(q) && q.taskId in taskIds
    ensures AllGuarded(taskIds, es + [e]) <==>
            AllGuarded(taskIds, es) && Admits(RecordAfter(RequestsFor(es, q.taskId)), q)
  {
    forall t ensures Guarded(RequestsFor(es + [e], t)) <==>
                     Guarded(RequestsFor(es, t)) && (t == q.taskId ==> Admits(RecordAfter(RequestsFor(es, t)), q))
    {
      RequestsMore(es, e, t);
      GuardedMore(RequestsFor(es, t), q);
    }
  }

  /** What one event more needs. */
  ghost predicate LastFits(missionId: string, taskIds: set<string>, es: seq<AuditEvent>, e: AuditEvent) {
    && Readable(missionId, taskIds, e) && IdIsNew(es, e)
    && Admits(RecordAfter(RequestsFor(es, DecodeRequest(e).value.taskId)), DecodeRequest(e).value)
  }

  lemma ReplayableMore(missionId: string, taskIds: set<string>, es: seq<AuditEvent>, e: AuditEvent)
    ensures Replayable(missionId, taskIds, es + [e]) <==>
            Replayable(missionId, taskIds, es) && LastFits(missionId, taskIds, es, e)
  {
    ReadableMore(missionId, taskIds, es, e);
    IdsMore(es, e);
    if Readable(missionId, taskIds, e) { GuardsMore(taskIds, es, e, DecodeRequest(e).value); }
  }

  /** The step of a replay: it goes on exactly if the event fits, and then shows one event more. */
  lemma StepExactly(missionId: string, taskIds: set<string>, s: MissionState, es: seq<AuditEvent>, e: AuditEvent,
                    now: int)
    requires Shows(s, taskIds, es) && e.missionId == missionId && e.eventType == TRANSITION
    ensures ReplayOne(missionId, s, e, now).Ok? <==> LastFits(missionId, taskIds, es, e)
    ensures ReplayOne(missionId, s, e, now).Ok? ==> Shows(ReplayOne(missionId, s, e, now).value, taskIds, es + [e])
  {
    var q := DecodeRequest(e);
    if q.Some? && q.value.taskId in taskIds {
      TransitionExactly(missionId, s, q.value, e, es, now);
      if ReplayOne(missionId, s, e, now).Ok? {
        RecordsMore(s.tasks, taskIds, es, e, q.value);
        IdsShownMore(s.events, ReplayOne(missionId, s, e, now).value.events, es, e);
      }
    }
  }

  lemma TransitionExactly(missionId: string, s: MissionState, q: Request, e: AuditEvent, es: seq<AuditEvent>, now: int)
    requires q.taskId in s.tasks && DecodeRequest(e) == Some(q)
    requires IdsShown(s.events, es)
    ensures var r := TryTransition(missionId, s, q, Some(e.eventId), now);
            && (r.Ok? <==> missionId != "" && e.actorId != "" && IdIsNew(es, e) && Admits(s.tasks[q.taskId], q))
            && (r.Ok? ==> r.value.tasks == s.tasks[q.taskId := Committed(s.tasks[q.taskId], q)]
                          && |r.value.events| == |es| + 1 && s.events <= r.value.events
                          && r.value.events[|es|].eventId == ReplayedId(es + [e], |es|))
  {
    assert EventIdFor(s.events, Some(e.eventId)) == ReplayedId(es + [e], |es|);
    NewExactly(s.events, es, e);
  }

  lemma NewExactly(events: seq<AuditEvent>, es: seq<AuditEvent>, e: AuditEvent)
    requires IdsShown(events, es)
    ensures !HasId(events, ReplayedId(es + [e], |es|)) <==> IdIsNew(es, e)
  {
    var id := ReplayedId(es + [e], |es|);
    if HasId(events, id) {
      var x :| x in events && x.eventId == id;
      var i :| 0 <= i < |events| && events[i] == x;
      assert ReplayedId(es, i) == id;
    } else {
      forall i | 0 <= i < |es| ensures ReplayedId(es, i) != id { assert events[i] in events; }
    }
  }

  lemma RecordMore(es: seq<AuditEvent>, e: AuditEvent, q: Request, t: string)
    requires DecodeRequest(e) == Some(q)
    ensures var before := RecordAfter(RequestsFor(es, t));
            RecordAfter(RequestsFor(es + [e], t)) == if t == q.taskId then Committed(before, q) else before
  {
    RequestsMore(es, e, t);
    GuardedMore(RequestsFor(es, t), q);
  }

  lemma RecordsMore(tasks: Tasks, taskIds: set<string>, es: seq<AuditEvent>, e: AuditEvent, q: Request)
    requires RecordsShown(tasks, taskIds, es) && DecodeRequest(e) == Some(q) && q.taskId in taskIds
    ensures RecordsShown(tasks[q.taskId := Committed(tasks[q.taskId], q)], taskIds, es + [e])
  {
    var next := tasks[q.taskId := Committed(tasks[q.taskId], q)];
    forall t | t in taskIds ensures next[t] == RecordAfter(RequestsFor(es + [e], t)) { RecordMore(es, e, q, t); }
  }

  lemma IdsShownMore(events: seq<AuditEvent>, next: seq<AuditEvent>, es: seq<AuditEvent>, e: AuditEvent)
    requires IdsShown(events, es) && |next| == |es| + 1 && events <= next
    requires next[|es|].eventId == ReplayedId(es + [e], |es|)
    ensures IdsShown(next, es + [e])
  {
    IdsMore(es, e);
    forall i | 0 <= i < |es| ensures next[i].eventId == ReplayedId(es + [e], i) { assert next[i] == events[i]; }
  }

  /**
   Replay, exactly: the mission's events replay if and only if they are readable, under distinct ids, and pass the
   guards task by task; and the replayed records are then what those histories make of new tasks.
   */
  lemma {:induction false} ReplayExactly(missionId: string, taskIds: set<string>, es: seq<AuditEvent>, now: int)
    requires forall i :: 0 <= i < |es| ==> IsTransitionOf(es[i], missionId)
    ensures ReplayEvents(missionId, taskIds, es, now).Ok? <==> Replayable(missionId, taskIds, es)
    ensures ReplayEvents(missionId, taskIds, es, now).Ok? ==>
              Shows(ReplayEvents(missionId, taskIds, es, now).value, taskIds, es)
  {
    if es == [] {
    } else {
      var init, e := es[..|es| - 1], es[|es| - 1];
      assert es == init + [e];
      ReplayExactly(missionId, taskIds, init, now);
      ReplayableMore(missionId, taskIds, init, e);
      var before := ReplayEvents(missionId, taskIds, init, now);
      if before.Ok? { StepExactly(missionId, taskIds, before.value, init, e, now); }
    }
  }

  // ------------------------------------------------------------------------
  // Two live runners

  /** A second runner, restored before the first one moved, on the ledger as the first one leaves it. */
  function SecondRunner(m: Mission, q: Request, id1: string, now: int): MissionState {
    MissionState(Start(m, []).tasks, Exec(m, Start(m, []), Attempt(q, Some(id1), now)).events)
  }

  /**
   Two live runners of one mission, each with its own records and both on one ledger, can each release the same task;
   from then on no replay of that ledger succeeds, so the mission can no longer be restored.
   */
  lemma TwoRunnersBreakReplay(m: Mission, t: string, actor: string, id1: string, id2: string, now: int,
                              replayNow: int, more: seq<AuditEvent>)
    requires m.missionId != "" && actor != "" && t in TaskIds(m) && id1 != "" && id2 != "" && id1 != id2
    ensures var q := ReleaseRequest(t, actor);
            var second := TryTransition(m.missionId, SecondRunner(m, q, id1, now), q, Some(id2), now);
            && |SecondRunner(m, q, id1, now).events| == 1 && second.Ok?
            && var ledger := second.value.events + more;
               ReplayEvents(m.missionId, TaskIds(m), MissionEvents(ledger, m.missionId), replayNow).Err?
  {
    var q, start := ReleaseRequest(t, actor), Start(m, []);
    var e1 := ReleasedBy(m, start, q, id1, now);
    assert SecondRunner(m, q, id1, now).events == [e1];
    NotHeldBy(e1, id2);
    var e2 := ReleasedBy(m, SecondRunner(m, q, id1, now), q, id2, now);
    TwiceReleased(m, e1, e2, q, replayNow);
    NeverAgain(m, [e1] + [e2], more, replayNow);
  }

  lemma NeverAgain(m: Mission, events: seq<AuditEvent>, more: seq<AuditEvent>, now: int)
    requires ReplayEvents(m.missionId, TaskIds(m), MissionEvents(events, m.missionId), now).Err?
    ensures ReplayEvents(m.missionId, TaskIds(m), MissionEvents(events + more, m.missionId), now).Err?
  {
    assert (events + more)[..|events|] == events;
    ReplayFails(m.missionId, TaskIds(m), events + more, |events|, now);
  }

  lemma NotHeldBy(e: AuditEvent, id: string)
    requires e.eventId != id
    ensures !HasId([e], id)
  {
  }

  lemma ReleasedBy(m: Mission, s: MissionState, q: Request, id: string, now: int) returns (e: AuditEvent)
    requires m.missionId != "" && q.actorId != "" && id != "" && !HasId(s.events, id)
    requires q.taskId in s.tasks && s.tasks[q.taskId].state == Backlog && q.target == TaskState.Ready
    ensures var r := TryTransition(m.missionId, s, q, Some(id), now); r.Ok? && r.value.events == s.events + [e]
    ensures e.eventId == id && IsTransitionOf(e, m.missionId) && DecodeRequest(e) == Some(q)
  {
    e := TryTransition(m.missionId, s, q, Some(id), now).value.events[|s.events|];
    DecodeEncode(m.missionId, s.events, s.tasks[q.taskId], q, Some(id), now);
  }

  lemma ReadyStaysOut(r: TaskRecord, q: Request)
    requires r.state == TaskState.Ready && q.target == TaskState.Ready
    ensures !Admits(r, q)
  {
  }

  lemma NotTwice(q: Request)
    requires q.target == TaskState.Ready
    ensures !Guarded([q] + [q])
  {
    GuardedMore([], q);
    assert [] + [q] == [q];
    var r := RecordAfter([q]);
    assert r == Committed(RecordAfter([]), q);
    ReadyStaysOut(r, q);
    GuardedMore([q], q);
  }

  lemma TwiceReleased(m: Mission, e1: AuditEvent, e2: AuditEvent, q: Request, now: int)
    requires IsTransitionOf(e1, m.missionId) && IsTransitionOf(e2, m.missionId)
    requires DecodeRequest(e1) == Some(q) && DecodeRequest(e2) == Some(q) && q.target == TaskState.Ready
    requires q.taskId in TaskIds(m)
    ensures ReplayEvents(m.missionId, TaskIds(m), MissionEvents([e1] + [e2], m.missionId), now).Err?
  {
    MissionEventsStep([], e1, m.missionId);
    MissionEventsStep([e1], e2, m.missionId);
    assert [] + [e1] == [e1];
    var es := [e1] + [e2];
    RequestsMore([], e1, q.taskId);
    RequestsMore([e1], e2, q.taskId);
    assert RequestsFor([], q.taskId) == [] && [] + [q] == [q];
    NotTwice(q);
    ReplayExactly(m.missionId, TaskIds(m), es, now);
  }
}
