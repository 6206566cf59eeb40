/**
 Whole runs of one mission on a ledger it shares with others: every sequence of attempted
 transitions, releases and foreign appends, accepted or rejected.
 */
module MissionRuns {
  import opened Wrappers
  import opened TaskGraph
  import opened TaskStates
  import opened Ledger
  import opened Runner

  datatype Mission = Mission(missionId: string, nodes: seq<TaskNode>)

  /** One thing that can happen to the mission or to its ledger. */
  datatype Step =
    | Attempt(q: Request, eventId: Option<string>, now: int)
    | Release(actorId: string, releasedAt: int)
    | Foreign(d: Draft)

  function TaskIds(m: Mission): set<string> {
    SetOf(Ids(m.nodes))
  }

  /** Other users of the ledger append anything but this mission's transition events. */
  function Exec(m: Mission, s: MissionState, step: Step): MissionState {
    match step
    case Attempt(q, id, now) =>
      var t := TryTransition(m.missionId, s, q, id, now);
      if t.Ok? then t.value else s
    case Release(actor, now) =>
      ReleaseAll(m.missionId, s, ReadyIds(m.nodes, s.tasks), actor, now).0
    case Foreign(d) =>
      var e := Appended(s.events, d);
      if e.Ok? && !IsTransitionOf(e.value, m.missionId) then MissionState(s.tasks, s.events + [e.value]) else s
  }

  /** What each step does: an accepted call and an accepted foreign event take effect, anything refused does not. */
  lemma ExecExactly(m: Mission, s: MissionState, step: Step)
    ensures match step
            case Attempt(q, id, now) =>
              var t := TryTransition(m.missionId, s, q, id, now);
              Exec(m, s, step) == if t.Ok? then t.value else s
            case Release(actor, now) =>
              Distinct(Ids(m.nodes)) ==>
                exists ids, k: nat :: ReleasedReady(m.missionId, m.nodes, s, Exec(m, s, step), ids, k, actor, now)
            case Foreign(d) =>
              var e, t := Appended(s.events, d), Exec(m, s, step);
              && t.tasks == s.tasks
              && t.events == if e.Ok? && (d.missionId != m.missionId || d.eventType != "TASK_STATE_TRANSITION")
                             then s.events + [e.value] else s.events
  {
    match step
    case Attempt(_, _, _) =>
    case Release(actor, now) =>
      if Distinct(Ids(m.nodes)) {
        var k := ReleaseReadyExactly(m.missionId, m.nodes, s, actor, now);
        assert ReleasedReady(m.missionId, m.nodes, s, Exec(m, s, step), ReadyIds(m.nodes, s.tasks), k, actor, now);
      }
    case Foreign(d) => AppendedExactly(s.events, d);
  }

  function Run(m: Mission, s: MissionState, steps: seq<Step>): MissionState {
    if steps == [] then s
    else Exec(m, Run(m, s, steps[..|steps| - 1]), steps[|steps| - 1])
  }

  lemma RunNext(m: Mission, s: MissionState, steps: seq<Step>, i: nat)
    requires i < |steps|
    ensures Run(m, s, steps[..i + 1]) == Exec(m, Run(m, s, steps[..i]), steps[i])
  {
    assert steps[..i + 1][..i] == steps[..i];
  }

  lemma RunTwo(m: Mission, s: MissionState, first: Step, second: Step)
    ensures Run(m, s, [first, second]) == Exec(m, Exec(m, s, first), second)
  {
    assert [first, second][..1] == [first] && [first][..0] == [];
    assert Run(m, s, [first]) == Exec(m, s, first);
  }

  /** A mission started fresh on whatever the ledger already held. */
  function Start(m: Mission, events: seq<AuditEvent>): MissionState {
    MissionState(NewTasks(TaskIds(m)), events)
  }

  /** The ledger a mission may start on: verifiable, and without transition events of that mission. */
  ghost predicate FreshFor(events: seq<AuditEvent>, missionId: string) {
    Chained(events) && UniqueIds(events) && MissionEvents(events, missionId) == []
  }

  // ------------------------------------------------------------------------
  // Invariants: what every accepted transition and every foreign append keeps, every run keeps.

  ghost predicate KeptByTransitions(m: Mission, inv: MissionState -> bool) {
    forall s, q, id, now :: inv(s) && TryTransition(m.missionId, s, q, id, now).Ok? ==>
                              inv(TryTransition(m.missionId, s, q, id, now).value)
  }

  ghost predicate KeptByForeign(m: Mission, inv: MissionState -> bool) {
    forall s: MissionState, d ::
      inv(s) && Appended(s.events, d).Ok? && !IsTransitionOf(Appended(s.events, d).value, m.missionId) ==>
        inv(MissionState(s.tasks, s.events + [Appended(s.events, d).value]))
  }

  lemma {:induction false} ReleaseKeeps(m: Mission, inv: MissionState -> bool, s: MissionState,
                                        ids: seq<string>, actorId: string, now: int)
    requires inv(s) && KeptByTransitions(m, inv)
    ensures inv(ReleaseAll(m.missionId, s, ids, actorId, now).0)
    decreases ids
  {
    if ids == [] {
    } else {
      var t := TryTransition(m.missionId, s, ReleaseRequest(ids[0], actorId), None, now);
      if t.Ok? { ReleaseKeeps(m, inv, t.value, ids[1..], actorId, now); }
    }
  }

  lemma {:induction false} RunKeeps(m: Mission, inv: MissionState -> bool, s: MissionState, steps: seq<Step>)
    requires inv(s) && KeptByTransitions(m, inv) && KeptByForeign(m, inv)
    ensures inv(Run(m, s, steps))
  {
    if steps == [] {
    } else {
      var before := Run(m, s, steps[..|steps| - 1]);
      RunKeeps(m, inv, s, steps[..|steps| - 1]);
      match steps[|steps| - 1]
      case Attempt(q, id, now) =>
      case Release(actor, now) => ReleaseKeeps(m, inv, before, ReadyIds(m.nodes, before.tasks), actor, now);
      case Foreign(d) => assert Appended(before.events, d) == Appended(before.events, d);
    }
  }

  // ------------------------------------------------------------------------
  // The ledger stays verifiable

  ghost predicate LedgerSound(s: MissionState) {
    Chained(s.events) && UniqueIds(s.events)
  }

  /** Whatever is attempted, the shared ledger verifies at every point of the run. */
  lemma RunKeepsLedgerSound(m: Mission, s: MissionState, steps: seq<Step>)
    requires LedgerSound(s)
    ensures LedgerSound(Run(m, s, steps))
  {
    forall s: MissionState, q, id, now | LedgerSound(s) && TryTransition(m.missionId, s, q, id, now).Ok?
      ensures LedgerSound(TryTransition(m.missionId, s, q, id, now).value)
    {
      AppendKeepsChain(s.events, DraftFor(m.missionId, s.events, s.tasks[q.taskId], q, id, now));
    }
    forall s: MissionState, d | LedgerSound(s) && Appended(s.events, d).Ok?
      ensures LedgerSound(MissionState(s.tasks, s.events + [Appended(s.events, d).value]))
    {
      AppendKeepsChain(s.events, d);
    }
    RunKeeps(m, LedgerSound, s, steps);
  }

  // ------------------------------------------------------------------------
  // The ledger only grows

  lemma {:induction false} ReleaseGrows(m: Mission, s: MissionState, ids: seq<string>, actorId: string, now: int)
    ensures s.events <= ReleaseAll(m.missionId, s, ids, actorId, now).0.events
    decreases ids
  {
    if ids == [] {
    } else {
      var t := TryTransition(m.missionId, s, ReleaseRequest(ids[0], actorId), None, now);
      if t.Ok? { ReleaseGrows(m, t.value, ids[1..], actorId, now); }
    }
  }

  lemma ExecGrows(m: Mission, s: MissionState, step: Step)
    ensures s.events <= Exec(m, s, step).events
  {
    if step.Release? { ReleaseGrows(m, s, ReadyIds(m.nodes, s.tasks), step.actorId, step.releasedAt); }
  }

  /** What the ledger held after n steps of a run it still holds, in place, at the end. */
  lemma {:induction false} RunGrows(m: Mission, s: MissionState, steps: seq<Step>, n: nat)
    requires n <= |steps|
    ensures Run(m, s, steps[..n]).events <= Run(m, s, steps).events
    decreases |steps|
  {
    if n == |steps| {
      assert steps[..n] == steps;
    } else {
      var init := steps[..|steps| - 1];
      assert init[..n] == steps[..n];
      RunGrows(m, s, init, n);
      ExecGrows(m, Run(m, s, init), steps[|steps| - 1]);
    }
  }

  // ------------------------------------------------------------------------
  // Replay refines the live run

  lemma MissionEventsStep(events: seq<AuditEvent>, e: AuditEvent, missionId: string)
    ensures MissionEvents(events + [e], missionId)
            == if IsTransitionOf(e, missionId) then MissionEvents(events, missionId) + [e]
              else MissionEvents(events, missionId)
  {
    assert (events + [e])[..|events|] == events;
  }

  /** What replay reads are exactly the ledger's transition events of the mission. */
  lemma {:induction false} MissionEventsAreEvents(events: seq<AuditEvent>, missionId: string)
    ensures forall e :: e in MissionEvents(events, missionId) <==>
                        e in events && e.missionId == missionId && e.eventType == "TASK_STATE_TRANSITION"
  {
    if events == [] {
    } else {
      MissionEventsAreEvents(events[..|events| - 1], missionId);
      assert events == events[..|events| - 1] + [events[|events| - 1]];
    }
  }

  /** Encoding a transition into an event and decoding it gives the same call back. */
  lemma DecodeEncode(missionId: string, events: seq<AuditEvent>, r: TaskRecord, q: Request, id: Option<string>,
                     now: int)
    requires Appended(events, DraftFor(missionId, events, r, q, id, now)).Ok?
    ensures var e := Appended(events, DraftFor(missionId, events, r, q, id, now)).value;
            DecodeRequest(e) == Some(q) && IsTransitionOf(e, missionId) && e.eventId != ""
  {
    ParseName(q.target);
  }

  /** Replaying the ledger succeeds, gives the live records, and re-uses the mission's event ids in order. */
  ghost predicate ReplayAgrees(m: Mission, now: int, s: MissionState) {
    var es := MissionEvents(s.events, m.missionId);
    var r := ReplayEvents(m.missionId, TaskIds(m), es, now);
    && r.Ok? && r.value.tasks == s.tasks && |r.value.events| == |es|
    && forall i :: 0 <= i < |es| ==> r.value.events[i].eventId == es[i].eventId
  }

  lemma TransitionKeepsReplay(m: Mission, s: MissionState, q: Request, id: Option<string>, now: int, replayNow: int)
    requires ReplayAgrees(m, replayNow, s)
    requires TryTransition(m.missionId, s, q, id, now).Ok?
    ensures ReplayAgrees(m, replayNow, TryTransition(m.missionId, s, q, id, now).value)
  {
    var r := s.tasks[q.taskId];
    var e := Appended(s.events, DraftFor(m.missionId, s.events, r, q, id, now)).value;
    var es := MissionEvents(s.events, m.missionId);
    DecodeEncode(m.missionId, s.events, r, q, id, now);
    MissionEventsStep(s.events, e, m.missionId);
    ReplayAppend(m, es, e, q, replayNow);
    var before := ReplayEvents(m.missionId, TaskIds(m), es, replayNow).value;
    NotReplayedYet(m, s, before.events, e);
    SameTransition(m, s, before, q, id, now, replayNow);
  }

  lemma ReplayAppend(m: Mission, es: seq<AuditEvent>, e: AuditEvent, q: Request, now: int)
    requires ReplayEvents(m.missionId, TaskIds(m), es, now).Ok? && DecodeRequest(e) == Some(q)
    ensures ReplayEvents(m.missionId, TaskIds(m), es + [e], now)
            == TryTransition(m.missionId, ReplayEvents(m.missionId, TaskIds(m), es, now).value, q, Some(e.eventId), now)
  {
    assert (es + [e])[..|es|] == es;
  }

  /** An id the ledger does not hold is not held by the replayed ledger either. */
  lemma NotReplayedYet(m: Mission, s: MissionState, replayed: seq<AuditEvent>, e: AuditEvent)
    requires !HasId(s.events, e.eventId) && |replayed| == |MissionEvents(s.events, m.missionId)|
    requires forall i :: 0 <= i < |replayed| ==>
                           replayed[i].eventId == MissionEvents(s.events, m.missionId)[i].eventId
    ensures !HasId(replayed, e.eventId)
  {
    var es := MissionEvents(s.events, m.missionId);
    MissionEventsAreEvents(s.events, m.missionId);
    forall x | x in replayed ensures x.eventId != e.eventId {
      var i :| 0 <= i < |replayed| && replayed[i] == x;
      assert es[i] in es && es[i] in s.events;
    }
  }

  /** The same call on the same records, under the id it got: same records, one event more, of that id. */
  lemma SameTransition(m: Mission, s: MissionState, before: MissionState, q: Request, id: Option<string>,
                       now: int, replayNow: int)
    requires TryTransition(m.missionId, s, q, id, now).Ok? && before.tasks == s.tasks
    requires !HasId(before.events, EventIdFor(s.events, id))
    ensures var t := TryTransition(m.missionId, s, q, id, now).value;
            var r := TryTransition(m.missionId, before, q, Some(EventIdFor(s.events, id)), replayNow);
            && r.Ok? && r.value.tasks == t.tasks && |r.value.events| == |before.events| + 1
            && before.events <= r.value.events && r.value.events[|before.events|].eventId == EventIdFor(s.events, id)
  {
  }

  /** In every run, replaying the shared ledger succeeds and rebuilds exactly the live task records. */
  lemma ReplayRefinesRun(m: Mission, earlier: seq<AuditEvent>, steps: seq<Step>, now: int)
    requires FreshFor(earlier, m.missionId)
    ensures ReplayAgrees(m, now, Run(m, Start(m, earlier), steps))
  {
    forall s, q, id, at | ReplayAgrees(m, now, s) && TryTransition(m.missionId, s, q, id, at).Ok?
      ensures ReplayAgrees(m, now, TryTransition(m.missionId, s, q, id, at).value)
    {
      TransitionKeepsReplay(m, s, q, id, at, now);
    }
    forall s: MissionState, d |
      ReplayAgrees(m, now, s) && Appended(s.events, d).Ok? && !IsTransitionOf(Appended(s.events, d).value, m.missionId)
      ensures ReplayAgrees(m, now, MissionState(s.tasks, s.events + [Appended(s.events, d).value]))
    {
      MissionEventsStep(s.events, Appended(s.events, d).value, m.missionId);
    }
    RunKeeps(m, s => ReplayAgrees(m, now, s), Start(m, earlier), steps);
  }

  // ------------------------------------------------------------------------
  // A restored runner is indistinguishable from the one that never stopped

  lemma RunAppend(m: Mission, s: MissionState, steps: seq<Step>, last: Step)
    ensures Run(m, s, steps + [last]) == Exec(m, Run(m, s, steps), last)
  {
    assert (steps + [last])[..|steps|] == steps;
  }

  lemma SameMissionExec(m: Mission, n: Mission, s: MissionState, step: Step)
    requires m.missionId == n.missionId && ById(m.nodes) == ById(n.nodes)
    ensures Exec(n, s, step) == Exec(m, s, step)
  {
  }

  lemma {:induction false} RunConcat(m: Mission, n: Mission, s: MissionState, steps: seq<Step>, more: seq<Step>)
    requires m.missionId == n.missionId && ById(m.nodes) == ById(n.nodes)
    ensures Run(n, Run(m, s, steps), more) == Run(m, s, steps + more)
  {
    if more == [] {
      assert steps + more == steps;
    } else {
      var init, last := more[..|more| - 1], more[|more| - 1];
      RunConcat(m, n, s, steps, init);
      assert more == init + [last] && steps + more == (steps + init) + [last];
      BothAppend(m, n, Run(m, s, steps), init, s, steps + init, last);
    }
  }

  /** Two runs that agree, of one mission, agree after one step more. */
  lemma BothAppend(m: Mission, n: Mission, a: MissionState, left: seq<Step>, b: MissionState,
                   right: seq<Step>, last: Step)
    requires m.missionId == n.missionId && ById(m.nodes) == ById(n.nodes) && Run(n, a, left) == Run(m, b, right)
    ensures Run(n, a, left + [last]) == Run(m, b, right + [last])
  {
    RunAppend(n, a, left, last);
    RunAppend(m, b, right, last);
    SameMissionExec(m, n, Run(m, b, right), last);
  }

  /**
   Stop after any run, replay the ledger, bind the replayed records to the same ledger, and go on with any
   further steps, the nodes listed in any order: the outcome is that of a runner that never stopped.
   */
  lemma RestoredRunsOn(m: Mission, restored: Mission, earlier: seq<AuditEvent>, steps: seq<Step>, more: seq<Step>,
                       now: int)
    requires FreshFor(earlier, m.missionId)
    requires restored.missionId == m.missionId && ById(restored.nodes) == ById(m.nodes)
    ensures var live := Run(m, Start(m, earlier), steps);
            var replayed := ReplayEvents(m.missionId, TaskIds(restored), MissionEvents(live.events, m.missionId), now);
            && Chained(live.events) && replayed.Ok?
            && Run(restored, MissionState(replayed.value.tasks, live.events), more)
               == Run(m, Start(m, earlier), steps + more)
  {
    RunKeepsLedgerSound(m, Start(m, earlier), steps);
    ReplayRefinesRun(m, earlier, steps, now);
    assert TaskIds(restored) == ById(restored.nodes).Keys == TaskIds(m);
    RunConcat(m, restored, Start(m, earlier), steps, more);
  }
}
