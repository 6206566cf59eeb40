/**
 Dependency release: when the ledger justifies every move out of BACKLOG, and what that means for the work that
 follows.
 */
module ReleaseSafety {
  import opened Wrappers
  import opened Graphs
  import opened TaskGraph
  import opened TaskStates
  import opened Ledger
  import opened Runner
  import opened MissionRuns
  import opened ReviewHistory

  /** Event k moves task t to the given state. */
  predicate MovesTo(m: Mission, events: seq<AuditEvent>, k: nat, t: string, to: TaskState) {
    && k < |events| && IsTransitionOf(events[k], m.missionId)
    && var entry := DecodeEntry(events[k]); entry.Some? && entry.value.taskId == t && entry.value.to == to
  }

  predicate LeavesBacklog(m: Mission, events: seq<AuditEvent>, k: nat, t: string) {
    MovesTo(m, events, k, t, TaskState.Ready) && DecodeEntry(events[k]).value.from == Backlog
  }

  ghost predicate DoneBefore(m: Mission, events: seq<AuditEvent>, n: nat, t: string) {
    exists k :: 0 <= k < n && MovesTo(m, events, k, t, Done)
  }

  ghost predicate ReleasedBefore(m: Mission, events: seq<AuditEvent>, n: nat, t: string) {
    exists k :: 0 <= k < n && LeavesBacklog(m, events, k, t)
  }

  function Dependencies(m: Mission, t: string): seq<string> {
    if t in ById(m.nodes) then ById(m.nodes)[t].dependencies else []
  }

  /** Every release has the DONE events of the task's dependencies before it. */
  ghost predicate ReleaseJustified(m: Mission, events: seq<AuditEvent>, k: nat, t: string) {
    LeavesBacklog(m, events, k, t) ==> forall d :: d in Dependencies(m, t) ==> DoneBefore(m, events, k, d)
  }

  /** Work and completion come after release. */
  ghost predicate WorkAfterRelease(m: Mission, events: seq<AuditEvent>, k: nat, t: string) {
    MovesTo(m, events, k, t, InProgress) || MovesTo(m, events, k, t, Done) ==> ReleasedBefore(m, events, k, t)
  }

  /** The ledger shows how task t got into its state. */
  ghost predicate StateShown(m: Mission, s: MissionState, t: string)
    requires t in s.tasks
  {
    && (s.tasks[t].state != Backlog && s.tasks[t].state != Cancelled ==> ReleasedBefore(m, s.events, |s.events|, t))
    && (s.tasks[t].state == Done ==> DoneBefore(m, s.events, |s.events|, t))
  }

  ghost predicate ReleaseSound(m: Mission, s: MissionState) {
    && (forall t :: t in s.tasks ==> StateShown(m, s, t))
    && (forall k, t :: 0 <= k < |s.events| ==> ReleaseJustified(m, s.events, k, t))
    && (forall k, t :: 0 <= k < |s.events| ==> WorkAfterRelease(m, s.events, k, t))
  }

  /** Earlier events mean the same in a longer ledger. */
  lemma Extends(m: Mission, events: seq<AuditEvent>, e: AuditEvent)
    ensures forall k, t, to :: 0 <= k < |events| ==> (MovesTo(m, events + [e], k, t, to) <==>
        MovesTo(m, events, k, t, to))
    ensures forall k, t :: 0 <= k < |events| ==> (LeavesBacklog(m, events + [e], k, t) <==>
        LeavesBacklog(m, events, k, t))
    ensures forall n, t :: 0 <= n <= |events| ==> (DoneBefore(m, events + [e], n, t) <==> DoneBefore(m, events, n, t))
    ensures forall n, t :: 0 <= n <= |events| ==> (ReleasedBefore(m, events + [e], n, t) <==>
        ReleasedBefore(m, events, n, t))
  {
    assert forall k :: 0 <= k < |events| ==> (events + [e])[k] == events[k];
  }

  lemma OlderKept(m: Mission, s: MissionState, e: AuditEvent, k: nat, t: string)
    requires ReleaseSound(m, s) && k < |s.events|
    ensures ReleaseJustified(m, s.events + [e], k, t) && WorkAfterRelease(m, s.events + [e], k, t)
  {
    Extends(m, s.events, e);
    assert ReleaseJustified(m, s.events, k, t) && WorkAfterRelease(m, s.events, k, t);
  }

  lemma ForeignKeeps(m: Mission, s: MissionState, e: AuditEvent)
    requires ReleaseSound(m, s) && !IsTransitionOf(e, m.missionId)
    ensures ReleaseSound(m, MissionState(s.tasks, s.events + [e]))
  {
    var next := s.events + [e];
    Extends(m, s.events, e);
    forall k, t | 0 <= k < |next| ensures ReleaseJustified(m, next, k, t) && WorkAfterRelease(m, next, k, t) {
      if k < |s.events| { OlderKept(m, s, e, k, t); }
    }
    forall t | t in s.tasks ensures StateShown(m, MissionState(s.tasks, next), t) {
      OtherShown(m, s, s.tasks, e, t);
    }
  }

  /** The dependencies of t are done, as far as the ledger shows. */
  ghost predicate DependenciesDone(m: Mission, s: MissionState, t: string) {
    forall d :: d in Dependencies(m, t) ==> DoneBefore(m, s.events, |s.events|, d)
  }

  lemma TransitionKeeps(m: Mission, s: MissionState, q: Request, id: Option<string>, now: int)
    requires ReleaseSound(m, s) && TryTransition(m.missionId, s, q, id, now).Ok?
    requires q.target == TaskState.Ready && s.tasks[q.taskId].state == Backlog ==> DependenciesDone(m, s, q.taskId)
    ensures var t := TryTransition(m.missionId, s, q, id, now).value;
            ReleaseSound(m, t) && |t.events| == |s.events| + 1 && s.events <= t.events
  {
    var e := AcceptedMove(m, s, q, id, now);
    MoveKeeps(m, s, q, e);
  }

  /** What an accepted transition adds to the ledger. */
  lemma AcceptedMove(m: Mission, s: MissionState, q: Request, id: Option<string>, now: int) returns (e: AuditEvent)
    requires TryTransition(m.missionId, s, q, id, now).Ok?
    ensures q.taskId in s.tasks && q.target in Allowed(s.tasks[q.taskId].state)
    ensures TryTransition(m.missionId, s, q, id, now).value
            == MissionState(s.tasks[q.taskId := Committed(s.tasks[q.taskId], q)], s.events + [e])
    ensures IsTransitionOf(e, m.missionId) && DecodeEntry(e) == Some(EntryOf(s.tasks[q.taskId], q))
    ensures e.eventId == EventIdFor(s.events, id)
  {
    var r := s.tasks[q.taskId];
    e := Appended(s.events, DraftFor(m.missionId, s.events, r, q, id, now)).value;
    DecodeEncode(m.missionId, s.events, r, q, id, now);
    DecodeEntryOf(m.missionId, s.events, r, q, id, now);
  }

  lemma MoveKeeps(m: Mission, s: MissionState, q: Request, e: AuditEvent)
    requires ReleaseSound(m, s) && q.taskId in s.tasks && q.target in Allowed(s.tasks[q.taskId].state)
    requires IsTransitionOf(e, m.missionId) && DecodeEntry(e) == Some(EntryOf(s.tasks[q.taskId], q))
    requires q.target == TaskState.Ready && s.tasks[q.taskId].state == Backlog ==> DependenciesDone(m, s, q.taskId)
    ensures ReleaseSound(m, MissionState(s.tasks[q.taskId := Committed(s.tasks[q.taskId], q)], s.events + [e]))
  {
    var next, n := s.events + [e], |s.events|;
    forall k, t | 0 <= k <= n ensures ReleaseJustified(m, next, k, t) && WorkAfterRelease(m, next, k, t) {
      if k < n { OlderKept(m, s, e, k, t); } else { LastMove(m, s, q, e, t); }
    }
    var tasks := s.tasks[q.taskId := Committed(s.tasks[q.taskId], q)];
    forall t | t in tasks ensures StateShown(m, MissionState(tasks, next), t) {
      if t == q.taskId {
        MoveShown(m, s, q, e);
      } else {
        OtherShown(m, s, tasks, e, t);
      }
    }
  }

  lemma OtherShown(m: Mission, s: MissionState, tasks: Tasks, e: AuditEvent, t: string)
    requires t in tasks && t in s.tasks && tasks[t] == s.tasks[t] && StateShown(m, s, t)
    ensures StateShown(m, MissionState(tasks, s.events + [e]), t)
  {
    ReleasedStays(m, s.events, e);
    DoneStays(m, s.events, e);
  }

  /** The moved task: its new event shows its new state. */
  lemma MoveShown(m: Mission, s: MissionState, q: Request, e: AuditEvent)
    requires q.taskId in s.tasks && q.target in Allowed(s.tasks[q.taskId].state) && StateShown(m, s, q.taskId)
    requires IsTransitionOf(e, m.missionId) && DecodeEntry(e) == Some(EntryOf(s.tasks[q.taskId], q))
    ensures StateShown(m, MissionState(s.tasks[q.taskId := Committed(s.tasks[q.taskId], q)], s.events + [e]), q.taskId)
  {
    var next, n := s.events + [e], |s.events|;
    assert next[n] == e;
    ReleasedStays(m, s.events, e);
    assert MovesTo(m, next, n, q.taskId, q.target);
    LeavesOrCancels(s.tasks[q.taskId].state, q.target);
    if q.target == TaskState.Ready && s.tasks[q.taskId].state == Backlog {
      assert LeavesBacklog(m, next, n, q.taskId);
    }
  }

  lemma LeavesOrCancels(from: TaskState, to: TaskState)
    requires to in Allowed(from)
    ensures from == Backlog ==> to == TaskState.Ready || to == Cancelled
    ensures from != Cancelled && to != Backlog
  {
  }

  /** The newest event of an accepted transition. */
  lemma LastMove(m: Mission, s: MissionState, q: Request, e: AuditEvent, t: string)
    requires ReleaseSound(m, s) && q.taskId in s.tasks && q.target in Allowed(s.tasks[q.taskId].state)
    requires IsTransitionOf(e, m.missionId) && DecodeEntry(e) == Some(EntryOf(s.tasks[q.taskId], q))
    requires q.target == TaskState.Ready && s.tasks[q.taskId].state == Backlog ==> DependenciesDone(m, s, q.taskId)
    ensures ReleaseJustified(m, s.events + [e], |s.events|, t) && WorkAfterRelease(m, s.events + [e], |s.events|, t)
  {
    Extends(m, s.events, e);
    assert (s.events + [e])[|s.events|] == e;
    if t == q.taskId && (q.target == InProgress || q.target == Done) {
      WorkFollowsRelease(s.tasks[t].state, q.target);
      assert StateShown(m, s, t);
      assert ReleasedBefore(m, s.events, |s.events|, t);
    }
  }

  lemma WorkFollowsRelease(from: TaskState, to: TaskState)
    requires to in Allowed(from) && (to == InProgress || to == Done)
    ensures from != Backlog && from != Cancelled
  {
  }

  lemma {:induction false} ReleaseStepKeeps(m: Mission, s: MissionState, ids: seq<string>, actorId: string, now: int)
    requires ReleaseSound(m, s) && forall id :: id in ids ==> DependenciesDone(m, s, id)
    ensures ReleaseSound(m, ReleaseAll(m.missionId, s, ids, actorId, now).0)
    decreases ids
  {
    if ids == [] {
    } else {
      var q := ReleaseRequest(ids[0], actorId);
      var t := TryTransition(m.missionId, s, q, None, now);
      if t.Ok? {
        TransitionKeeps(m, s, q, None, now);
        forall id | id in ids[1..] ensures DependenciesDone(m, t.value, id) {
          assert DependenciesDone(m, s, id);
          Extends(m, s.events, t.value.events[|s.events|]);
          assert t.value.events == s.events + [t.value.events[|s.events|]];
          DoneStays(m, s.events, t.value.events[|s.events|]);
        }
        ReleaseStepKeeps(m, t.value, ids[1..], actorId, now);
      }
    }
  }

  lemma DoneStays(m: Mission, events: seq<AuditEvent>, e: AuditEvent)
    ensures forall d :: DoneBefore(m, events, |events|, d) ==> DoneBefore(m, events + [e], |events| + 1, d)
  {
    Extends(m, events, e);
    forall d | DoneBefore(m, events, |events|, d) ensures DoneBefore(m, events + [e], |events| + 1, d) {
      var k :| 0 <= k < |events| && MovesTo(m, events, k, d, Done);
      assert MovesTo(m, events + [e], k, d, Done);
    }
  }

  lemma ReleasedStays(m: Mission, events: seq<AuditEvent>, e: AuditEvent)
    ensures forall t :: ReleasedBefore(m, events, |events|, t) ==> ReleasedBefore(m, events + [e], |events| + 1, t)
  {
    Extends(m, events, e);
    forall t | ReleasedBefore(m, events, |events|, t) ensures ReleasedBefore(m, events + [e], |events| + 1, t) {
      var k :| 0 <= k < |events| && LeavesBacklog(m, events, k, t);
      assert LeavesBacklog(m, events + [e], k, t);
    }
  }

  lemma NameIsDone(st: TaskState)
    requires Name(st) == "DONE"
    ensures st == Done
  {
  }

  lemma ReadyMeansDone(m: Mission, s: MissionState, id: string)
    requires ReleaseSound(m, s) && id in ReadyIds(m.nodes, s.tasks)
    ensures DependenciesDone(m, s, id)
  {
    forall d | d in Dependencies(m, id) ensures DoneBefore(m, s.events, |s.events|, d) {
      assert StateShown(m, s, d);
      NameIsDone(s.tasks[d].state);
    }
  }

  /** A direct move from BACKLOG to READY that is accepted although a dependency has no DONE event. */
  ghost predicate Jumps(m: Mission, s: MissionState, step: Step) {
    && step.Attempt? && step.q.target == TaskState.Ready
    && TryTransition(m.missionId, s, step.q, step.eventId, step.now).Ok?
    && s.tasks[step.q.taskId].state == Backlog && !DependenciesDone(m, s, step.q.taskId)
  }

  ghost predicate NoJumps(m: Mission, s: MissionState, steps: seq<Step>) {
    forall i :: 0 <= i < |steps| ==> !Jumps(m, Run(m, s, steps[..i]), steps[i])
  }

  /** One step that does not jump keeps the ledger justified. */
  lemma StepKeeps(m: Mission, s: MissionState, step: Step)
    requires ReleaseSound(m, s) && !Jumps(m, s, step)
    ensures ReleaseSound(m, Exec(m, s, step))
  {
    match step
    case Attempt(q, id, now) =>
      if TryTransition(m.missionId, s, q, id, now).Ok? { TransitionKeeps(m, s, q, id, now); }
    case Release(actor, now) =>
      forall id | id in ReadyIds(m.nodes, s.tasks) ensures DependenciesDone(m, s, id) { ReadyMeansDone(m, s, id); }
      ReleaseStepKeeps(m, s, ReadyIds(m.nodes, s.tasks), actor, now);
    case Foreign(d) =>
      var e := Appended(s.events, d);
      if e.Ok? && !IsTransitionOf(e.value, m.missionId) { ForeignKeeps(m, s, e.value); }
  }

  lemma {:induction false} JumpFreeRun(m: Mission, earlier: seq<AuditEvent>, steps: seq<Step>)
    requires FreshFor(earlier, m.missionId) && NoJumps(m, Start(m, earlier), steps)
    ensures ReleaseSound(m, Run(m, Start(m, earlier), steps))
  {
    var start := Start(m, earlier);
    if steps == [] {
      StartIsSound(m, earlier);
    } else {
      var init := steps[..|steps| - 1];
      forall i | 0 <= i < |init| ensures !Jumps(m, Run(m, start, init[..i]), init[i]) {
        assert init[..i] == steps[..i];
        assert !Jumps(m, Run(m, start, steps[..i]), steps[i]);
      }
      JumpFreeRun(m, earlier, init);
      assert !Jumps(m, Run(m, start, steps[..|steps| - 1]), steps[|steps| - 1]);
      StepKeeps(m, Run(m, start, init), steps[|steps| - 1]);
    }
  }

  /** The events before position n mean the same in every ledger that extends them. */
  lemma SamePrefix(m: Mission, events: seq<AuditEvent>, more: seq<AuditEvent>, n: nat, t: string)
    requires events <= more && n <= |events|
    ensures DoneBefore(m, more, n, t) <==> DoneBefore(m, events, n, t)
    ensures n < |events| ==> (LeavesBacklog(m, more, n, t) <==> LeavesBacklog(m, events, n, t))
  {
    if DoneBefore(m, more, n, t) {
      var k :| 0 <= k < n && MovesTo(m, more, k, t, Done);
      assert MovesTo(m, events, k, t, Done);
    }
    if DoneBefore(m, events, n, t) {
      var k :| 0 <= k < n && MovesTo(m, events, k, t, Done);
      assert MovesTo(m, more, k, t, Done);
    }
  }

  /** A jump leaves an unjustified release in every ledger that grows from it. */
  lemma JumpIsUnjustified(m: Mission, s: MissionState, step: Step, final: seq<AuditEvent>)
    requires Jumps(m, s, step) && Exec(m, s, step).events <= final
    ensures |s.events| < |final| && !ReleaseJustified(m, final, |s.events|, step.q.taskId)
  {
    var e := AcceptedMove(m, s, step.q, step.eventId, step.now);
    var n, next, t := |s.events|, s.events + [e], step.q.taskId;
    assert next[n] == e && LeavesBacklog(m, next, n, t);
    var d :| d in Dependencies(m, t) && !DoneBefore(m, s.events, n, d);
    SamePrefix(m, next, final, n, t);
    SamePrefix(m, s.events, final, n, d);
  }

  /** Every move out of BACKLOG has the DONE events of the task's dependencies before it. */
  ghost predicate AllJustified(m: Mission, events: seq<AuditEvent>) {
    forall k, t :: 0 <= k < |events| ==> ReleaseJustified(m, events, k, t)
  }

  lemma JumpShows(m: Mission, start: MissionState, steps: seq<Step>)
    requires !NoJumps(m, start, steps)
    ensures !AllJustified(m, Run(m, start, steps).events)
  {
    var i :| 0 <= i < |steps| && Jumps(m, Run(m, start, steps[..i]), steps[i]);
    RunNext(m, start, steps, i);
    RunGrows(m, start, steps, i + 1);
    JumpStays(m, Run(m, start, steps[..i]), steps[i], Run(m, start, steps).events);
  }

  lemma JumpStays(m: Mission, s: MissionState, step: Step, final: seq<AuditEvent>)
    requires Jumps(m, s, step) && Exec(m, s, step).events <= final
    ensures !AllJustified(m, final)
  {
    JumpIsUnjustified(m, s, step, final);
  }

  /**
   Dependency safety, exactly: in any run every release is justified if and only if no direct transition takes a task
   from BACKLOG to READY before all its dependencies have a DONE event.
   */
  lemma JustifiedExactly(m: Mission, earlier: seq<AuditEvent>, steps: seq<Step>)
    requires FreshFor(earlier, m.missionId)
    ensures AllJustified(m, Run(m, Start(m, earlier), steps).events) <==> NoJumps(m, Start(m, earlier), steps)
  {
    if NoJumps(m, Start(m, earlier), steps) {
      JumpFreeRun(m, earlier, steps);
    } else {
      JumpShows(m, Start(m, earlier), steps);
    }
  }

  lemma {:induction false} NoTransitions(events: seq<AuditEvent>, missionId: string)
    requires MissionEvents(events, missionId) == []
    ensures forall k :: 0 <= k < |events| ==> !IsTransitionOf(events[k], missionId)
  {
    if events == [] {
    } else {
      NoTransitions(events[..|events| - 1], missionId);
    }
  }

  lemma StartIsSound(m: Mission, earlier: seq<AuditEvent>)
    requires FreshFor(earlier, m.missionId)
    ensures ReleaseSound(m, Start(m, earlier))
  {
    NoTransitions(earlier, m.missionId);
  }

  /** A done task was released before, so the dependencies of a released task are done before, all the way down. */
  lemma {:induction false} TransitiveDone(m: Mission, s: MissionState, k: nat, t: string, d: string)
    requires ReleaseSound(m, s) && k < |s.events| && LeavesBacklog(m, s.events, k, t)
    requires Reaches(DependencyGraph(ById(m.nodes)), t, d)
    ensures DoneBefore(m, s.events, k, d)
    decreases k
  {
    var u := FirstEdge(DependencyGraph(ById(m.nodes)), t, d);
    assert ReleaseJustified(m, s.events, k, t) && u in Dependencies(m, t);
    if u != d {
      var j :| 0 <= j < k && MovesTo(m, s.events, j, u, Done);
      assert WorkAfterRelease(m, s.events, j, u);
      var i :| 0 <= i < j && LeavesBacklog(m, s.events, i, u);
      TransitiveDone(m, s, i, u, d);
      var h :| 0 <= h < i && MovesTo(m, s.events, h, d, Done);
    }
  }

  /**
   Release is safe: in a run without jumps, whenever a task enters IN_PROGRESS the ledger already holds
   a DONE event for every transitive dependency.
   */
  lemma WorkHasDependenciesDone(m: Mission, earlier: seq<AuditEvent>, steps: seq<Step>, k: nat, t: string, d: string)
    requires FreshFor(earlier, m.missionId) && NoJumps(m, Start(m, earlier), steps)
    requires MovesTo(m, Run(m, Start(m, earlier), steps).events, k, t, InProgress)
    requires Reaches(DependencyGraph(ById(m.nodes)), t, d)
    ensures DoneBefore(m, Run(m, Start(m, earlier), steps).events, k, d)
  {
    JumpFreeRun(m, earlier, steps);
    WorkInSoundState(m, Run(m, Start(m, earlier), steps), k, t, d);
  }

  lemma WorkInSoundState(m: Mission, s: MissionState, k: nat, t: string, d: string)
    requires ReleaseSound(m, s) && MovesTo(m, s.events, k, t, InProgress)
    requires Reaches(DependencyGraph(ById(m.nodes)), t, d)
    ensures DoneBefore(m, s.events, k, d)
  {
    assert WorkAfterRelease(m, s.events, k, t);
    var i :| 0 <= i < k && LeavesBacklog(m, s.events, i, t);
    TransitiveDone(m, s, i, t, d);
    var h :| 0 <= h < i && MovesTo(m, s.events, h, d, Done);
  }

  /** transition itself asks for no dependency: a BACKLOG task with an undone dependency can always jump. */
  lemma TransitionIgnoresDependencies(m: Mission, s: MissionState, t: string, actor: string, id: string, now: int)
    requires m.missionId != "" && actor != "" && id != "" && !HasId(s.events, id)
    requires t in s.tasks && s.tasks[t].state == Backlog && !DependenciesDone(m, s, t)
    ensures Jumps(m, s, Attempt(ReleaseRequest(t, actor), Some(id), now))
  {
  }

  function WorkRequest(t: string, actor: string): Request {
    Request(t, InProgress, actor, [], [], [], None)
  }

  /** What a plain call adds when it is accepted: an event without evidence, reviewers or approval. */
  lemma PlainCall(m: Mission, s: MissionState, q: Request, id: string, now: int) returns (e: AuditEvent)
    requires m.missionId != "" && q.actorId != "" && id != "" && !HasId(s.events, id) && q.taskId in s.tasks
    requires || (s.tasks[q.taskId].state == Backlog && q.target == TaskState.Ready)
             || (s.tasks[q.taskId].state == TaskState.Ready && q.target == InProgress)
    ensures var next := Exec(m, s, Attempt(q, Some(id), now));
            next.events == s.events + [e] && q.taskId in next.tasks && next.tasks[q.taskId].state == q.target
    ensures e.eventId == id && IsTransitionOf(e, m.missionId)
    ensures DecodeEntry(e).Some? && DecodeEntry(e).value.taskId == q.taskId && DecodeEntry(e).value.to == q.target
  {
    e := AcceptedMove(m, s, q, Some(id), now);
  }

  function JumpAndWork(t: string, actor: string, id1: string, id2: string, now: int): seq<Step> {
    [Attempt(ReleaseRequest(t, actor), Some(id1), now), Attempt(WorkRequest(t, actor), Some(id2), now)]
  }

  /** Two accepted transitions on a fresh ledger that start work on t while its dependency d has no DONE event. */
  lemma WorkBeforeDependency(m: Mission, t: string, d: string, actor: string, id1: string, id2: string, now: int)
    requires m.missionId != "" && actor != "" && id1 != "" && id2 != "" && id1 != id2 && d in Dependencies(m, t)
    ensures var events := Run(m, Start(m, []), JumpAndWork(t, actor, id1, id2, now)).events;
            |events| == 2 && MovesTo(m, events, 1, t, InProgress) && !DoneBefore(m, events, 2, d)
  {
    var steps := JumpAndWork(t, actor, id1, id2, now);
    var s0 := Start(m, []);
    RunTwo(m, s0, steps[0], steps[1]);
    var e1, e2 := JumpThenWork(m, s0, t, actor, id1, id2, now);
    assert [e1, e2][1] == e2;
    NoneDone(m, [e1, e2], e1, e2, d);
  }

  lemma JumpThenWork(m: Mission, s0: MissionState, t: string, actor: string, id1: string, id2: string, now: int)
    returns (e1: AuditEvent, e2: AuditEvent)
    requires m.missionId != "" && actor != "" && id1 != "" && id2 != "" && id1 != id2
    requires s0.events == [] && t in s0.tasks && s0.tasks[t].state == Backlog
    ensures var steps := JumpAndWork(t, actor, id1, id2, now);
            Exec(m, Exec(m, s0, steps[0]), steps[1]).events == [e1, e2]
    ensures DecodeEntry(e1).Some? && DecodeEntry(e1).value.to == TaskState.Ready
    ensures IsTransitionOf(e2, m.missionId)
    ensures DecodeEntry(e2).Some? && DecodeEntry(e2).value.taskId == t && DecodeEntry(e2).value.to == InProgress
  {
    e1, e2 := TwoPlainCalls(m, s0, ReleaseRequest(t, actor), id1, WorkRequest(t, actor), id2, now);
  }

  lemma TwoPlainCalls(m: Mission, s0: MissionState, q1: Request, id1: string, q2: Request, id2: string, now: int)
    returns (e1: AuditEvent, e2: AuditEvent)
    requires m.missionId != "" && q1.actorId != "" && q2.actorId != "" && id1 != "" && id2 != "" && id1 != id2
    requires s0.events == [] && q1.taskId in s0.tasks && s0.tasks[q1.taskId].state == Backlog && q1.taskId == q2.taskId
    requires q1.target == TaskState.Ready && q2.target == InProgress
    ensures Exec(m, Exec(m, s0, Attempt(q1, Some(id1), now)), Attempt(q2, Some(id2), now)).events == [e1, e2]
    ensures DecodeEntry(e1).Some? && DecodeEntry(e1).value.to == q1.target
    ensures IsTransitionOf(e2, m.missionId)
    ensures DecodeEntry(e2).Some? && DecodeEntry(e2).value.taskId == q2.taskId && DecodeEntry(e2).value.to == q2.target
  {
    e1 := PlainCall(m, s0, q1, id1, now);
    var s1 := Exec(m, s0, Attempt(q1, Some(id1), now));
    assert s1.events == [e1];
    NotHeld(e1, id2);
    e2 := PlainCall(m, s1, q2, id2, now);
  }

  lemma NotHeld(e: AuditEvent, id: string)
    requires e.eventId != id
    ensures !HasId([e], id)
  {
  }

  lemma NoneDone(m: Mission, events: seq<AuditEvent>, first: AuditEvent, second: AuditEvent, d: string)
    requires events == [first, second] && DecodeEntry(first).Some? && DecodeEntry(second).Some?
    requires DecodeEntry(first).value.to != Done && DecodeEntry(second).value.to != Done
    ensures !DoneBefore(m, events, 2, d)
  {
  }

  /**
   Release cannot deadlock: while some task is in BACKLOG and all others are DONE, there is a ready task,
   and the first release goes through unless its numbered event id is taken or a required name is empty.
   */
  lemma ReleaseProgresses(m: Mission, s: MissionState, t: string, actor: string, now: int)
    requires m.missionId != "" && actor != "" && WellFormed(m.nodes) && s.tasks.Keys == TaskIds(m)
    requires t in s.tasks && s.tasks[t].state == Backlog
    requires forall u :: u in s.tasks ==> s.tasks[u].state == Backlog || s.tasks[u].state == Done
    requires !HasId(s.events, EventIdFor(s.events, None))
    ensures var ready := ReadyIds(m.nodes, s.tasks);
            && ready != []
            && TryTransition(m.missionId, s, ReleaseRequest(ready[0], actor), None, now).Ok?
  {
    SomeReady(m, s, t);
    var ready := ReadyIds(m.nodes, s.tasks);
    assert ready[0] in ready;
    ReadyIsBacklog(m, s, ready[0]);
    NumberedReleaseAccepted(m, s, ready[0], actor, now);
  }

  lemma SomeReady(m: Mission, s: MissionState, t: string)
    requires WellFormed(m.nodes) && s.tasks.Keys == TaskIds(m)
    requires t in s.tasks && s.tasks[t].state == Backlog
    requires forall u :: u in s.tasks ==> s.tasks[u].state == Backlog || s.tasks[u].state == Done
    ensures ReadyIds(m.nodes, s.tasks) != []
  {
    NamesAgree(s.tasks);
    var r := NoReleaseDeadlock(m.nodes, StateNames(s.tasks), t);
    assert r in ReadyIds(m.nodes, s.tasks);
  }

  lemma NamesAgree(tasks: Tasks)
    ensures StateNames(tasks).Keys == tasks.Keys
    ensures forall t :: t in tasks && tasks[t].state == Backlog ==> StateNames(tasks)[t] == "BACKLOG"
    ensures forall t :: t in tasks && tasks[t].state == Done ==> StateNames(tasks)[t] == "DONE"
  {
  }

  lemma ReadyIsBacklog(m: Mission, s: MissionState, t: string)
    requires t in ReadyIds(m.nodes, s.tasks)
    ensures t in s.tasks && s.tasks[t].state == Backlog
  {
    var st := s.tasks[t].state;
    assert Name(st) == "BACKLOG";
    ParseName(st);
  }

  lemma NumberedReleaseAccepted(m: Mission, s: MissionState, t: string, actor: string, now: int)
    requires m.missionId != "" && actor != "" && t in s.tasks && s.tasks[t].state == Backlog
    requires !HasId(s.events, EventIdFor(s.events, None))
    ensures TryTransition(m.missionId, s, ReleaseRequest(t, actor), None, now).Ok?
  {
  }
}
