/** What the ledger shows about the review of every finished task. */
module ReviewHistory {
  import opened Wrappers
  import opened TaskStates
  import opened Ledger
  import opened Runner
  import opened MissionRuns

  /** One transition of a task as its event records it. */
  datatype Entry = Entry(taskId: string, from: TaskState, to: TaskState, actorId: string, ctx: TransitionContext)

  function DecodeEntry(e: AuditEvent): Option<Entry> {
    var q := DecodeRequest(e);
    var p := e.payload;
    if q.None? || "from" !in p || !p["from"].JText? || "worker_ids" !in p || !p["worker_ids"].JList? then None else
    match Parse(p["from"].text)
    case None => None
    case Some(from) =>
      Some(Entry(q.value.taskId, from, q.value.target, e.actorId, ContextOf(p["worker_ids"].items, q.value)))
  }

  /** The entry a transition leaves. */
  function EntryOf(r: TaskRecord, q: Request): Entry {
    Entry(q.taskId, r.state, q.target, q.actorId, ContextOf(NextWorkers(r.workerIds, q.target, q.actorId), q))
  }

  lemma DecodeEntryOf(missionId: string, events: seq<AuditEvent>, r: TaskRecord, q: Request, id: Option<string>,
                      now: int)
    requires Appended(events, DraftFor(missionId, events, r, q, id, now)).Ok?
    ensures DecodeEntry(Appended(events, DraftFor(missionId, events, r, q, id, now)).value) == Some(EntryOf(r, q))
  {
    DecodeEncode(missionId, events, r, q, id, now);
    ParseName(r.state);
  }

  /** The transitions of one task, in ledger order. */
  function Entries(events: seq<AuditEvent>, missionId: string, taskId: string): seq<Entry> {
    if events == [] then [] else
    var rest := Entries(events[..|events| - 1], missionId, taskId);
    var e := events[|events| - 1];
    var entry := DecodeEntry(e);
    if IsTransitionOf(e, missionId) && entry.Some? && entry.value.taskId == taskId then rest + [entry.value] else rest
  }

  lemma EntriesStep(events: seq<AuditEvent>, e: AuditEvent, missionId: string, taskId: string)
    ensures Entries(events + [e], missionId, taskId) ==
            var entry := DecodeEntry(e);
            if IsTransitionOf(e, missionId) && entry.Some? && entry.value.taskId == taskId
            then Entries(events, missionId, taskId) + [entry.value] else Entries(events, missionId, taskId)
  {
    assert (events + [e])[..|events|] == events;
  }

  lemma {:induction false} NoMissionEventsNoEntries(events: seq<AuditEvent>, missionId: string, taskId: string)
    requires MissionEvents(events, missionId) == []
    ensures Entries(events, missionId, taskId) == []
  {
    if events == [] {
    } else {
      NoMissionEventsNoEntries(events[..|events| - 1], missionId, taskId);
    }
  }

  /** Every actor who moved the task to IN_PROGRESS among the entries. */
  ghost function Workers(es: seq<Entry>): set<string> {
    set e | e in es && e.to == InProgress :: e.actorId
  }

  /** The last non-empty reviewer list. */
  ghost function LastReviewers(es: seq<Entry>): seq<string> {
    if es == [] then []
    else if es[|es| - 1].ctx.reviewerIds != [] then es[|es| - 1].ctx.reviewerIds
    else LastReviewers(es[..|es| - 1])
  }

  /** The last non-empty evidence list. */
  ghost function LastEvidence(es: seq<Entry>): seq<string> {
    if es == [] then []
    else if es[|es| - 1].ctx.evidenceIds != [] then es[|es| - 1].ctx.evidenceIds
    else LastEvidence(es[..|es| - 1])
  }

  /** Entries follow on from one another, each passed the guards, and each names every worker so far. */
  ghost predicate LinkedAt(es: seq<Entry>, i: nat)
    requires i < |es|
  {
    && es[i].from == (if i == 0 then Backlog else es[i - 1].to)
    && ValidateTransition(es[i].from, es[i].to, es[i].ctx).None?
    && SetOf(es[i].ctx.workerIds) == Workers(es[..i + 1])
  }

  ghost predicate Linked(es: seq<Entry>) {
    forall i :: 0 <= i < |es| ==> LinkedAt(es, i)
  }

  /** The record says, field by field, what the entries say. */
  ghost predicate Describes(es: seq<Entry>, r: TaskRecord) {
    && r.state == (if es == [] then Backlog else es[|es| - 1].to)
    && SetOf(r.workerIds) == Workers(es)
    && r.reviewerIds == LastReviewers(es) && r.evidenceIds == LastEvidence(es)
    && r.objections == (if es == [] then [] else es[|es| - 1].ctx.objections)
  }

  ghost predicate HistorySound(m: Mission, s: MissionState) {
    forall t :: t in s.tasks ==>
                  Linked(Entries(s.events, m.missionId, t)) && Describes(Entries(s.events, m.missionId, t), s.tasks[t])
  }

  lemma WorkersGrow(es: seq<Entry>, e: Entry)
    ensures Workers(es + [e]) == Workers(es) + (if e.to == InProgress then {e.actorId} else {})
  {
  }

  lemma NextWorkersAre(es: seq<Entry>, r: TaskRecord, q: Request)
    requires SetOf(r.workerIds) == Workers(es)
    ensures SetOf(NextWorkers(r.workerIds, q.target, q.actorId)) == Workers(es + [EntryOf(r, q)])
  {
    WorkersGrow(es, EntryOf(r, q));
  }

  /** An entry that continues the last one, passes the guards and names every worker keeps the history linked. */
  lemma LinkedMore(es: seq<Entry>, e: Entry)
    requires Linked(es) && e.from == (if es == [] then Backlog else es[|es| - 1].to)
    requires ValidateTransition(e.from, e.to, e.ctx).None? && SetOf(e.ctx.workerIds) == Workers(es + [e])
    ensures Linked(es + [e])
  {
    var next := es + [e];
    forall i | 0 <= i < |next| ensures LinkedAt(next, i) {
      if i < |es| {
        assert LinkedAt(es, i) && next[..i + 1] == es[..i + 1];
      } else {
        assert next[..i + 1] == next;
      }
    }
  }

  lemma DescribedMore(es: seq<Entry>, r: TaskRecord, q: Request)
    requires Describes(es, r)
    requires SetOf(NextWorkers(r.workerIds, q.target, q.actorId)) == Workers(es + [EntryOf(r, q)])
    ensures Describes(es + [EntryOf(r, q)], Committed(r, q))
  {
    assert (es + [EntryOf(r, q)])[..|es|] == es;
  }

  lemma LinkOne(es: seq<Entry>, r: TaskRecord, q: Request)
    requires Linked(es) && Describes(es, r)
    requires ValidateTransition(r.state, q.target, ContextOf(NextWorkers(r.workerIds, q.target, q.actorId), q)).None?
    ensures Linked(es + [EntryOf(r, q)]) && Describes(es + [EntryOf(r, q)], Committed(r, q))
  {
    NextWorkersAre(es, r, q);
    LinkedMore(es, EntryOf(r, q));
    DescribedMore(es, r, q);
  }

  lemma TransitionKeepsHistory(m: Mission, s: MissionState, q: Request, id: Option<string>, now: int)
    requires HistorySound(m, s) && TryTransition(m.missionId, s, q, id, now).Ok?
    ensures HistorySound(m, TryTransition(m.missionId, s, q, id, now).value)
  {
    var t := TryTransition(m.missionId, s, q, id, now).value;
    var r := s.tasks[q.taskId];
    var e := Appended(s.events, DraftFor(m.missionId, s.events, r, q, id, now)).value;
    DecodeEncode(m.missionId, s.events, r, q, id, now);
    DecodeEntryOf(m.missionId, s.events, r, q, id, now);
    forall u | u in t.tasks
      ensures Linked(Entries(t.events, m.missionId, u)) && Describes(Entries(t.events, m.missionId, u), t.tasks[u])
    {
      EntriesStep(s.events, e, m.missionId, u);
      if u == q.taskId { LinkOne(Entries(s.events, m.missionId, u), r, q); }
    }
  }

  /** In every run, each task's events form a linked history that its record summarises. */
  lemma RunKeepsHistory(m: Mission, earlier: seq<AuditEvent>, steps: seq<Step>)
    requires FreshFor(earlier, m.missionId)
    ensures HistorySound(m, Run(m, Start(m, earlier), steps))
  {
    forall s, q, id, at | HistorySound(m, s) && TryTransition(m.missionId, s, q, id, at).Ok?
      ensures HistorySound(m, TryTransition(m.missionId, s, q, id, at).value)
    {
      TransitionKeepsHistory(m, s, q, id, at);
    }
    forall s: MissionState, d |
      HistorySound(m, s) && Appended(s.events, d).Ok? && !IsTransitionOf(Appended(s.events, d).value, m.missionId)
      ensures HistorySound(m, MissionState(s.tasks, s.events + [Appended(s.events, d).value]))
    {
      forall t | t in s.tasks
        ensures Entries(s.events + [Appended(s.events, d).value], m.missionId, t) == Entries(s.events, m.missionId, t)
      {
        EntriesStep(s.events, Appended(s.events, d).value, m.missionId, t);
      }
    }
    forall t | t in Start(m, earlier).tasks ensures Entries(earlier, m.missionId, t) == [] {
      NoMissionEventsNoEntries(earlier, m.missionId, t);
    }
    RunKeeps(m, s => HistorySound(m, s), Start(m, earlier), steps);
  }

  /** The closing entries of a task that is DONE. */
  ghost predicate ReviewedToDone(es: seq<Entry>) {
    var n := |es|;
    && n >= 6
    && es[n - 1].to == Done && es[n - 2].to == TaskState.Verified && es[n - 3].to == Review
    && es[n - 4].to == ReadyForVerification && es[n - 5].to == InProgress
    && es[n - 3].ctx.evidenceIds != []
    && es[n - 2].ctx.evidenceIds != [] && es[n - 2].ctx.reviewerIds != [] && es[n - 2].ctx.objections == []
    && SetOf(es[n - 2].ctx.reviewerIds) !! Workers(es)
  }

  /** The state machine leaves one way into each of the closing states. */
  lemma OnlyWay(from: TaskState, to: TaskState)
    requires to in Allowed(from)
    ensures to == Done ==> from == TaskState.Verified
    ensures to == TaskState.Verified ==> from == Review
    ensures to == Review ==> from == ReadyForVerification
    ensures to == ReadyForVerification ==> from == InProgress
    ensures to == InProgress ==> from != Backlog
  {
  }

  lemma Apart(a: set<string>, b: set<string>)
    requires a * b == {}
    ensures a !! b
  {
    forall x | x in a ensures x !in b {
      assert x in b <==> x in a * b;
    }
  }

  lemma VerifiedGuards(from: TaskState, to: TaskState, ctx: TransitionContext)
    requires ValidateTransition(from, to, ctx).None?
    ensures to == Review ==> ctx.evidenceIds != []
    ensures to == TaskState.Verified ==> ctx.evidenceIds != [] && ctx.reviewerIds != [] && ctx.objections == []
    ensures to == TaskState.Verified ==> SetOf(ctx.reviewerIds) !! SetOf(ctx.workerIds)
  {
    if to == TaskState.Verified { Apart(SetOf(ctx.reviewerIds), SetOf(ctx.workerIds)); }
  }

  lemma StepBack(es: seq<Entry>, i: nat)
    requires Linked(es) && i < |es|
    ensures es[i].to in Allowed(es[i].from) && es[i].from == (if i == 0 then Backlog else es[i - 1].to)
    ensures ValidateTransition(es[i].from, es[i].to, es[i].ctx).None?
    ensures SetOf(es[i].ctx.workerIds) == Workers(es[..i + 1])
  {
    assert LinkedAt(es, i);
  }

  lemma DoneSuffix(es: seq<Entry>)
    requires Linked(es) && es != [] && es[|es| - 1].to == Done
    ensures ReviewedToDone(es)
  {
    var n := |es|;
    CameFrom(es, n - 1);
    CameFrom(es, n - 2);
    CameFrom(es, n - 3);
    CameFrom(es, n - 4);
    CameFrom(es, n - 5);
    VerifierWorkers(es);
  }

  /** The entry before a closing entry, and what the closing entry itself carries. */
  lemma CameFrom(es: seq<Entry>, i: nat)
    requires Linked(es) && i < |es|
    ensures es[i].to == Done ==> i > 0 && es[i - 1].to == TaskState.Verified
    ensures es[i].to == TaskState.Verified ==>
              && i > 0 && es[i - 1].to == Review
              && es[i].ctx.evidenceIds != [] && es[i].ctx.reviewerIds != [] && es[i].ctx.objections == []
              && SetOf(es[i].ctx.reviewerIds) !! SetOf(es[i].ctx.workerIds)
    ensures es[i].to == Review ==> i > 0 && es[i - 1].to == ReadyForVerification && es[i].ctx.evidenceIds != []
    ensures es[i].to == ReadyForVerification ==> i > 0 && es[i - 1].to == InProgress
    ensures es[i].to == InProgress ==> i > 0
  {
    StepBack(es, i);
    OnlyWay(es[i].from, es[i].to);
    VerifiedGuards(es[i].from, es[i].to, es[i].ctx);
  }

  lemma VerifierWorkers(es: seq<Entry>)
    requires Linked(es) && |es| >= 2 && es[|es| - 1].to != InProgress
    ensures SetOf(es[|es| - 2].ctx.workerIds) == Workers(es)
  {
    StepBack(es, |es| - 2);
    WorkersOfLast(es);
    assert es[..|es| - 2 + 1] == es[..|es| - 1];
  }

  lemma WorkersOfLast(es: seq<Entry>)
    requires es != [] && es[|es| - 1].to != InProgress
    ensures Workers(es[..|es| - 1]) == Workers(es)
  {
    assert es == es[..|es| - 1] + [es[|es| - 1]];
  }

  /**
   Independent review over whole runs: the events of a DONE task end with IN_PROGRESS, READY_FOR_VERIFICATION,
   REVIEW with evidence, VERIFIED, DONE; and the reviewers that verified it include nobody who ever worked on it.
   */
  lemma DoneWasReviewed(m: Mission, earlier: seq<AuditEvent>, steps: seq<Step>, t: string)
    requires FreshFor(earlier, m.missionId)
    requires var s := Run(m, Start(m, earlier), steps); t in s.tasks && s.tasks[t].state == Done
    ensures ReviewedToDone(Entries(Run(m, Start(m, earlier), steps).events, m.missionId, t))
  {
    RunKeepsHistory(m, earlier, steps);
    var es := Entries(Run(m, Start(m, earlier), steps).events, m.missionId, t);
    DoneSuffix(es);
  }

  /** Entry i does not resume protected work, or it names the approval. */
  ghost predicate Approved(es: seq<Entry>, i: nat)
    requires i < |es|
  {
    es[i].from == AwaitingHumanApproval && es[i].to == InProgress ==>
      es[i].ctx.approval.Some? && es[i].ctx.approval.value != ""
  }

  /** In every run, work waiting for a human is resumed only by events that name a human approval. */
  lemma ProtectedWorkWasApproved(m: Mission, earlier: seq<AuditEvent>, steps: seq<Step>, t: string,
                                 i: nat)
    requires FreshFor(earlier, m.missionId)
    requires var s := Run(m, Start(m, earlier), steps); t in s.tasks && i < |Entries(s.events, m.missionId, t)|
    ensures Approved(Entries(Run(m, Start(m, earlier), steps).events, m.missionId, t), i)
  {
    RunKeepsHistory(m, earlier, steps);
    StepBack(Entries(Run(m, Start(m, earlier), steps).events, m.missionId, t), i);
  }

  lemma VerifiedDescription(es: seq<Entry>, r: TaskRecord)
    requires Linked(es) && Describes(es, r) && r.state == TaskState.Verified
    ensures r.reviewerIds != [] && SetOf(r.reviewerIds) !! SetOf(r.workerIds)
  {
    var n := |es|;
    StepBack(es, n - 1);
    VerifiedGuards(es[n - 1].from, es[n - 1].to, es[n - 1].ctx);
    assert es[..n - 1 + 1] == es;
  }

  /** While VERIFIED, the record itself names independent reviewers. */
  lemma VerifiedRecordIsIndependent(m: Mission, earlier: seq<AuditEvent>, steps: seq<Step>,
                                    t: string)
    requires FreshFor(earlier, m.missionId)
    requires var s := Run(m, Start(m, earlier), steps); t in s.tasks && s.tasks[t].state == TaskState.Verified
    ensures var r := Run(m, Start(m, earlier), steps).tasks[t];
            r.reviewerIds != [] && SetOf(r.reviewerIds) !! SetOf(r.workerIds)
  {
    RunKeepsHistory(m, earlier, steps);
    var s := Run(m, Start(m, earlier), steps);
    VerifiedDescription(Entries(s.events, m.missionId, t), s.tasks[t]);
  }

  /** None of the reviewers is a worker of the task. */
  ghost predicate NameNoWorker(reviewerIds: seq<string>, r: TaskRecord) {
    SetOf(reviewerIds) !! SetOf(r.workerIds)
  }

  lemma DoneDescription(es: seq<Entry>, r: TaskRecord)
    requires Linked(es) && Describes(es, r) && r.state == Done
    ensures es != [] && (NameNoWorker(r.reviewerIds, r) <==> NameNoWorker(es[|es| - 1].ctx.reviewerIds, r))
  {
    DoneSuffix(es);
    LastTwoReviewers(es);
  }

  lemma LastTwoReviewers(es: seq<Entry>)
    requires |es| >= 2 && es[|es| - 2].ctx.reviewerIds != []
    ensures LastReviewers(es) == if es[|es| - 1].ctx.reviewerIds != [] then es[|es| - 1].ctx.reviewerIds
                                 else es[|es| - 2].ctx.reviewerIds
  {
    var init := es[..|es| - 1];
    assert init[|init| - 1] == es[|es| - 2];
    assert LastReviewers(init) == es[|es| - 2].ctx.reviewerIds;
  }

  /** The record's reviewers exclude the workers if and only if those of the task's last event do. */
  ghost predicate IndependentAsLastEvent(m: Mission, s: MissionState, t: string)
    requires t in s.tasks
  {
    var es, r := Entries(s.events, m.missionId, t), s.tasks[t];
    es != [] && (NameNoWorker(r.reviewerIds, r) <==> NameNoWorker(es[|es| - 1].ctx.reviewerIds, r))
  }

  /**
   Once DONE, it need not: the DONE call may overwrite the reviewers. The record names independent reviewers
   if and only if that call named none of the task's workers.
   */
  lemma DoneRecordReviewers(m: Mission, earlier: seq<AuditEvent>, steps: seq<Step>, t: string)
    requires FreshFor(earlier, m.missionId)
    requires var s := Run(m, Start(m, earlier), steps); t in s.tasks && s.tasks[t].state == Done
    ensures IndependentAsLastEvent(m, Run(m, Start(m, earlier), steps), t)
  {
    RunKeepsHistory(m, earlier, steps);
    DoneRecord(m, Run(m, Start(m, earlier), steps), t);
  }

  lemma DoneRecord(m: Mission, s: MissionState, t: string)
    requires HistorySound(m, s) && t in s.tasks && s.tasks[t].state == Done
    ensures IndependentAsLastEvent(m, s, t)
  {
    DoneDescription(Entries(s.events, m.missionId, t), s.tasks[t]);
  }

  /** The overwriting call is accepted on every VERIFIED task. */
  lemma DoneMayNameAWorker(m: Mission, s: MissionState, t: string, worker: string, actor: string, id: string, now: int)
    requires m.missionId != "" && actor != "" && id != "" && !HasId(s.events, id)
    requires t in s.tasks && s.tasks[t].state == TaskState.Verified && worker in s.tasks[t].workerIds
    ensures var after := TryTransition(m.missionId, s, Request(t, Done, actor, [], [worker], [], None), Some(id), now);
            after.Ok? && worker in after.value.tasks[t].reviewerIds && worker in after.value.tasks[t].workerIds
  {
  }
}
