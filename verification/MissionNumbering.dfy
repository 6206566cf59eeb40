/** Event ids left to the runner, which numbers them by the length of its ledger. */
module MissionNumbering {
  import opened Wrappers
  import opened Decimal
  import opened Ledger
  import opened Runner
  import opened MissionRuns

  ghost predicate Numbered(events: seq<AuditEvent>) {
    forall i :: 0 <= i < |events| ==> events[i].eventId == EventIdFor(events[..i], None)
  }

  lemma NumberedIdsAreFresh(events: seq<AuditEvent>)
    requires Numbered(events)
    ensures !HasId(events, EventIdFor(events, None))
  {
    forall i | 0 <= i < |events| ensures events[i].eventId != EventIdFor(events, None) {
      NumberedIdsDiffer(i, |events|);
      assert |events[..i]| == i;
    }
  }

  lemma NumberedStep(m: Mission, s: MissionState, q: Request, given: Option<string>, now: int)
    requires Numbered(s.events) && given in {None, Some("")} && TryTransition(m.missionId, s, q, given, now).Ok?
    ensures Numbered(TryTransition(m.missionId, s, q, given, now).value.events)
  {
    var next := TryTransition(m.missionId, s, q, given, now).value.events;
    forall i | 0 <= i < |next| ensures next[i].eventId == EventIdFor(next[..i], None) {
      assert next[..i] == s.events[..i];
    }
  }

  lemma {:induction false} NumberedRelease(m: Mission, s: MissionState, ids: seq<string>, actorId: string, now: int)
    requires Numbered(s.events)
    ensures Numbered(ReleaseAll(m.missionId, s, ids, actorId, now).0.events)
    decreases ids
  {
    if ids == [] {
    } else {
      var t := TryTransition(m.missionId, s, ReleaseRequest(ids[0], actorId), None, now);
      if t.Ok? {
        NumberedStep(m, s, ReleaseRequest(ids[0], actorId), None, now);
        NumberedRelease(m, t.value, ids[1..], actorId, now);
      }
    }
  }

  /**
   The step numbers its events by the ledger's length: it leaves the choice to the runner, or it is another user of
   the ledger that numbers its own event the same way.
   */
  predicate SelfNumbered(s: MissionState, step: Step) {
    match step
    case Attempt(_, id, _) => id in {None, Some("")}
    case Release(_, _) => true
    case Foreign(d) => d.eventId == EventIdFor(s.events, None)
  }

  ghost predicate AllSelfNumbered(m: Mission, s: MissionState, steps: seq<Step>) {
    forall i :: 0 <= i < |steps| ==> SelfNumbered(Run(m, s, steps[..i]), steps[i])
  }

  lemma NumberedAppend(events: seq<AuditEvent>, d: Draft)
    requires Numbered(events) && d.eventId == EventIdFor(events, None) && Appended(events, d).Ok?
    ensures Numbered(events + [Appended(events, d).value])
  {
    var next := events + [Appended(events, d).value];
    forall i | 0 <= i < |next| ensures next[i].eventId == EventIdFor(next[..i], None) {
      assert next[..i] == events[..i];
    }
  }

  lemma NumberedExec(m: Mission, s: MissionState, step: Step)
    requires Numbered(s.events) && SelfNumbered(s, step)
    ensures Numbered(Exec(m, s, step).events)
  {
    match step
    case Attempt(q, id, now) => if TryTransition(m.missionId, s, q, id, now).Ok? { NumberedStep(m, s, q, id, now); }
    case Release(actor, now) => NumberedRelease(m, s, ReadyIds(m.nodes, s.tasks), actor, now);
    case Foreign(d) => if Appended(s.events, d).Ok? { NumberedAppend(s.events, d); }
  }

  lemma {:induction false} NumberedRun(m: Mission, earlier: seq<AuditEvent>, steps: seq<Step>)
    requires Numbered(earlier) && AllSelfNumbered(m, Start(m, earlier), steps)
    ensures Numbered(Run(m, Start(m, earlier), steps).events)
  {
    var start := Start(m, earlier);
    if steps == [] {
    } else {
      var init := steps[..|steps| - 1];
      forall i | 0 <= i < |init| ensures SelfNumbered(Run(m, start, init[..i]), init[i]) {
        assert init[..i] == steps[..i];
        assert SelfNumbered(Run(m, start, steps[..i]), steps[i]);
      }
      NumberedRun(m, earlier, init);
      assert SelfNumbered(Run(m, start, steps[..|steps| - 1]), steps[|steps| - 1]);
      NumberedExec(m, Run(m, start, init), steps[|steps| - 1]);
    }
  }

  /**
   On a ledger shared by any number of missions, none of which is given event ids, no append is ever refused for a
   duplicate id.
   */
  lemma NumberedRunNeverDuplicates(m: Mission, earlier: seq<AuditEvent>, steps: seq<Step>,
                                   q: Request, now: int)
    requires Numbered(earlier) && AllSelfNumbered(m, Start(m, earlier), steps)
    ensures TryTransition(m.missionId, Run(m, Start(m, earlier), steps), q, None, now)
            != Err(AppendFailed(DuplicateEventId))
  {
    NumberedRun(m, earlier, steps);
    NumberedIdsAreFresh(Run(m, Start(m, earlier), steps).events);
  }
}
