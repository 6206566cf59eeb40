/** Durable missions: creating a runner, and restoring it from the audit log. */
module MissionStore {
  import opened Wrappers
  import opened StringOrder
  import opened TaskGraph
  import opened Ledger
  import opened Runner
  import opened MissionRuns

  datatype StoreError =
    | MissionOrTasksMissing
    | MissionExists
    | UnknownMission
    | RunnerFailed(error: RunnerError)

  /** The rows of mission_tasks in task id order. */
  function LoadedNodes(nodes: seq<TaskNode>): seq<TaskNode> {
    Lookup(ById(nodes), Sorted(ById(nodes).Keys))
  }

  lemma LoadedIds(nodes: seq<TaskNode>)
    ensures Ids(LoadedNodes(nodes)) == Sorted(ById(nodes).Keys)
    ensures Distinct(Ids(LoadedNodes(nodes))) && SetOf(Ids(LoadedNodes(nodes))) == SetOf(Ids(nodes))
  {
    var ids := Sorted(ById(nodes).Keys);
    forall i | 0 <= i < |ids| ensures Ids(LoadedNodes(nodes))[i] == ids[i] { assert ids[i] in ids; }
    AscendingIsDistinct(ids);
  }

  lemma DictionaryOf(m: map<string, TaskNode>, ids: seq<string>)
    requires Distinct(ids) && SetOf(ids) == m.Keys && forall id :: id in m ==> m[id].taskId == id
    requires forall id :: id in ids ==> id in m
    ensures ById(Lookup(m, ids)) == m
  {
    var nodes := Lookup(m, ids);
    forall i | 0 <= i < |ids| ensures Ids(nodes)[i] == ids[i] { assert ids[i] in ids; }
    assert Ids(nodes) == ids;
    forall t | t in m ensures ById(nodes)[t] == m[t] {
      assert t in SetOf(ids);
      var i :| 0 <= i < |ids| && ids[i] == t;
      KeyedTotal(nodes, TaskIdOf, i);
    }
  }

  lemma LoadedDictionary(nodes: seq<TaskNode>)
    ensures ById(LoadedNodes(nodes)) == ById(nodes)
  {
    var ids := Sorted(ById(nodes).Keys);
    AscendingIsDistinct(ids);
    assert SetOf(ids) == ById(nodes).Keys;
    DictionaryOf(ById(nodes), ids);
  }

  lemma LoadedWellFormed(nodes: seq<TaskNode>)
    requires WellFormed(nodes)
    ensures WellFormed(LoadedNodes(nodes))
  {
    LoadedIds(nodes);
    LoadedDictionary(nodes);
    ClosedById(nodes);
    var loaded, ids := LoadedNodes(nodes), Sorted(ById(nodes).Keys);
    forall i, d | 0 <= i < |loaded| && d in loaded[i].dependencies ensures d in Ids(loaded) {
      assert ids[i] in ids;
    }
  }

  /** The loaded rows are accepted by the runner again. */
  lemma CanRecreate(missionId: string, nodes: seq<TaskNode>)
    requires missionId != "" && nodes != [] && WellFormed(nodes)
    ensures var loaded := LoadedNodes(nodes);
            && Creatable(missionId, Ids(loaded), loaded) && NodesFor(Ids(loaded), loaded) == loaded
            && SetOf(Ids(loaded)) == SetOf(Ids(nodes)) && ById(loaded) == ById(nodes)
  {
    LoadedIds(nodes);
    LoadedDictionary(nodes);
    LoadedWellFormed(nodes);
    assert Ids(nodes)[0] in SetOf(Ids(nodes));
  }

  class SQLiteMissionStore {
    var missions: map<string, seq<TaskNode>>
    const ledger: AuditLedger

    constructor (ledger: AuditLedger)
      ensures missions == map[] && this.ledger == ledger
    {
      missions := map[];
      this.ledger := ledger;
    }

    ghost predicate Valid()
      reads this
    {
      forall id :: id in missions ==> id != "" && missions[id] != [] && WellFormed(missions[id])
    }

    /** create_runner: a rejected mission leaves the table as it was. */
    method CreateRunner(missionId: string, nodes: seq<TaskNode>) returns (r: Result<MissionRunner, StoreError>)
      requires Valid()
      modifies this`missions
      ensures Valid()
      ensures r.Ok? <==> WellFormed(nodes) && missionId != "" && nodes != [] && missionId !in old(missions)
      ensures r == Err(MissionOrTasksMissing) <==> WellFormed(nodes) && (missionId == "" || nodes == [])
      ensures r == Err(MissionExists) <==>
              WellFormed(nodes) && missionId != "" && nodes != [] && missionId in old(missions)
      ensures missions == if r.Ok? then old(missions)[missionId := nodes] else old(missions)
      ensures r.Ok? ==> && fresh(r.value) && r.value.Valid() && r.value.ledger == ledger
                        && r.value.missionId == missionId && r.value.nodes == nodes
                        && r.value.State() == Start(Mission(missionId, nodes), ledger.events)
    {
      var valid := ValidateGraph(nodes);
      if valid.Err? { return Err(RunnerFailed(InvalidGraph(valid.error))); }
      if missionId == "" || nodes == [] { return Err(MissionOrTasksMissing); }
      if missionId in missions { return Err(MissionExists); }
      missions := missions[missionId := nodes];
      var runner := new MissionRunner(missionId, nodes, ledger);
      return Ok(runner);
    }

    /** Replay on the loaded rows, then rebind the replayed runner to the durable chain. */
    static method Rebind(missionId: string, nodes: seq<TaskNode>, ledger: AuditLedger, now: int)
      returns (r: Result<MissionRunner, RunnerError>)
      requires Creatable(missionId, Ids(nodes), nodes) && NodesFor(Ids(nodes), nodes) == nodes
      ensures var replayed := ReplayEvents(missionId, SetOf(Ids(nodes)), MissionEvents(ledger.events, missionId), now);
              && (r.Ok? <==> Chained(ledger.events) && replayed.Ok?)
              && (r.Ok? ==> r.value.tasks == replayed.value.tasks)
      ensures r.Ok? ==> && fresh(r.value) && r.value.Valid() && r.value.ledger == ledger
                        && r.value.missionId == missionId && r.value.nodes == nodes
    {
      r := MissionRunner.Replay(missionId, Ids(nodes), ledger.events, nodes, now);
      if r.Ok? { r.value.ledger := ledger; }
    }

    /** restore_runner */
    method RestoreRunner(missionId: string, now: int) returns (r: Result<MissionRunner, StoreError>)
      requires Valid()
      ensures missionId !in missions <==> r == Err(UnknownMission)
      ensures missionId in missions ==>
                var replayed := ReplayEvents(missionId, SetOf(Ids(missions[missionId])),
                                             MissionEvents(ledger.events, missionId), now);
                && (r.Ok? <==> Chained(ledger.events) && replayed.Ok?)
                && (r.Ok? ==> r.value.tasks == replayed.value.tasks)
      ensures r.Ok? ==> && fresh(r.value) && r.value.Valid() && r.value.ledger == ledger
                        && r.value.missionId == missionId && ById(r.value.nodes) == ById(missions[missionId])
    {
      if missionId !in missions { return Err(UnknownMission); }
      var nodes := LoadedNodes(missions[missionId]);
      CanRecreate(missionId, missions[missionId]);
      var restored := Rebind(missionId, nodes, ledger, now);
      return if restored.Ok? then Ok(restored.value) else Err(RunnerFailed(restored.error));
    }
  }

  /**
   A mission created in the store can always be restored, whatever its one live runner and other users of the ledger
   did since, and the restored runner carries on exactly as the original would have.
   */
  lemma RestoreAfterAnyRun(missionId: string, nodes: seq<TaskNode>, earlier: seq<AuditEvent>, steps: seq<Step>,
                           more: seq<Step>, now: int)
    requires WellFormed(nodes) && FreshFor(earlier, missionId)
    ensures var m, restored := Mission(missionId, nodes), Mission(missionId, LoadedNodes(nodes));
            var live := Run(m, Start(m, earlier), steps);
            var replayed := ReplayEvents(missionId, TaskIds(restored), MissionEvents(live.events, missionId), now);
            && Chained(live.events) && replayed.Ok? && replayed.value.tasks == live.tasks
            && Run(restored, MissionState(replayed.value.tasks, live.events), more)
                == Run(m, Start(m, earlier), steps + more)
  {
    var m, restored := Mission(missionId, nodes), Mission(missionId, LoadedNodes(nodes));
    LoadedDictionary(nodes);
    RestoredRunsOn(m, restored, earlier, steps, more, now);
    ReplayRefinesRun(m, earlier, steps, now);
  }
}
