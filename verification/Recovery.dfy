/** Mission recovery: next actions rebuilt from durable operation state alone. */
module Recovery {
  import opened Wrappers
  import opened Text
  import opened ReliabilityContracts
  import opened ReliabilityRuns
  import opened ReliabilityController

  datatype RecoveryAction = ReadyAction | Decided(action: Action)

  datatype RecoveryReason = NotStarted | AlreadyCompleted | Because(reason: Reason)

  datatype RecoveryItem = RecoveryItem(operationId: string, action: RecoveryAction, reason: RecoveryReason)

  datatype RecoveryReport = RecoveryReport(missionId: string, items: seq<RecoveryItem>, safeToContinue: bool)

  datatype RecoveryError = NoOperationIds | UnknownOperationId | DifferentMission | DuplicateOperationIds

  predicate Halts(item: RecoveryItem) {
    item.action == Decided(Reconcile) || item.action == Decided(Stop)
  }

  /** The item an operation's state calls for. */
  ghost predicate ItemFor(s: OpState, item: RecoveryItem) {
    && item.operationId == s.spec.operationId
    && match s.status
       case Ready => item.action == ReadyAction && item.reason == NotStarted
       case Completed => item.action == Decided(Complete) && item.reason == AlreadyCompleted
       case _ => LatestDecision(s.journal).Some?
                 && item.action == Decided(LatestDecision(s.journal).value.action)
                 && item.reason == Because(LatestDecision(s.journal).value.reason)
                 && StatusFor(LatestDecision(s.journal).value) == s.status
  }

  method ItemOf(store: SQLiteReliabilityStore, id: string) returns (item: RecoveryItem)
    requires store.Valid() && id in store.operations
    ensures ItemFor(store.Op(id), item)
    ensures Halts(item) <==> store.operations[id].status.ReconcileRequired? || store.operations[id].status.Stopped?
  {
    assert SoundAt(store.Snapshot(), id);
    var status := store.operations[id].status;
    match status
    case Ready => return RecoveryItem(id, ReadyAction, NotStarted);
    case Completed => return RecoveryItem(id, Decided(Complete), AlreadyCompleted);
    case Stopped =>
      var d := store.FindLatestDecision(id);
      return RecoveryItem(id, Decided(Stop), Because(d.value.reason));
    case _ =>
      var d := store.FindLatestDecision(id);
      return RecoveryItem(id, Decided(d.value.action), Because(d.value.reason));
  }

  function ItemId(item: RecoveryItem): string { item.operationId }

  function ItemIds(items: seq<RecoveryItem>): seq<string> {
    Mapped(items, ItemId)
  }

  /** MissionRecoveryReport.validate */
  predicate ReportValid(r: RecoveryReport) {
    && !IsBlank(r.missionId) && r.items != [] && Distinct(ItemIds(r.items))
    && (forall item :: item in r.items ==> !IsBlank(item.operationId))
    && (r.safeToContinue <==> forall item :: item in r.items ==> !Halts(item))
  }

  /**
   recover: the mission may go on if and only if none of the listed operations waits for reconciliation
   or has stopped.
   */
  method Recover(store: SQLiteReliabilityStore, missionId: string, ids: seq<string>)
    returns (r: Result<RecoveryReport, RecoveryError>)
    requires store.Valid()
    ensures r.Ok? <==> ids != [] && Distinct(ids)
                       && forall id :: id in ids ==>
                                         id in store.operations && store.operations[id].spec.missionId == missionId
    ensures r == Err(NoOperationIds) <==> ids == []
    ensures r == Err(UnknownOperationId) ==> exists id :: id in ids && id !in store.operations
    ensures r == Err(DifferentMission) ==>
              exists id :: id in ids && id in store.operations && store.operations[id].spec.missionId != missionId
    ensures r == Err(DuplicateOperationIds) ==> !Distinct(ids)
    ensures r.Ok? ==> && r.value.missionId == missionId && |r.value.items| == |ids|
                      && (forall i :: 0 <= i < |ids| ==> ItemFor(store.Op(ids[i]), r.value.items[i]))
                      && (r.value.safeToContinue <==>
                            forall id :: id in ids ==> !store.operations[id].status.ReconcileRequired?
                                                       && !store.operations[id].status.Stopped?)
  {
    if ids == [] { return Err(NoOperationIds); }
    var items: seq<RecoveryItem> := [];
    for i := 0 to |ids|
      invariant |items| == i
      invariant forall k :: 0 <= k < i ==> ids[k] in store.operations && Reported(store, missionId, ids[k], items[k])
    {
      if ids[i] !in store.operations { return Err(UnknownOperationId); }
      if store.operations[ids[i]].spec.missionId != missionId { return Err(DifferentMission); }
      var item := ItemOf(store, ids[i]);
      items := items + [item];
    }
    var report := RecoveryReport(missionId, items, forall item :: item in items ==> !Halts(item));
    ReportsIds(store, missionId, ids, items);
    assert items[0] in items;
    if !ReportValid(report) { return Err(DuplicateOperationIds); }
    return Ok(report);
  }

  /** The item is the report on this operation of the mission. */
  ghost predicate Reported(store: SQLiteReliabilityStore, missionId: string, id: string, item: RecoveryItem)
    requires store.Valid() && id in store.operations
    reads store
  {
    && store.operations[id].spec.missionId == missionId && ItemFor(store.Op(id), item)
    && (Halts(item) <==> store.operations[id].status.ReconcileRequired? || store.operations[id].status.Stopped?)
  }

  lemma ReportsIds(store: SQLiteReliabilityStore, missionId: string, ids: seq<string>, items: seq<RecoveryItem>)
    requires store.Valid() && |items| == |ids|
    requires forall k :: 0 <= k < |ids| ==> ids[k] in store.operations && Reported(store, missionId, ids[k], items[k])
    ensures ItemIds(items) == ids
    ensures forall item :: item in items ==> !IsBlank(item.operationId) && !IsBlank(missionId)
  {
    forall k | 0 <= k < |ids|
      ensures items[k].operationId == ids[k] && !IsBlank(ids[k]) && !IsBlank(missionId)
    {
      assert SoundAt(store.Snapshot(), ids[k]) && ItemFor(store.Op(ids[k]), items[k]);
    }
  }
}
