/** Mission task graphs: structural validation and dependency readiness. */
module TaskGraph {
  import opened Wrappers
  import opened StringOrder
  import opened Graphs

  datatype TaskNode = TaskNode(taskId: string, dependencies: seq<string>, writeScopes: seq<string>)

  datatype GraphError =
    | DuplicateTaskId
    | MissingDependencies(taskId: string)
    | SelfDependency(taskId: string)
    | CycleDetected
    | StatesMismatch

  function TaskIdOf(n: TaskNode): string { n.taskId }

  function Ids(nodes: seq<TaskNode>): (ids: seq<string>)
    ensures |ids| == |nodes| && forall i :: 0 <= i < |nodes| ==> ids[i] == nodes[i].taskId
  {
    Mapped(nodes, TaskIdOf)
  }

  /** The dictionary of the nodes by id. */
  function ById(nodes: seq<TaskNode>): (m: map<string, TaskNode>)
    ensures m.Keys == SetOf(Ids(nodes))
    ensures forall t :: t in m ==> m[t] in nodes && m[t].taskId == t
  {
    KeyedBy(nodes, TaskIdOf)
  }

  function DependencyGraph(byId: map<string, TaskNode>): Graph {
    map t | t in byId :: SetOf(byId[t].dependencies)
  }

  ghost predicate DependenciesClosed(nodes: seq<TaskNode>) {
    forall i, d :: 0 <= i < |nodes| && d in nodes[i].dependencies ==> d in Ids(nodes)
  }

  /** What validate_graph promises to accept. */
  ghost predicate WellFormed(nodes: seq<TaskNode>) {
    && Distinct(Ids(nodes))
    && DependenciesClosed(nodes)
    && Acyclic(DependencyGraph(ById(nodes)))
  }

  method Visit(byId: map<string, TaskNode>, taskId: string, visiting: set<string>, visited: set<string>)
    returns (ok: bool, visiting': set<string>, visited': set<string>)
    requires forall t, d :: t in byId && d in byId[t].dependencies ==> d in byId
    requires taskId in byId && visiting !! visited
    requires OnPath(DependencyGraph(byId), visiting, taskId)
    requires Finished(DependencyGraph(byId), visited)
    ensures !ok ==> !Acyclic(DependencyGraph(byId))
    ensures ok ==> visiting' == visiting && visited + {taskId} <= visited' && visiting !! visited'
    ensures ok ==> Finished(DependencyGraph(byId), visited')
    decreases byId.Keys - visiting - visited
  {
    visiting', visited' := visiting, visited;
    if taskId in visited { return true, visiting', visited'; }
    ghost var g := DependencyGraph(byId);
    if taskId in visiting {
      return false, visiting', visited';
    }
    visiting' := visiting' + {taskId};
    var dependencies := byId[taskId].dependencies;
    for i := 0 to |dependencies|
      invariant visiting' == visiting + {taskId} && visited <= visited' && visiting' !! visited'
      invariant Finished(g, visited')
      invariant forall j :: 0 <= j < i ==> dependencies[j] in visited'
    {
      var d := dependencies[i];
      OnPathStep(g, visiting, taskId, d);
      assert taskId in byId.Keys - visiting - visited;
      ok, visiting', visited' := Visit(byId, d, visiting', visited');
      if !ok { return; }
    }
    FinishNode(g, visited', taskId);
    visiting', visited' := visiting' - {taskId}, visited' + {taskId};
    ok := true;
  }

  /** The first loop of validate_graph: no dependency is missing and none is the task itself. */
  method CheckDependencies(nodes: seq<TaskNode>, byId: map<string, TaskNode>) returns (r: Result<(), GraphError>)
    requires byId.Keys == SetOf(Ids(nodes))
    ensures r.Ok? <==> DependenciesClosed(nodes) && forall n :: n in nodes ==> n.taskId !in n.dependencies
    ensures r.Err? ==> r.error.MissingDependencies? || r.error.SelfDependency?
  {
    for i := 0 to |nodes|
      invariant forall j, d :: 0 <= j < i && d in nodes[j].dependencies ==> d in Ids(nodes)
      invariant forall j :: 0 <= j < i ==> nodes[j].taskId !in nodes[j].dependencies
    {
      var node := nodes[i];
      if d :| d in node.dependencies && d !in byId {
        assert d in nodes[i].dependencies && d !in Ids(nodes);
        return Err(MissingDependencies(node.taskId));
      }
      assert forall d :: d in node.dependencies ==> d in SetOf(Ids(nodes));
      if node.taskId in node.dependencies {
        assert node in nodes;
        return Err(SelfDependency(node.taskId));
      }
    }
    return Ok(());
  }

  /** The second loop of validate_graph: visit every task from clean search sets. */
  method SearchForCycle(byId: map<string, TaskNode>) returns (acyclic: bool)
    requires forall t, d :: t in byId && d in byId[t].dependencies ==> d in byId
    ensures acyclic <==> Acyclic(DependencyGraph(byId))
  {
    ghost var g := DependencyGraph(byId);
    var visiting, visited := {}, {};
    var todo := byId.Keys;
    while todo != {}
      invariant todo <= byId.Keys && byId.Keys - todo <= visited
      invariant visiting == {} && Finished(g, visited)
    {
      var t :| t in todo;
      todo := todo - {t};
      acyclic, visiting, visited := Visit(byId, t, visiting, visited);
      if !acyclic { return; }
    }
    AllFinishedAcyclic(g, visited);
    return true;
  }

  lemma SelfDependencyIsCycle(nodes: seq<TaskNode>, n: TaskNode)
    requires Distinct(Ids(nodes)) && n in nodes && n.taskId in n.dependencies
    ensures !Acyclic(DependencyGraph(ById(nodes)))
  {
    var i :| 0 <= i < |nodes| && nodes[i] == n;
    KeyedTotal(nodes, TaskIdOf, i);
    EdgeReaches(DependencyGraph(ById(nodes)), n.taskId, n.taskId);
  }

  /** validate_graph: accepts exactly the well-formed graphs, and says which check failed first. */
  method ValidateGraph(nodes: seq<TaskNode>) returns (r: Result<(), GraphError>)
    ensures r.Ok? <==> WellFormed(nodes)
    ensures r == Err(DuplicateTaskId) <==> !Distinct(Ids(nodes))
    ensures r == Err(CycleDetected) <==>
            && Distinct(Ids(nodes)) && DependenciesClosed(nodes)
            && (forall n :: n in nodes ==> n.taskId !in n.dependencies)
            && !Acyclic(DependencyGraph(ById(nodes)))
  {
    var byId := ById(nodes);
    DistinctByCount(Ids(nodes));
    assert |byId| == |byId.Keys|;
    if |byId| != |nodes| { return Err(DuplicateTaskId); }
    r := CheckDependencies(nodes, byId);
    if r.Err? {
      if n :| n in nodes && n.taskId in n.dependencies { SelfDependencyIsCycle(nodes, n); }
      return;
    }
    ClosedById(nodes);
    var acyclic := SearchForCycle(byId);
    return if acyclic then Ok(()) else Err(CycleDetected);
  }

  /** A BACKLOG task whose dependencies are all DONE. */
  predicate Ready(byId: map<string, TaskNode>, states: map<string, string>, t: string) {
    && t in byId && t in states && states[t] == "BACKLOG"
    && forall d :: d in byId[t].dependencies ==> d in states && states[d] == "DONE"
  }

  lemma ClosedById(nodes: seq<TaskNode>)
    requires DependenciesClosed(nodes)
    ensures forall u, d :: u in ById(nodes) && d in ById(nodes)[u].dependencies ==> d in ById(nodes)
  {
    forall u, d | u in ById(nodes) && d in ById(nodes)[u].dependencies ensures d in ById(nodes) {
      var i :| 0 <= i < |nodes| && nodes[i] == ById(nodes)[u];
    }
  }

  /** The loop of ready_tasks. */
  method CollectReady(nodes: seq<TaskNode>, byId: map<string, TaskNode>, states: map<string, string>)
    returns (ready: set<string>)
    requires forall n :: n in nodes ==> n.taskId in byId && byId[n.taskId] == n
    requires forall t :: t in byId ==> byId[t] in nodes && byId[t].taskId == t
    requires forall t, d :: t in byId && d in byId[t].dependencies ==> d in byId
    requires states.Keys == byId.Keys
    ensures forall t :: t in ready <==> Ready(byId, states, t)
  {
    ready := {};
    for i := 0 to |nodes|
      invariant forall t :: t in ready <==> t in Ids(nodes[..i]) && Ready(byId, states, t)
    {
      var node := nodes[i];
      assert Ids(nodes[..i + 1]) == Ids(nodes[..i]) + [node.taskId];
      ReadyNode(nodes, byId, states, node);
      if states[node.taskId] == "BACKLOG" && forall d :: d in node.dependencies ==> states[d] == "DONE" {
        ready := ready + {node.taskId};
      }
    }
    assert nodes[..|nodes|] == nodes;
    ReadyIsListed(nodes, byId, states);
  }

  lemma ReadyNode(nodes: seq<TaskNode>, byId: map<string, TaskNode>, states: map<string, string>, node: TaskNode)
    requires node.taskId in byId && byId[node.taskId] == node && states.Keys == byId.Keys
    requires forall t, d :: t in byId && d in byId[t].dependencies ==> d in byId
    ensures node.taskId in states && forall d :: d in node.dependencies ==> d in states
    ensures Ready(byId, states, node.taskId) <==>
            states[node.taskId] == "BACKLOG" && forall d :: d in node.dependencies ==> states[d] == "DONE"
  {
  }

  lemma ReadyIsListed(nodes: seq<TaskNode>, byId: map<string, TaskNode>, states: map<string, string>)
    requires forall t :: t in byId ==> byId[t] in nodes && byId[t].taskId == t
    ensures forall t :: Ready(byId, states, t) ==> t in Ids(nodes)
  {
    forall t | Ready(byId, states, t) ensures t in Ids(nodes) {
      var i :| 0 <= i < |nodes| && nodes[i] == byId[t];
      assert Ids(nodes)[i] == t;
    }
  }

  method ReadyTasks(nodes: seq<TaskNode>, states: map<string, string>) returns (r: Result<seq<string>, GraphError>)
    ensures r.Ok? <==> WellFormed(nodes) && states.Keys == SetOf(Ids(nodes))
    ensures r.Ok? ==> Ascending(r.value)
    ensures r.Ok? ==> forall t :: t in r.value <==> Ready(ById(nodes), states, t)
    ensures r.Ok? ==> forall n :: n in nodes ==>
                        (n.taskId in r.value <==>
                           states[n.taskId] == "BACKLOG" && forall d :: d in n.dependencies ==> states[d] == "DONE")
  {
    var valid := ValidateGraph(nodes);
    if valid.Err? { return Err(valid.error); }
    var byId := ById(nodes);
    if byId.Keys != states.Keys { return Err(StatesMismatch); }
    ClosedById(nodes);
    forall n | n in nodes ensures n.taskId in byId && byId[n.taskId] == n {
      var i :| 0 <= i < |nodes| && nodes[i] == n;
      KeyedTotal(nodes, TaskIdOf, i);
    }
    var ready := CollectReady(nodes, byId, states);
    forall n | n in nodes
      ensures n.taskId in ready <==>
              states[n.taskId] == "BACKLOG" && forall d :: d in n.dependencies ==> states[d] == "DONE"
    {
      ReadyNode(nodes, byId, states, n);
    }
    return Ok(Sorted(ready));
  }

  /**
   No dependency deadlock: while some task is in BACKLOG and every other task is DONE,
   some BACKLOG task is ready.
   */
  lemma NoReleaseDeadlock(nodes: seq<TaskNode>, states: map<string, string>, t: string)
    returns (ready: string)
    requires WellFormed(nodes) && states.Keys == SetOf(Ids(nodes))
    requires t in states && states[t] == "BACKLOG"
    requires forall u :: u in states ==> states[u] == "BACKLOG" || states[u] == "DONE"
    ensures Ready(ById(nodes), states, ready)
  {
    ClosedById(nodes);
    var backlog := set u | u in states && states[u] == "BACKLOG";
    ready := Minimal(DependencyGraph(ById(nodes)), backlog, t);
    var g := DependencyGraph(ById(nodes));
    forall d | d in ById(nodes)[ready].dependencies ensures states[d] == "DONE" {
      assert Edge(g, ready, d);
    }
  }
}
