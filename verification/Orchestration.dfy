/** Which tasks become stale when one task changes. */
module Orchestration {
  import opened Wrappers
  import opened Graphs
  import opened TaskGraph

  function NamedDependencies(nodes: seq<TaskNode>): set<string> {
    set n, d | n in nodes && d in n.dependencies :: d
  }

  /** The edges from a task to the tasks that name it as a dependency. */
  function Dependents(nodes: seq<TaskNode>): Graph {
    map d | d in NamedDependencies(nodes) :: set n | n in nodes && d in n.dependencies :: n.taskId
  }

  /** Some node with id t lists d. */
  ghost predicate DependsOn(nodes: seq<TaskNode>, t: string, d: string) {
    exists n :: n in nodes && n.taskId == t && d in n.dependencies
  }

  lemma DependentsEdge(nodes: seq<TaskNode>, d: string, t: string)
    ensures Edge(Dependents(nodes), d, t) <==> DependsOn(nodes, t, d)
  {
  }

  /** The children table of invalidate_downstream. */
  method BuildChildren(nodes: seq<TaskNode>) returns (children: Graph)
    ensures forall d, t :: Edge(children, d, t) <==> DependsOn(nodes, t, d)
  {
    children := map[];
    for i := 0 to |nodes|
      invariant forall d, t :: Edge(children, d, t) <==> DependsOn(nodes[..i], t, d)
    {
      ghost var before := children;
      var node := nodes[i];
      for j := 0 to |node.dependencies|
        invariant forall d, t :: Edge(children, d, t) <==>
                                 Edge(before, d, t) || (t == node.taskId && d in node.dependencies[..j])
      {
        var dep := node.dependencies[j];
        var known := if dep in children then children[dep] else {};
        children := children[dep := known + {node.taskId}];
        assert node.dependencies[..j + 1] == node.dependencies[..j] + [dep];
      }
      assert node.dependencies[..|node.dependencies|] == node.dependencies;
      assert nodes[..i + 1] == nodes[..i] + [node];
    }
    assert nodes[..|nodes|] == nodes;
  }

  /**
   invalidate_downstream: breadth-first closure of the changed task's dependents.
   It returns exactly the tasks that depend on it through one or more edges, whatever
   cycles or repeated ids the nodes contain.
   */
  method InvalidateDownstream(changed: string, nodes: seq<TaskNode>) returns (stale: set<string>)
    ensures forall t :: t in stale <==> Reaches(Dependents(nodes), changed, t)
  {
    ghost var g := Dependents(nodes);
    ghost var universe := SetOf(Ids(nodes));
    var children := BuildChildren(nodes);
    forall d, t ensures Edge(children, d, t) <==> Edge(g, d, t) { DependentsEdge(nodes, d, t); }
    EdgesInUniverse(nodes);
    stale := {};
    var queue := ChildrenOf(children, changed);
    Begin(g, universe, changed, queue);
    while queue != []
      invariant Progress(g, universe, changed, stale, queue)
      decreases universe - stale, |queue|
    {
      var task := queue[0];
      if task in stale {
        SkipStale(g, universe, changed, stale, queue);
        queue := queue[1..];
        continue;
      }
      var more := ChildrenOf(children, task);
      MarkStale(g, universe, changed, stale, queue, more);
      stale := stale + {task};
      queue := queue[1..] + more;
    }
    Exhausted(g, universe, changed, stale);
  }

  /** The dependents of a task, in some order. */
  method ChildrenOf(children: Graph, task: string) returns (more: seq<string>)
    ensures forall t :: t in more <==> Edge(children, task, t)
  {
    more := Enumerate(if task in children then children[task] else {});
  }

  /** What the search knows: it found reachable tasks only, and every edge from the changed or a stale task. */
  ghost predicate Progress(g: Graph, universe: set<string>, changed: string, stale: set<string>, queue: seq<string>) {
    && (forall t :: t in stale || t in queue ==> t in universe && Reaches(g, changed, t))
    && (forall t :: Edge(g, changed, t) ==> t in stale || t in queue)
    && (forall s, t :: s in stale && Edge(g, s, t) ==> t in stale || t in queue)
  }

  lemma Begin(g: Graph, universe: set<string>, changed: string, queue: seq<string>)
    requires forall d, t :: Edge(g, d, t) ==> t in universe
    requires forall t :: t in queue <==> Edge(g, changed, t)
    ensures Progress(g, universe, changed, {}, queue)
  {
    forall t | t in queue ensures Reaches(g, changed, t) { EdgeReaches(g, changed, t); }
  }

  lemma SkipStale(g: Graph, universe: set<string>, changed: string, stale: set<string>, queue: seq<string>)
    requires queue != [] && queue[0] in stale && Progress(g, universe, changed, stale, queue)
    ensures Progress(g, universe, changed, stale, queue[1..])
  {
    assert forall t :: t in queue <==> t == queue[0] || t in queue[1..];
  }

  lemma MarkStale(g: Graph, universe: set<string>, changed: string, stale: set<string>, queue: seq<string>,
                  more: seq<string>)
    requires queue != [] && Progress(g, universe, changed, stale, queue)
    requires forall d, t :: Edge(g, d, t) ==> t in universe
    requires forall t :: t in more <==> Edge(g, queue[0], t)
    ensures Progress(g, universe, changed, stale + {queue[0]}, queue[1..] + more)
    ensures queue[0] in universe
  {
    assert forall t :: t in queue <==> t == queue[0] || t in queue[1..];
    forall t | t in more ensures Reaches(g, changed, t) {
      EdgeReaches(g, queue[0], t);
      ReachesTransitive(g, changed, queue[0], t);
    }
  }

  lemma Exhausted(g: Graph, universe: set<string>, changed: string, stale: set<string>)
    requires Progress(g, universe, changed, stale, [])
    ensures forall t :: t in stale <==> Reaches(g, changed, t)
  {
    forall t | Reaches(g, changed, t) ensures t in stale {
      var s := FirstEdge(g, changed, t);
      if s != t { ClosedReaches(g, stale, s, t); }
    }
  }

  lemma EdgesInUniverse(nodes: seq<TaskNode>)
    ensures forall d, t :: Edge(Dependents(nodes), d, t) ==> t in SetOf(Ids(nodes))
  {
    forall d, t | Edge(Dependents(nodes), d, t) ensures t in SetOf(Ids(nodes)) {
      var n :| n in nodes && n.taskId == t;
      var i :| 0 <= i < |nodes| && nodes[i] == n;
      assert Ids(nodes)[i] == t;
    }
  }

  /**
   Seen from the dependency side: with distinct ids, the tasks a change invalidates are
   those with the changed task among their transitive dependencies.
   */
  lemma StaleAreTransitiveDependents(nodes: seq<TaskNode>, changed: string, t: string)
    requires Distinct(Ids(nodes))
    ensures Reaches(Dependents(nodes), changed, t) <==> Reaches(DependencyGraph(ById(nodes)), t, changed)
  {
    var g, h := Dependents(nodes), DependencyGraph(ById(nodes));
    forall d, u ensures Edge(g, d, u) <==> Edge(h, u, d) {
      DependentsEdge(nodes, d, u);
      if DependsOn(nodes, u, d) {
        var n :| n in nodes && n.taskId == u && d in n.dependencies;
        var i :| 0 <= i < |nodes| && nodes[i] == n;
        KeyedTotal(nodes, TaskIdOf, i);
      }
    }
    if Reaches(g, changed, t) { ReverseReaches(g, h, changed, t); }
    if Reaches(h, t, changed) { ReverseReaches(h, g, t, changed); }
  }

  /** A task left valid depends on no invalidated task, unless it is the changed task itself. */
  lemma ValidTasksHaveValidDependencies(nodes: seq<TaskNode>, changed: string, n: TaskNode, d: string)
    requires n in nodes && d in n.dependencies
    requires !Reaches(Dependents(nodes), changed, n.taskId)
    ensures d != changed && !Reaches(Dependents(nodes), changed, d)
  {
    var g := Dependents(nodes);
    DependentsEdge(nodes, d, n.taskId);
    EdgeReaches(g, d, n.taskId);
    if Reaches(g, changed, d) { ReachesTransitive(g, changed, d, n.taskId); }
  }
}
