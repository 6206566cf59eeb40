/** The two graph searches of the engineering plan validator. */
module PlanSearches {
  import opened Graphs

  method Visit(g: Graph, node: string, visiting: set<string>, visited: set<string>)
    returns (cyclic: bool, visiting': set<string>, visited': set<string>)
    requires node in g && visiting !! visited
    requires OnPath(g, visiting, node) && Finished(g, visited)
    ensures cyclic ==> !Acyclic(g)
    ensures !cyclic ==> visiting' == visiting && visited + {node} <= visited' && visiting !! visited'
    ensures !cyclic ==> Finished(g, visited')
    decreases g.Keys - visiting - visited
  {
    visiting', visited' := visiting, visited;
    if node in visiting { return true, visiting', visited'; }
    if node in visited { return false, visiting', visited'; }
    visiting' := visiting' + {node};
    var todo := g[node];
    while todo != {}
      invariant todo <= g[node] && visiting' == visiting + {node}
      invariant visited <= visited' && visiting' !! visited' && Finished(g, visited')
      invariant forall d :: d in g[node] - todo && d in g ==> d in visited'
    {
      var d :| d in todo;
      todo := todo - {d};
      if d in g {
        OnPathStep(g, visiting, node, d);
        assert node in g.Keys - visiting - visited;
        cyclic, visiting', visited' := Visit(g, d, visiting', visited');
        if cyclic { return; }
      }
    }
    FinishNode(g, visited', node);
    visiting', visited' := visiting' - {node}, visited' + {node};
    cyclic := false;
  }

  /** _has_cycle: true exactly when some node reaches itself. */
  method HasCycle(g: Graph) returns (cyclic: bool)
    ensures cyclic <==> !Acyclic(g)
  {
    var visiting, visited := {}, {};
    var todo := g.Keys;
    while todo != {}
      invariant todo <= g.Keys && g.Keys - todo <= visited
      invariant visiting == {} && Finished(g, visited)
    {
      var node :| node in todo;
      todo := todo - {node};
      cyclic, visiting, visited := Visit(g, node, visiting, visited);
      if cyclic { return; }
    }
    AllFinishedAcyclic(g, visited);
    return false;
  }

  /** Every node with an incoming edge. */
  ghost function Targets(g: Graph): set<string> {
    set a, b | a in g && b in g[a] :: b
  }

  /** _ordered: `before` is a transitive dependency of `after`. Terminates on cyclic graphs too. */
  method Ordered(before: string, after: string, g: Graph) returns (r: bool)
    ensures r <==> Reaches(g, after, before)
  {
    ghost var universe := Targets(g);
    var stack := Enumerate(if after in g then g[after] else {});
    forall t | t in stack ensures Reaches(g, after, t) && t in universe { EdgeReaches(g, after, t); }
    var seen: set<string> := {};
    while stack != []
      invariant seen <= universe && forall t :: t in stack ==> t in universe
      invariant forall t :: t in seen || t in stack ==> Reaches(g, after, t)
      invariant forall t :: Edge(g, after, t) ==> t in seen || t in stack
      invariant forall s, t :: s in seen && Edge(g, s, t) ==> t in seen || t in stack
      invariant before !in seen
      decreases universe - seen, |stack|
    {
      var current := stack[|stack| - 1];
      ghost var popped := stack;
      stack := stack[..|stack| - 1];
      assert popped == stack + [current];
      if current == before { return true; }
      if current in seen { continue; }
      seen := seen + {current};
      var more := Enumerate(if current in g then g[current] else {});
      forall t | t in more ensures Reaches(g, after, t) && t in universe {
        EdgeReaches(g, current, t);
        ReachesTransitive(g, after, current, t);
      }
      stack := stack + more;
    }
    if Reaches(g, after, before) {
      var s := FirstEdge(g, after, before);
      if s != before { ClosedReaches(g, seen, s, before); }
    }
    return false;
  }
}
