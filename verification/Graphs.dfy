/**
 Directed graphs given as adjacency maps: walks, reachability, cycles.
 The planning code searches such graphs by depth-first, stack and queue traversals;
 the definitions here are the reference they are proved against.
 */
module Graphs {
  type Graph = map<string, set<string>>

  predicate Edge(g: Graph, a: string, b: string) {
    a in g && b in g[a]
  }

  /** p is a walk of at least one edge from a to b. */
  ghost predicate Walk(g: Graph, a: string, b: string, p: seq<string>) {
    && |p| >= 2 && p[0] == a && p[|p| - 1] == b
    && forall i :: 0 <= i < |p| - 1 ==> Edge(g, p[i], p[i + 1])
  }

  ghost predicate Reaches(g: Graph, a: string, b: string) {
    exists p :: Walk(g, a, b, p)
  }

  ghost predicate Acyclic(g: Graph) {
    forall n :: !Reaches(g, n, n)
  }

  /** Every edge out of the set stays in the set. */
  ghost predicate Closed(g: Graph, s: set<string>) {
    forall a, b :: a in s && Edge(g, a, b) ==> b in s
  }

  lemma EdgeReaches(g: Graph, a: string, b: string)
    requires Edge(g, a, b)
    ensures Reaches(g, a, b)
  {
    assert Walk(g, a, b, [a, b]);
  }

  lemma ReachesTransitive(g: Graph, a: string, b: string, c: string)
    requires Reaches(g, a, b) && Reaches(g, b, c)
    ensures Reaches(g, a, c)
  {
    var p :| Walk(g, a, b, p);
    var q :| Walk(g, b, c, q);
    var r := p + q[1..];
    forall i | 0 <= i < |r| - 1 ensures Edge(g, r[i], r[i + 1]) {
      if i >= |p| - 1 {
        assert r[i] == q[i - |p| + 1];
        assert r[i + 1] == q[i - |p| + 2];
      }
    }
    assert Walk(g, a, c, r);
  }

  /** The first edge of a walk. */
  lemma FirstEdge(g: Graph, a: string, c: string) returns (b: string)
    requires Reaches(g, a, c)
    ensures Edge(g, a, b) && (b == c || Reaches(g, b, c))
  {
    var p :| Walk(g, a, c, p);
    b := p[1];
    if |p| > 2 {
      assert Walk(g, b, c, p[1..]);
    }
  }

  /** What a closed set's members reach stays in the set. */
  lemma ClosedReaches(g: Graph, s: set<string>, a: string, b: string)
    requires Closed(g, s) && a in s && Reaches(g, a, b)
    ensures b in s
  {
    var p :| Walk(g, a, b, p);
    var i := 0;
    while i < |p| - 1
      invariant 0 <= i < |p| && p[i] in s
    {
      assert Edge(g, p[i], p[i + 1]);
      i := i + 1;
    }
  }

  /** The nodes of s that x reaches. */
  ghost function Below(g: Graph, s: set<string>, x: string): set<string> {
    set y | y in s && Reaches(g, x, y)
  }

  /** In an acyclic graph every non-empty set has a member with no edge into the set. */
  lemma {:induction false} Minimal(g: Graph, s: set<string>, x: string) returns (m: string)
    requires Acyclic(g) && x in s
    ensures m in s && forall y :: y in s ==> !Edge(g, m, y)
    decreases |Below(g, s, x)|
  {
    if y :| y in s && Edge(g, x, y) {
      EdgeReaches(g, x, y);
      forall z | z in Below(g, s, y) ensures z in Below(g, s, x) {
        ReachesTransitive(g, x, y, z);
      }
      assert y in Below(g, s, x) && y !in Below(g, s, y);
      Strict(Below(g, s, y), Below(g, s, x));
      m := Minimal(g, s, y);
    } else {
      m := x;
    }
  }

  lemma Strict(a: set<string>, b: set<string>)
    requires a < b
    ensures |a| < |b|
  {
    assert b == a + (b - a);
    assert |b| == |a| + |b - a|;
  }

  /** Renaming edges backwards turns every walk around. */
  lemma ReverseReaches(g: Graph, h: Graph, a: string, b: string)
    requires forall x, y :: Edge(g, x, y) ==> Edge(h, y, x)
    requires Reaches(g, a, b)
    ensures Reaches(h, b, a)
  {
    var p :| Walk(g, a, b, p);
    var r := seq(|p|, i requires 0 <= i < |p| => p[|p| - 1 - i]);
    forall i | 0 <= i < |r| - 1 ensures Edge(h, r[i], r[i + 1]) {
      var j := |p| - 2 - i;
      assert Edge(g, p[j], p[j + 1]);
    }
    assert Walk(h, b, a, r);
  }

  /** Iterating over a set puts its members in some order. */
  method Enumerate(s: set<string>) returns (xs: seq<string>)
    ensures forall x :: x in xs <==> x in s
  {
    xs := [];
    var todo := s;
    while todo != {}
      invariant todo <= s
      invariant forall x :: x in xs <==> x in s - todo
    {
      var x :| x in todo;
      todo := todo - {x};
      xs := xs + [x];
    }
  }

  // ------------------------------------------------------------------------
  // Depth-first search state: the part of the invariant both cycle checks share.

  /** Finished nodes are closed under edges inside the graph and lie on no cycle. */
  ghost predicate Finished(g: Graph, visited: set<string>) {
    && visited <= g.Keys
    && (forall a, b :: a in visited && Edge(g, a, b) && b in g ==> b in visited)
    && (forall a :: a in visited ==> !Reaches(g, a, a))
  }

  /** Nodes on the current search path all lead to the node being visited. */
  ghost predicate OnPath(g: Graph, visiting: set<string>, node: string) {
    visiting <= g.Keys && forall v :: v in visiting ==> Reaches(g, v, node)
  }

  /** Once every in-graph successor of node is finished, so is node. */
  lemma FinishNode(g: Graph, visited: set<string>, node: string)
    requires Finished(g, visited) && node in g && node !in visited
    requires forall d :: d in g[node] && d in g ==> d in visited
    ensures Finished(g, visited + {node})
  {
    if Reaches(g, node, node) {
      var d := FirstEdge(g, node, node);
      if d in g {
        FinishedReaches(g, visited, d, node);
      } else {
        assert d != node;
        var e := FirstEdge(g, d, node);
        assert false;
      }
    }
  }

  lemma FinishedReaches(g: Graph, visited: set<string>, a: string, b: string)
    requires Finished(g, visited) && a in visited && (a == b || Reaches(g, a, b)) && b in g
    ensures b in visited
  {
    if a != b {
      var outside := visited + (set k, y | k in g && y in g[k] && y !in g :: y);
      assert Closed(g, outside);
      ClosedReaches(g, outside, a, b);
    }
  }

  lemma OnPathStep(g: Graph, visiting: set<string>, node: string, d: string)
    requires OnPath(g, visiting, node) && Edge(g, node, d)
    ensures OnPath(g, visiting + {node}, d)
  {
    EdgeReaches(g, node, d);
    forall v | v in visiting ensures Reaches(g, v, d) {
      ReachesTransitive(g, v, node, d);
    }
  }

  /** When every key is finished there is no cycle at all. */
  lemma AllFinishedAcyclic(g: Graph, visited: set<string>)
    requires Finished(g, visited) && g.Keys <= visited
    ensures Acyclic(g)
  {
    forall n ensures !Reaches(g, n, n) {
      if Reaches(g, n, n) {
        var d := FirstEdge(g, n, n);
      }
    }
  }
}
