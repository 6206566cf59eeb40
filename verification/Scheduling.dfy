/** The order in which the engineering pod executes the packages of a plan. */
module Scheduling {
  import opened Wrappers
  import opened StringOrder
  import opened Graphs
  import opened WorkPackages

  /** The remaining packages whose dependencies are all completed. */
  function ReadyIds(remaining: Packages, completed: set<string>): set<string> {
    set id | id in remaining && SetOf(remaining[id].dependsOn) <= completed
  }

  /** Layer by layer, each layer sorted by package id; None is a deadlock. */
  function Schedule(remaining: Packages, completed: set<string>): Option<seq<WorkPackage>>
    decreases remaining.Keys
  {
    if remaining == map[] then Some([]) else
    var ready := ReadyIds(remaining, completed);
    if ready == {} then None else
    assert remaining.Keys - ready < remaining.Keys;
    match Schedule(remaining - ready, completed + ready)
    case None => None
    case Some(rest) => Some(Lookup(remaining, Sorted(ready)) + rest)
  }

  /** Every dependency of a package stands earlier in the order. */
  ghost predicate DependenciesEarlier(order: seq<WorkPackage>) {
    forall i, d :: 0 <= i < |order| && d in order[i].dependsOn ==> d in PackageIds(order[..i])
  }

  ghost predicate DependenciesKnown(m: Packages) {
    forall id, d :: id in m && d in m[id].dependsOn ==> d in m
  }

  /** The packages of m, each once, dependencies first. */
  ghost predicate TopologicalOrder(order: seq<WorkPackage>, m: Packages) {
    && Distinct(PackageIds(order))
    && (forall id :: id in m <==> id in PackageIds(order))
    && (forall p :: p in order ==> p.packageId in m && m[p.packageId] == p)
    && DependenciesEarlier(order)
  }

  /** What has been emitted when `completed` is done and `remaining` is left of m. */
  ghost predicate Emitted(emitted: seq<WorkPackage>, completed: set<string>, remaining: Packages, m: Packages) {
    && Distinct(PackageIds(emitted))
    && (forall id :: id in completed <==> id in PackageIds(emitted))
    && completed !! remaining.Keys && m.Keys == completed + remaining.Keys
    && (forall p :: p in emitted ==> p.packageId in m && m[p.packageId] == p)
    && (forall id :: id in remaining ==> m[id] == remaining[id] && m[id].packageId == id)
    && DependenciesEarlier(emitted)
  }

  lemma EmitOne(emitted: seq<WorkPackage>, completed: set<string>, remaining: Packages, m: Packages, id: string)
    requires Emitted(emitted, completed, remaining, m) && id in remaining
    requires SetOf(remaining[id].dependsOn) <= completed
    ensures Emitted(emitted + [remaining[id]], completed + {id}, remaining - {id}, m)
  {
    var p := remaining[id];
    var next := emitted + [p];
    assert PackageIds(next) == PackageIds(emitted) + [id];
    assert id !in PackageIds(emitted);
    DistinctAppend(PackageIds(emitted), id);
    forall i, d | 0 <= i < |next| && d in next[i].dependsOn ensures d in PackageIds(next[..i]) {
      if i < |emitted| {
        assert next[..i] == emitted[..i] && next[i] == emitted[i];
      } else {
        assert next[..i] == emitted && d in SetOf(p.dependsOn);
      }
    }
  }

  lemma Position(order: seq<WorkPackage>, m: Packages, id: string) returns (i: nat)
    requires TopologicalOrder(order, m) && id in m
    ensures i < |order| && order[i] == m[id] && order[i].packageId == id
    ensures forall d :: d in m[id].dependsOn ==> d in PackageIds(order[..i])
  {
    i :| 0 <= i < |order| && PackageIds(order)[i] == id;
    assert order[i] in order;
  }

  lemma Earlier(order: seq<WorkPackage>, i: nat, d: string) returns (k: nat)
    requires i <= |order| && d in PackageIds(order[..i])
    ensures k < i && order[k].packageId == d
  {
    k :| 0 <= k < i && PackageIds(order[..i])[k] == d;
  }

  /** The ids standing before position i are closed under dependencies. */
  lemma EarlierIsClosed(order: seq<WorkPackage>, m: Packages, i: nat)
    requires TopologicalOrder(order, m) && i <= |order|
    ensures Closed(GraphOf(m), SetOf(PackageIds(order[..i])))
  {
    forall a, b | a in SetOf(PackageIds(order[..i])) && Edge(GraphOf(m), a, b)
      ensures b in SetOf(PackageIds(order[..i]))
    {
      var k := Earlier(order, i, a);
      assert order[k] in order && order[k] == m[a];
      assert b in order[k].dependsOn;
      var j := Earlier(order, k, b);
      assert PackageIds(order[..i])[j] == b;
    }
  }

  /** A topological order leaves no room for a cycle or an unknown dependency. */
  lemma OrderedIsAcyclic(order: seq<WorkPackage>, m: Packages)
    requires TopologicalOrder(order, m)
    ensures DependenciesKnown(m) && Acyclic(GraphOf(m))
  {
    forall id, d | id in m && d in m[id].dependsOn ensures d in m {
      var i := Position(order, m, id);
      var k := Earlier(order, i, d);
      assert order[k] in order;
    }
    forall n ensures !Reaches(GraphOf(m), n, n) {
      if Reaches(GraphOf(m), n, n) {
        var d := FirstEdge(GraphOf(m), n, n);
        var i := Position(order, m, n);
        EarlierIsClosed(order, m, i);
        if d != n { ClosedReaches(GraphOf(m), SetOf(PackageIds(order[..i])), d, n); }
        var k := Earlier(order, i, n);
      }
    }
  }

  /** With known dependencies and no cycle, something is always ready. */
  lemma SomethingReady(completed: set<string>, remaining: Packages, m: Packages)
    requires m.Keys == completed + remaining.Keys && remaining != map[]
    requires forall id :: id in remaining ==> m[id] == remaining[id]
    requires DependenciesKnown(m) && Acyclic(GraphOf(m))
    ensures ReadyIds(remaining, completed) != {}
  {
    var x :| x in remaining.Keys;
    var least := Minimal(GraphOf(m), remaining.Keys, x);
    forall d | d in SetOf(remaining[least].dependsOn) ensures d in completed {
      assert d in m[least].dependsOn && Edge(GraphOf(m), least, d);
      assert d in m && d !in remaining.Keys;
    }
    assert least in ReadyIds(remaining, completed);
  }

  lemma {:induction false} EmitMany(ready: seq<string>, before: seq<WorkPackage>, done: set<string>, left: Packages,
                                    m: Packages)
    requires Emitted(before, done, left, m) && Distinct(ready)
    requires forall id :: id in ready ==> id in left
    requires forall id :: id in ready ==> SetOf(left[id].dependsOn) <= done
    ensures Emitted(before + Lookup(left, ready), done + SetOf(ready), left - SetOf(ready), m)
  {
    if ready == [] {
      assert before + Lookup(left, ready) == before;
      assert left - SetOf(ready) == left && done + SetOf(ready) == done;
    } else {
      var init, id := ready[..|ready| - 1], ready[|ready| - 1];
      assert ready == init + [id];
      DistinctAppend(init, id);
      EmitMany(init, before, done, left, m);
      OneMoreReady(before, done, left, init, id);
      EmitOne(before + Lookup(left, init), done + SetOf(init), left - SetOf(init), m, id);
    }
  }

  lemma OneMoreReady(before: seq<WorkPackage>, done: set<string>, left: Packages, init: seq<string>, id: string)
    requires (forall x :: x in init ==> x in left) && id in left && id !in init
    ensures done + SetOf(init + [id]) == done + SetOf(init) + {id}
    ensures left - SetOf(init + [id]) == left - SetOf(init) - {id}
    ensures id in left - SetOf(init) && (left - SetOf(init))[id] == left[id]
    ensures before + Lookup(left, init + [id]) == before + Lookup(left, init) + [left[id]]
  {
    assert SetOf(init + [id]) == SetOf(init) + {id};
    assert Lookup(left, init + [id]) == Lookup(left, init) + [left[id]];
  }

  lemma NextLayer(emitted: seq<WorkPackage>, completed: set<string>, remaining: Packages, m: Packages,
                  ready: seq<string>)
    requires Emitted(emitted, completed, remaining, m) && ready == Sorted(ReadyIds(remaining, completed))
    ensures Distinct(ready) && SetOf(ready) == ReadyIds(remaining, completed)
    ensures forall id :: id in ready ==> id in remaining && remaining[id].packageId == id
    ensures Emitted(emitted + Lookup(remaining, ready), completed + SetOf(ready), remaining - SetOf(ready), m)
  {
    AscendingIsDistinct(ready);
    EmitMany(ready, emitted, completed, remaining, m);
  }

  /** From any loop state, the schedule finishes a topological order, or there is a fault to blame. */
  lemma {:induction false} ScheduleFrom(emitted: seq<WorkPackage>, completed: set<string>, remaining: Packages,
                                        m: Packages)
    requires Emitted(emitted, completed, remaining, m)
    ensures match Schedule(remaining, completed)
            case None => !(DependenciesKnown(m) && Acyclic(GraphOf(m)))
            case Some(rest) => TopologicalOrder(emitted + rest, m)
    decreases remaining.Keys
  {
    var layer := ReadyIds(remaining, completed);
    if remaining == map[] {
      assert emitted + [] == emitted;
    } else if layer == {} {
      if DependenciesKnown(m) && Acyclic(GraphOf(m)) { SomethingReady(completed, remaining, m); }
    } else {
      var ready := Sorted(layer);
      NextLayer(emitted, completed, remaining, m, ready);
      assert remaining.Keys - layer < remaining.Keys;
      ScheduleFrom(emitted + Lookup(remaining, ready), completed + layer, remaining - layer, m);
      var rest := Schedule(remaining - layer, completed + layer);
      if rest.Some? { ConcatAssociative(emitted, Lookup(remaining, ready), rest.value); }
    }
  }

  /**
   Scheduling is exact: it succeeds when every dependency is known and there is no cycle, and only then;
   and each package then stands once, after all its dependencies.
   */
  lemma ScheduleExact(packages: seq<WorkPackage>)
    ensures var r := Schedule(PackageMap(packages), {});
            && (r.Some? <==> DependenciesKnown(PackageMap(packages)) && Acyclic(PlanGraph(packages)))
            && (r.Some? ==> TopologicalOrder(r.value, PackageMap(packages)))
  {
    var m := PackageMap(packages);
    ScheduleFrom([], {}, m, m);
    match Schedule(m, {})
    case None =>
    case Some(order) =>
      assert [] + order == order;
      OrderedIsAcyclic(order, m);
  }

  // ------------------------------------------------------------------------
  // The order, characterised without the loop

  /** The level of a package is the length of its longest chain of dependencies. */
  ghost predicate LevelAt(level: map<string, nat>, p: WorkPackage) {
    && p.packageId in level
    && (forall d :: d in p.dependsOn ==> d in level && level[d] < level[p.packageId])
    && (level[p.packageId] == 0 || exists d :: d in p.dependsOn && d in level && level[d] + 1 == level[p.packageId])
  }

  ghost predicate AllLevelled(level: map<string, nat>, m: Packages) {
    forall id {:trigger LevelAt(level, m[id])} :: id in m ==> LevelAt(level, m[id])
  }

  ghost predicate LevelsOf(level: map<string, nat>, m: Packages) {
    level.Keys == m.Keys && AllLevelled(level, m)
  }

  ghost predicate Precedes(level: map<string, nat>, a: string, b: string) {
    a in level && b in level && (level[a] < level[b] || (level[a] == level[b] && Less(a, b)))
  }

  /** Ascending by level, and by id within a level. */
  ghost predicate ByLevel(level: map<string, nat>, order: seq<WorkPackage>) {
    forall i, j :: 0 <= i < j < |order| ==> Precedes(level, order[i].packageId, order[j].packageId)
  }

  /** A remaining package waits for a dependency that is not completed, or was completed in the layer before k. */
  ghost predicate Waits(level: map<string, nat>, k: nat, p: WorkPackage) {
    exists d :: d in p.dependsOn && (d !in level || level[d] + 1 == k)
  }

  /** There is only one way to give levels. */
  lemma {:induction false} LevelsAgree(a: map<string, nat>, b: map<string, nat>, m: Packages, id: string)
    requires LevelsOf(a, m) && LevelsOf(b, m) && id in m
    requires forall d :: d in m ==> m[d].packageId == d
    ensures a[id] == b[id]
    decreases a[id]
  {
    assert LevelAt(a, m[id]) && LevelAt(b, m[id]);
    forall d | d in m[id].dependsOn ensures a[d] == b[d] { LevelsAgree(a, b, m, d); }
  }

  lemma LayerLevels(level: map<string, nat>, k: nat, remaining: Packages, ready: set<string>)
    returns (next: map<string, nat>)
    requires ready == ReadyIds(remaining, level.Keys) && level.Keys !! remaining.Keys
    requires forall id :: id in remaining ==> remaining[id].packageId == id
    requires forall id :: id in level ==> level[id] < k
    requires k > 0 ==> forall id :: id in remaining ==> Waits(level, k, remaining[id])
    ensures next.Keys == level.Keys + ready
    ensures forall id :: id in level ==> next[id] == level[id]
    ensures forall id :: id in ready ==> next[id] == k && LevelAt(next, remaining[id])
    ensures forall id :: id in remaining && id !in ready ==> Waits(next, k + 1, remaining[id])
  {
    next := level + map id | id in ready :: k;
    forall id | id in ready ensures LevelAt(next, remaining[id]) {
      assert forall d :: d in remaining[id].dependsOn ==> d in SetOf(remaining[id].dependsOn);
      if k > 0 { assert Waits(level, k, remaining[id]); }
    }
    forall id | id in remaining && id !in ready ensures Waits(next, k + 1, remaining[id]) {
      var d :| d in SetOf(remaining[id].dependsOn) && d !in level;
      assert d in remaining[id].dependsOn && (d !in next || next[d] + 1 == k + 1);
    }
  }

  lemma LevelStays(level: map<string, nat>, next: map<string, nat>, p: WorkPackage)
    requires LevelAt(level, p) && forall id :: id in level ==> id in next && next[id] == level[id]
    ensures LevelAt(next, p)
  {
    if level[p.packageId] != 0 {
      var d :| d in p.dependsOn && d in level && level[d] + 1 == level[p.packageId];
      assert d in next && next[d] + 1 == next[p.packageId];
    }
  }

  lemma LayerFirst(level: map<string, nat>, k: nat, ready: seq<string>, remaining: Packages, rest: seq<WorkPackage>)
    requires Ascending(ready) && forall id :: id in ready ==> id in remaining && remaining[id].packageId == id
    requires forall id :: id in ready ==> id in level && level[id] == k
    requires forall p :: p in rest ==> p.packageId in level && level[p.packageId] > k
    requires ByLevel(level, rest)
    ensures ByLevel(level, Lookup(remaining, ready) + rest)
  {
    var layer := Lookup(remaining, ready);
    var order := layer + rest;
    forall i, j | 0 <= i < j < |order| ensures Precedes(level, order[i].packageId, order[j].packageId) {
      if j < |layer| {
        assert order[i].packageId == ready[i] && order[j].packageId == ready[j];
      } else if i < |layer| {
        assert order[i].packageId == ready[i] && order[j] in rest;
      } else {
        assert order[i] == rest[i - |layer|] && order[j] == rest[j - |layer|];
      }
    }
  }

  /** What is scheduled is what remains. */
  lemma {:induction false} Scheduled(remaining: Packages, completed: set<string>)
    requires Schedule(remaining, completed).Some? && forall id :: id in remaining ==> remaining[id].packageId == id
    ensures forall p :: p in Schedule(remaining, completed).value ==> p.packageId in remaining
    decreases remaining.Keys
  {
    var ready := ReadyIds(remaining, completed);
    if remaining != map[] {
      assert remaining.Keys - ready < remaining.Keys;
      Scheduled(remaining - ready, completed + ready);
      var layer, rest := Lookup(remaining, Sorted(ready)), Schedule(remaining - ready, completed + ready).value;
      forall p: WorkPackage | p in layer + rest ensures p.packageId in remaining {
        if p !in rest {
          var i :| 0 <= i < |layer| && layer[i] == p;
          assert Sorted(ready)[i] in ready;
        }
      }
    }
  }

  /** The loop state in which k layers are done. */
  ghost predicate LayersDone(level: map<string, nat>, k: nat, remaining: Packages) {
    && level.Keys !! remaining.Keys
    && (forall id :: id in remaining ==> remaining[id].packageId == id)
    && (forall id :: id in level ==> level[id] < k)
    && (k > 0 ==> forall id :: id in remaining ==> Waits(level, k, remaining[id]))
  }

  /** Levels that extend the ones given so far to the remaining packages. */
  ghost predicate Extends(all: map<string, nat>, level: map<string, nat>, k: nat, remaining: Packages) {
    && all.Keys == level.Keys + remaining.Keys
    && (forall id :: id in level ==> all[id] == level[id])
    && (forall id :: id in remaining ==> all[id] >= k)
    && AllLevelled(all, remaining)
  }

  lemma NextLayerDone(level: map<string, nat>, next: map<string, nat>, k: nat, remaining: Packages, ready: set<string>)
    requires LayersDone(level, k, remaining) && ready <= remaining.Keys
    requires next.Keys == level.Keys + ready
    requires forall id :: id in level ==> next[id] == level[id]
    requires forall id :: id in ready ==> next[id] == k
    requires forall id :: id in remaining && id !in ready ==> Waits(next, k + 1, remaining[id])
    ensures LayersDone(next, k + 1, remaining - ready)
  {
  }

  lemma JoinLevels(all: map<string, nat>, next: map<string, nat>, remaining: Packages, ready: set<string>)
    requires ready <= remaining.Keys && ready <= next.Keys
    requires forall id {:trigger LevelAt(next, remaining[id])} :: id in ready ==> LevelAt(next, remaining[id])
    requires forall id :: id in next ==> id in all && all[id] == next[id]
    requires AllLevelled(all, remaining - ready)
    ensures AllLevelled(all, remaining)
  {
    forall id | id in remaining ensures LevelAt(all, remaining[id]) {
      if id in ready { LevelStays(next, all, remaining[id]); } else { assert LevelAt(all, (remaining - ready)[id]); }
    }
  }

  lemma JoinLayer(all: map<string, nat>, level: map<string, nat>, next: map<string, nat>, k: nat,
                  remaining: Packages, ready: set<string>)
    requires ready <= remaining.Keys && next.Keys == level.Keys + ready
    requires forall id :: id in level ==> next[id] == level[id]
    requires forall id :: id in ready ==> next[id] == k
    requires Extends(all, next, k + 1, remaining - ready) && AllLevelled(all, remaining)
    ensures Extends(all, level, k, remaining)
  {
  }

  lemma {:induction false} LayersFrom(remaining: Packages, level: map<string, nat>, k: nat)
    returns (all: map<string, nat>)
    requires LayersDone(level, k, remaining) && Schedule(remaining, level.Keys).Some?
    ensures Extends(all, level, k, remaining) && ByLevel(all, Schedule(remaining, level.Keys).value)
    decreases remaining.Keys
  {
    if remaining == map[] {
      all := level;
    } else {
      var ready := ReadyIds(remaining, level.Keys);
      var next := LayerLevels(level, k, remaining, ready);
      NextLayerDone(level, next, k, remaining, ready);
      assert remaining.Keys - ready < remaining.Keys;
      all := LayersFrom(remaining - ready, next, k + 1);
      JoinLevels(all, next, remaining, ready);
      JoinLayer(all, level, next, k, remaining, ready);
      Scheduled(remaining - ready, next.Keys);
      LayerFirst(all, k, Sorted(ready), remaining, Schedule(remaining - ready, next.Keys).value);
    }
  }

  /**
   The execution order, whatever the listing: packages ascend by the length of their longest dependency chain,
   and by id where that is equal.
   */
  lemma ScheduleByLevel(packages: seq<WorkPackage>) returns (level: map<string, nat>)
    requires Schedule(PackageMap(packages), {}).Some?
    ensures LevelsOf(level, PackageMap(packages))
    ensures ByLevel(level, Schedule(PackageMap(packages), {}).value)
  {
    var none: map<string, nat> := map[];
    assert none.Keys == {};
    level := LayersFrom(PackageMap(packages), none, 0);
  }

  /** The inner loop of _execution_order: emit one layer. */
  method EmitLayer(ready: seq<string>, before: seq<WorkPackage>, done: set<string>, left: Packages)
    returns (emitted: seq<WorkPackage>, completed: set<string>, remaining: Packages)
    requires Distinct(ready) && forall id :: id in ready ==> id in left && left[id].packageId == id
    ensures completed == done + SetOf(ready) && remaining == left - SetOf(ready)
    ensures emitted == before + Lookup(left, ready)
  {
    emitted, completed, remaining := before, done, left;
    for i := 0 to |ready|
      invariant completed == done + SetOf(ready[..i]) && remaining == left - SetOf(ready[..i])
      invariant emitted == before + Lookup(left, ready[..i])
    {
      var package := left[ready[i]];
      assert ready[..i + 1] == ready[..i] + [ready[i]];
      assert SetOf(ready[..i + 1]) == SetOf(ready[..i]) + {ready[i]};
      assert Lookup(left, ready[..i + 1]) == Lookup(left, ready[..i]) + [package];
      emitted := emitted + [package];
      completed := completed + {package.packageId};
      remaining := remaining - {package.packageId};
    }
    assert ready[..|ready|] == ready;
  }

  /** _execution_order: None is its deadlock error. */
  method ExecutionOrder(packages: seq<WorkPackage>) returns (r: Option<seq<WorkPackage>>)
    ensures r == Schedule(PackageMap(packages), {})
  {
    var remaining := PackageMap(packages);
    var emitted: seq<WorkPackage> := [];
    var completed: set<string> := {};
    assert forall rest: seq<WorkPackage> :: [] + rest == rest;
    while remaining != map[]
      invariant forall id :: id in remaining ==> remaining[id].packageId == id
      invariant Schedule(PackageMap(packages), {}) == Resume(emitted, remaining, completed)
      decreases remaining.Keys
    {
      var ready := Sorted(ReadyIds(remaining, completed));
      ReadyListed(remaining, completed);
      if ready == [] {
        StuckResumes(remaining, completed, emitted);
        return None;
      }
      LayerUnfolds(remaining, completed, emitted);
      emitted, completed, remaining := EmitLayer(ready, emitted, completed, remaining);
    }
    assert emitted + [] == emitted;
    return Some(emitted);
  }

  /** The outcome of going on from a loop state. */
  ghost function Resume(emitted: seq<WorkPackage>, remaining: Packages, completed: set<string>)
    : Option<seq<WorkPackage>>
  {
    match Schedule(remaining, completed)
    case None => None
    case Some(rest) => Some(emitted + rest)
  }

  /** The sorted ready layer lists exactly the ready packages, once each. */
  lemma ReadyListed(remaining: Packages, completed: set<string>)
    ensures var layer := ReadyIds(remaining, completed);
            && Distinct(Sorted(layer)) && SetOf(Sorted(layer)) == layer && (Sorted(layer) == [] <==> layer == {})
  {
    AscendingIsDistinct(Sorted(ReadyIds(remaining, completed)));
  }

  lemma StuckResumes(remaining: Packages, completed: set<string>, emitted: seq<WorkPackage>)
    requires remaining != map[] && ReadyIds(remaining, completed) == {}
    ensures Resume(emitted, remaining, completed) == None
  {
  }

  /** One layer more emitted, the same schedule overall. */
  lemma LayerUnfolds(remaining: Packages, completed: set<string>, emitted: seq<WorkPackage>)
    requires ReadyIds(remaining, completed) != {}
    ensures var ready := ReadyIds(remaining, completed);
            Resume(emitted, remaining, completed)
            == Resume(emitted + Lookup(remaining, Sorted(ready)), remaining - ready, completed + ready)
  {
    var ready := ReadyIds(remaining, completed);
    var x :| x in ready;
    assert x in remaining;
    var rest := Schedule(remaining - ready, completed + ready);
    if rest.Some? { ConcatAssociative(emitted, Lookup(remaining, Sorted(ready)), rest.value); }
  }

  /** Listing the same packages in another order gives the same execution order, or the same deadlock. */
  lemma ListingDoesNotMatter(ps: seq<WorkPackage>, qs: seq<WorkPackage>)
    requires Distinct(PackageIds(ps)) && Distinct(PackageIds(qs))
    requires forall p :: p in ps <==> p in qs
    ensures Schedule(PackageMap(ps), {}) == Schedule(PackageMap(qs), {})
  {
    SamePackages(ps, qs);
  }

  lemma SamePackages(ps: seq<WorkPackage>, qs: seq<WorkPackage>)
    requires Distinct(PackageIds(ps)) && Distinct(PackageIds(qs))
    requires forall p :: p in ps <==> p in qs
    ensures PackageMap(ps) == PackageMap(qs)
  {
    SameEntries(ps, qs);
    SameEntries(qs, ps);
  }

  lemma SameEntries(ps: seq<WorkPackage>, qs: seq<WorkPackage>)
    requires Distinct(PackageIds(qs)) && forall p :: p in ps ==> p in qs
    ensures forall id :: id in PackageMap(ps) ==> id in PackageMap(qs) && PackageMap(qs)[id] == PackageMap(ps)[id]
  {
    forall id | id in PackageMap(ps) ensures id in PackageMap(qs) && PackageMap(qs)[id] == PackageMap(ps)[id] {
      SameEntry(ps, qs, id);
    }
  }

  lemma SameEntry(ps: seq<WorkPackage>, qs: seq<WorkPackage>, id: string)
    requires Distinct(PackageIds(qs)) && (forall p :: p in ps ==> p in qs) && id in PackageMap(ps)
    ensures id in PackageMap(qs) && PackageMap(qs)[id] == PackageMap(ps)[id]
  {
    var p := PackageMap(ps)[id];
    var i :| 0 <= i < |qs| && qs[i] == p;
    KeyedTotal(qs, PackageIdOf, i);
  }
}
