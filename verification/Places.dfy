/**
 What write scopes mean on a file system, where empty and `.` segments lead nowhere: when two scope lists cover one
 place, and what that says about packages of an accepted plan.
 */
module Places {
  import opened Wrappers
  import opened Text
  import opened Graphs
  import opened Scopes
  import opened WorkPackages
  import opened PlanValidator

  /** A segment that does not lead anywhere. */
  predicate IsIdle(segment: string) { segment == "" || segment == "." }

  function Moving(segs: seq<string>): seq<string> {
    if segs == [] then [] else (if IsIdle(segs[0]) then [] else [segs[0]]) + Moving(segs[1..])
  }

  /** The place a normalised path names. */
  function Place(v: string): seq<string> {
    Moving(Segments(v))
  }

  /** No segment is empty or `.`. */
  predicate Plain(v: string) {
    forall s :: s in Segments(v) ==> !IsIdle(s)
  }

  // ------------------------------------------------------------------------
  // Places of longer paths

  lemma {:induction false} MovingIsAll(segs: seq<string>)
    ensures (forall s :: s in segs ==> !IsIdle(s)) ==> Moving(segs) == segs
    ensures forall s :: s in Moving(segs) ==> s in segs && !IsIdle(s)
  {
    if segs == [] {
    } else {
      MovingIsAll(segs[1..]);
      assert segs == [segs[0]] + segs[1..];
    }
  }

  lemma {:induction false} MovingConcat(a: seq<string>, b: seq<string>)
    ensures Moving(a + b) == Moving(a) + Moving(b)
  {
    if a == [] {
      assert a + b == b;
    } else {
      MovingConcat(a[1..], b);
      assert (a + b)[1..] == a[1..] + b && (a + b)[0] == a[0];
    }
  }

  /** What is inside a scope is inside its place. */
  lemma InsideIsInPlace(inner: string, outer: string)
    requires StartsInside(inner, outer)
    ensures Place(outer) <= Place(inner)
  {
    InsideIsSegmentPrefix(inner, outer);
    var rest := Segments(inner)[|Segments(outer)|..];
    assert Segments(inner) == Segments(outer) + rest;
    MovingConcat(Segments(outer), rest);
  }

  /** A plain path spells out its place. */
  lemma PlainSpellsItsPlace(v: string)
    ensures Plain(v) <==> Place(v) == Segments(v)
  {
    MovingIsAll(Segments(v));
  }

  lemma {:induction false} SegmentsHaveNoSlash(v: string)
    ensures forall s :: s in Segments(v) ==> '/' !in s && forall c :: c in s ==> c in v
  {
    if v == "" {
    } else {
      SegmentsHaveNoSlash(v[1..]);
      assert v == [v[0]] + v[1..];
      var rest := Segments(v[1..]);
      forall s | s in Segments(v) ensures '/' !in s && forall c :: c in s ==> c in v {
        assert v[0] == '/' ==> s == "" || s in rest;
        assert v[0] != '/' ==> s == [v[0]] + rest[0] || s in rest;
        assert rest[0] in rest;
      }
    }
  }

  lemma {:induction false} SegmentsOfJoin(segs: seq<string>)
    requires segs != [] && forall s :: s in segs ==> '/' !in s
    ensures Segments(Join(segs)) == segs
  {
    SingleSegment(segs[0]);
    if |segs| == 1 {
      assert segs == [segs[0]];
    } else {
      SegmentsOfJoin(segs[1..]);
      SegmentsConcat(segs[0], Join(segs[1..]));
      assert segs == [segs[0]] + segs[1..];
    }
  }

  // ------------------------------------------------------------------------
  // A path from a scope to a place below it

  /** The segments as a path below v, between slashes that normalising strips again. */
  function Below(v: string, segs: seq<string>): string
    requires segs != []
  {
    v + "/" + Join(segs)
  }

  /** A text between two slashes is trimmed to itself, spaces included. */
  lemma SlashesGuard(v: string)
    requires v != "" && '\\' !in v && v[0] != '/' && v[|v| - 1] != '/'
    ensures Trimmed("/" + v + "/") == v
  {
    var w := "/" + v + "/";
    var slash := (c: char) => c == '/';
    assert !IsSpace('/');
    assert StripLeft(w, IsSpace) == w && StripRight(w, IsSpace) == w;
    assert ForwardSlashes(w) == w;
    assert w[1..] == v + "/" && (v + "/")[..|v|] == v;
    assert StripLeft(w, slash) == StripLeft(v + "/", slash) == v + "/";
    assert StripRight(v + "/", slash) == StripRight(v, slash) == v;
  }

  lemma {:induction false} JoinChars(segs: seq<string>)
    requires segs != [] && forall s :: s in segs ==> s != "" && '/' !in s && '\\' !in s
    ensures Join(segs) != "" && '\\' !in Join(segs) && Join(segs)[|Join(segs)| - 1] != '/'
  {
    assert segs[0] in segs;
    if |segs| == 1 {
    } else {
      assert forall s :: s in segs[1..] ==> s in segs;
      JoinChars(segs[1..]);
    }
  }

  lemma SegmentsBelow(v: string, segs: seq<string>)
    requires segs != [] && forall s :: s in segs ==> '/' !in s
    ensures Segments(Below(v, segs)) == Segments(v) + segs
  {
    SegmentsConcat(v, Join(segs));
    SegmentsOfJoin(segs);
  }

  /** The path below a normal form is itself a normal form, of a text between slashes. */
  lemma BelowNormalises(scope: string, segs: seq<string>)
    requires NormalizeScope(scope).Some? && segs != []
    requires forall s :: s in segs ==> s != "" && s != ".." && '/' !in s && '\\' !in s
    ensures NormalizeScope("/" + Below(NormalizeScope(scope).value, segs) + "/")
            == Some(Below(NormalizeScope(scope).value, segs))
  {
    var v := NormalizeScope(scope).value;
    NormalizeExact(scope);
    var w := Below(v, segs);
    JoinChars(segs);
    assert w[0] == v[0] && w[|w| - 1] == Join(segs)[|Join(segs)| - 1];
    SlashesGuard(w);
    SegmentsBelow(v, segs);
    assert v + "/" <= w;
    NoDotsInFront(v, w);
    NormalizeExact("/" + w + "/");
  }

  lemma NoDotsInFront(v: string, w: string)
    requires v != "" && v + "/" <= w && !(".." <= v)
    ensures !(".." <= w)
  {
    assert |v| >= 2 ==> w[1] == v[1];
    assert |v| == 1 ==> w[1] == '/';
  }

  // ------------------------------------------------------------------------
  // When two scope lists cover one place

  /** Some path inside a scope of each names the same place. */
  ghost predicate ShareAPlace(left: seq<string>, right: seq<string>) {
    exists p, q :: SamePlace(p, q) && CoveredBy(p, left) && CoveredBy(q, right)
  }

  predicate SamePlace(p: string, q: string) {
    match (NormalizeScope(p), NormalizeScope(q))
    case (Some(v), Some(w)) => Place(v) == Place(w)
    case _ => false
  }

  /** Of the places of two scopes, one is inside the other: a test on the scopes alone. */
  predicate Nested(left: string, right: string) {
    match (NormalizeScope(left), NormalizeScope(right))
    case (Some(s), Some(t)) => Place(s) <= Place(t) || Place(t) <= Place(s)
    case _ => false
  }

  ghost predicate PlacesMeet(left: seq<string>, right: seq<string>) {
    exists i, j :: 0 <= i < |left| && 0 <= j < |right| && Nested(left[i], right[j])
  }

  /** From a scope there is a path to every place inside its own. */
  lemma PathTo(scope: string, target: string) returns (p: string)
    requires NormalizeScope(scope).Some? && NormalizeScope(target).Some?
    requires Place(NormalizeScope(scope).value) <= Place(NormalizeScope(target).value)
    ensures SamePlace(p, target) && PathInScope(p, scope) == Some(true)
  {
    var s, t := NormalizeScope(scope).value, NormalizeScope(target).value;
    var rest := Place(t)[|Place(s)|..];
    assert Place(t) == Place(s) + rest;
    if rest == [] {
      p := scope;
    } else {
      RestIsUsable(target, rest);
      BelowNormalises(scope, rest);
      p := "/" + Below(s, rest) + "/";
      PlaceBelow(s, rest);
      assert s + "/" <= Below(s, rest);
    }
  }

  lemma PlaceBelow(v: string, segs: seq<string>)
    requires segs != [] && forall s :: s in segs ==> '/' !in s && !IsIdle(s)
    ensures Place(Below(v, segs)) == Place(v) + segs
  {
    SegmentsBelow(v, segs);
    MovingConcat(Segments(v), segs);
    MovingIsAll(segs);
  }

  /** The segments of a place can stand in a path. */
  lemma RestIsUsable(target: string, rest: seq<string>)
    requires NormalizeScope(target).Some? && forall s :: s in rest ==> s in Place(NormalizeScope(target).value)
    ensures forall s :: s in rest ==> !IsIdle(s) && s != "" && s != ".." && '/' !in s && '\\' !in s
  {
    var t := NormalizeScope(target).value;
    NormalizeExact(target);
    MovingIsAll(Segments(t));
    SegmentsHaveNoSlash(t);
  }

  /** Two lists cover one place exactly if the places of some scope of each are nested. */
  lemma ShareExactly(left: seq<string>, right: seq<string>)
    ensures ShareAPlace(left, right) <==> PlacesMeet(left, right)
  {
    if ShareAPlace(left, right) {
      var p, q :| SamePlace(p, q) && CoveredBy(p, left) && CoveredBy(q, right);
      SharedIsNested(left, right, p, q);
    }
    if PlacesMeet(left, right) {
      var i, j :| 0 <= i < |left| && 0 <= j < |right| && Nested(left[i], right[j]);
      NestedIsShared(left, right, i, j);
    }
  }

  lemma SharedIsNested(left: seq<string>, right: seq<string>, p: string, q: string)
    requires SamePlace(p, q) && CoveredBy(p, left) && CoveredBy(q, right)
    ensures PlacesMeet(left, right)
  {
    var i :| 0 <= i < |left| && PathInScope(p, left[i]) == Some(true);
    var j :| 0 <= j < |right| && PathInScope(q, right[j]) == Some(true);
    InsideIsInPlace(NormalizeScope(p).value, NormalizeScope(left[i]).value);
    InsideIsInPlace(NormalizeScope(q).value, NormalizeScope(right[j]).value);
    assert Nested(left[i], right[j]);
  }

  lemma NestedIsShared(left: seq<string>, right: seq<string>, i: nat, j: nat)
    requires i < |left| && j < |right| && Nested(left[i], right[j])
    ensures ShareAPlace(left, right)
  {
    var s, t := NormalizeScope(left[i]).value, NormalizeScope(right[j]).value;
    assert PathInScope(left[i], left[i]) == Some(true) && PathInScope(right[j], right[j]) == Some(true);
    if Place(s) <= Place(t) {
      var p := PathTo(left[i], right[j]);
      assert SamePlace(p, right[j]) && CoveredBy(p, left) && CoveredBy(right[j], right);
    } else {
      var q := PathTo(right[j], left[i]);
      assert SamePlace(left[i], q) && CoveredBy(left[i], left) && CoveredBy(q, right);
    }
  }

  // ------------------------------------------------------------------------
  // Packages of an accepted plan

  /** All scopes are plain once normalised. */
  predicate PlainScopes(scopes: seq<string>) {
    forall i :: 0 <= i < |scopes| ==> NormalizeScope(scopes[i]).Some? && Plain(NormalizeScope(scopes[i]).value)
  }

  /** Plain scopes that do not overlap as texts have places that do not meet. */
  lemma PlainDoNotMeet(left: seq<string>, right: seq<string>)
    requires PlainScopes(left) && PlainScopes(right) && !Overlap(left, right)
    ensures !PlacesMeet(left, right)
  {
    forall i, j | 0 <= i < |left| && 0 <= j < |right| ensures !Nested(left[i], right[j]) {
      var s, t := NormalizeScope(left[i]).value, NormalizeScope(right[j]).value;
      PlainSpellsItsPlace(s);
      PlainSpellsItsPlace(t);
      InsideIsSegmentPrefix(s, t);
      InsideIsSegmentPrefix(t, s);
      assert !Comparable(left[i], right[j]);
    }
  }

  /**
   Isolation by place: in an accepted plan, two packages that no dependency orders and whose scopes are all plain never
   cover one place, however the paths are spelled.
   */
  lemma PlainScopesIsolate(design: DesignBundle, packages: seq<WorkPackage>, i: nat, j: nat)
    requires Accepted(design, packages) && Unordered(packages, i, j)
    requires PlainScopes(packages[i].writeScopes) && PlainScopes(packages[j].writeScopes)
    ensures !ShareAPlace(packages[i].writeScopes, packages[j].writeScopes)
  {
    AcceptedMeans(design, packages);
    assert !Conflict(packages[i], packages[j], PlanGraph(packages));
    PlainDoNotMeet(packages[i].writeScopes, packages[j].writeScopes);
    ShareExactly(packages[i].writeScopes, packages[j].writeScopes);
  }

  /**
   Isolation by place, exactly: two packages of an accepted plan that no dependency orders cover one place if and only
   if the places of some scope of each are nested, which for scopes that do not overlap takes one that is not plain.
   */
  lemma PlaceIsolationExactly(design: DesignBundle, packages: seq<WorkPackage>, i: nat, j: nat)
    requires Accepted(design, packages) && Unordered(packages, i, j)
    ensures ShareAPlace(packages[i].writeScopes, packages[j].writeScopes) <==>
            PlacesMeet(packages[i].writeScopes, packages[j].writeScopes)
    ensures PlacesMeet(packages[i].writeScopes, packages[j].writeScopes) ==>
              !(PlainScopes(packages[i].writeScopes) && PlainScopes(packages[j].writeScopes))
  {
    ShareExactly(packages[i].writeScopes, packages[j].writeScopes);
    if PlainScopes(packages[i].writeScopes) && PlainScopes(packages[j].writeScopes) {
      PlainScopesIsolate(design, packages, i, j);
    }
  }
}
