/** Write scopes: normalisation, containment of a changed path, and overlap of two scopes. */
module Scopes {
  import opened Wrappers
  import opened Text

  function ForwardSlashes(s: string): string {
    seq(|s|, i requires 0 <= i < |s| => if s[i] == '\\' then '/' else s[i])
  }

  predicate OccursAt(s: string, sub: string, i: nat) {
    i + |sub| <= |s| && s[i..i + |sub|] == sub
  }

  predicate Contains(s: string, sub: string) {
    exists i :: 0 <= i <= |s| && OccursAt(s, sub, i)
  }

  /** The text of a scope once spaces, backslashes and outer slashes are dealt with. */
  function Trimmed(scope: string): string {
    Strip(ForwardSlashes(Strip(scope, IsSpace)), c => c == '/')
  }

  /** _normalize_scope: None stands for its ValueError. */
  function NormalizeScope(scope: string): Option<string> {
    var value := Trimmed(scope);
    if value == "" || ".." <= value || Contains("/" + value + "/", "/../") then None else Some(value)
  }

  predicate StartsInside(inner: string, outer: string) {
    inner == outer || outer + "/" <= inner
  }

  /** _path_in_scope: None when either side does not normalise. */
  function PathInScope(path: string, scope: string): Option<bool> {
    match (NormalizeScope(path), NormalizeScope(scope))
    case (Some(p), Some(s)) => Some(StartsInside(p, s))
    case _ => None
  }

  // ------------------------------------------------------------------------
  // Reference view: a path is the sequence of its segments.

  function Segments(v: string): (segs: seq<string>)
    ensures segs != []
  {
    if v == "" then [""]
    else if v[0] == '/' then [""] + Segments(v[1..])
    else var rest := Segments(v[1..]); [[v[0]] + rest[0]] + rest[1..]
  }

  function Join(segs: seq<string>): string
    requires segs != []
  {
    if |segs| == 1 then segs[0] else segs[0] + "/" + Join(segs[1..])
  }

  lemma {:induction false} JoinSegments(v: string)
    ensures Join(Segments(v)) == v
  {
    if v == "" {
    } else {
      JoinSegments(v[1..]);
      var rest := Segments(v[1..]);
      if v[0] == '/' {
        assert ([""] + rest)[1..] == rest;
      } else {
        assert ([[v[0]] + rest[0]] + rest[1..])[1..] == rest[1..];
      }
      assert v == [v[0]] + v[1..];
    }
  }

  lemma {:induction false} SingleSegment(v: string)
    requires '/' !in v
    ensures Segments(v) == [v]
  {
    if v == "" {
    } else {
      SingleSegment(v[1..]);
      assert v == [v[0]] + v[1..];
    }
  }

  lemma ReplaceFirst(rest: seq<string>, tail: seq<string>, first: string)
    requires rest != []
    ensures [first] + (rest + tail)[1..] == [first] + rest[1..] + tail
    ensures [""] + (rest + tail) == [""] + rest + tail
  {
    assert (rest + tail)[1..] == rest[1..] + tail;
  }

  lemma {:induction false} SegmentsConcat(a: string, b: string)
    ensures Segments(a + "/" + b) == Segments(a) + Segments(b)
  {
    var whole := a + "/" + b;
    if a == "" {
      assert whole[1..] == b;
    } else {
      SegmentsConcat(a[1..], b);
      assert whole[0] == a[0] && whole[1..] == a[1..] + "/" + b;
      ReplaceFirst(Segments(a[1..]), Segments(b), [a[0]] + Segments(a[1..])[0]);
    }
  }

  lemma {:induction false} JoinConcat(a: seq<string>, b: seq<string>)
    requires a != [] && b != []
    ensures Join(a + b) == Join(a) + "/" + Join(b)
  {
    if |a| == 1 {
      assert (a + b)[1..] == b;
    } else {
      JoinConcat(a[1..], b);
      assert (a + b)[1..] == a[1..] + b;
    }
  }

  /** Containment of normalised paths is the prefix order on their segments. */
  lemma InsideIsSegmentPrefix(inner: string, outer: string)
    ensures StartsInside(inner, outer) <==> Segments(outer) <= Segments(inner)
  {
    if StartsInside(inner, outer) && inner != outer {
      SegmentsConcat(outer, inner[|outer| + 1..]);
      assert inner == outer + "/" + inner[|outer| + 1..];
    }
    if Segments(outer) <= Segments(inner) {
      JoinSegments(inner);
      JoinSegments(outer);
      var rest := Segments(inner)[|Segments(outer)|..];
      assert Segments(inner) == Segments(outer) + rest;
      if rest == [] {
        assert Segments(inner) == Segments(outer);
      } else {
        JoinConcat(Segments(outer), rest);
        assert inner == outer + "/" + Join(rest);
      }
    }
  }

  lemma ParentTextIsSegment(w: string, i: nat) returns (k: nat)
    requires OccursAt(w, "/../", i)
    ensures 0 < k < |Segments(w)| - 1 && Segments(w)[k] == ".."
  {
    var x, y := w[..i], w[i + 4..];
    assert w == x + w[i..i + 4] + y && "/../" == "/" + ".." + "/";
    assert w == x + "/" + (".." + "/" + y);
    SegmentsConcat(x, ".." + "/" + y);
    SegmentsConcat("..", y);
    SingleSegment("..");
    k := |Segments(x)|;
  }

  lemma ParentSegmentIsText(w: string, k: nat)
    requires 0 < k < |Segments(w)| - 1 && Segments(w)[k] == ".."
    ensures Contains(w, "/../")
  {
    var a, b := Segments(w)[..k], Segments(w)[k + 1..];
    assert Segments(w) == a + ([".."] + b);
    JoinConcat(a, [".."] + b);
    JoinConcat([".."], b);
    JoinSegments(w);
    assert Join([".."]) == "..";
    Framed(w, Join(a), Join(b));
  }

  lemma Framed(w: string, a: string, b: string)
    requires w == a + "/" + (".." + "/" + b)
    ensures Contains(w, "/../")
  {
    assert w == a + "/../" + b;
    assert OccursAt(w, "/../", |a|);
  }

  /** The textual test for "/../" finds exactly a parent segment. */
  lemma ParentTestIsSegmentTest(v: string)
    ensures Contains("/" + v + "/", "/../") <==> ".." in Segments(v)
  {
    var w := "/" + v + "/";
    var segs := Segments(w);
    assert segs == [""] + Segments(v) + [""] by {
      SegmentsConcat("", v);
      SegmentsConcat("/" + v, "");
      assert "" + "/" + v == "/" + v && w == "/" + v + "/" + "";
    }
    if Contains(w, "/../") {
      var i :| 0 <= i <= |w| && OccursAt(w, "/../", i);
      var k := ParentTextIsSegment(w, i);
      assert Segments(v)[k - 1] == "..";
    }
    if ".." in Segments(v) {
      var k :| 0 <= k < |Segments(v)| && Segments(v)[k] == "..";
      ParentSegmentIsText(w, k + 1);
    }
  }

  /**
   The trimmed text is a stretch of the scope with its backslashes turned; around it stands nothing but space and
   slashes, and no slash borders on it.
   */
  lemma TrimmedExactly(scope: string) returns (i: nat, j: nat)
    ensures i <= j <= |scope| && Trimmed(scope) == ForwardSlashes(scope[i..j])
    ensures forall k :: 0 <= k < i || j <= k < |scope| ==> IsSpace(scope[k]) || scope[k] in {'/', '\\'}
    ensures i < j ==> Trimmed(scope)[0] != '/' && Trimmed(scope)[j - i - 1] != '/'
  {
    var from, to := StripExactly(scope, IsSpace);
    var slashed := ForwardSlashes(scope[from..to]);
    var first, last := StripExactly(slashed, c => c == '/');
    i, j := from + first, from + last;
    assert scope[from..to][first..last] == scope[i..j];
    forall k | from <= k < i || j <= k < to ensures scope[k] in {'/', '\\'} {
      assert slashed[k - from] == '/' && scope[from..to][k - from] == scope[k];
    }
  }

  /** A scope is accepted exactly when its text is non-empty, does not begin with ".." and no segment is "..". */
  lemma NormalizeExact(scope: string)
    ensures NormalizeScope(scope).Some? <==>
            Trimmed(scope) != "" && !(".." <= Trimmed(scope)) && ".." !in Segments(Trimmed(scope))
    ensures NormalizeScope(scope).Some? ==>
            var v := NormalizeScope(scope).value;
            v == Trimmed(scope) && '\\' !in v && v[0] != '/' && v[|v| - 1] != '/' && ".." !in Segments(v)
  {
    ParentTestIsSegmentTest(Trimmed(scope));
    var slashed := ForwardSlashes(Strip(scope, IsSpace));
    StripEnds(slashed, c => c == '/');
  }

  /** A path is judged exactly when both texts normalise, and is inside if the scope's segments begin its own. */
  lemma PathInScopeExactly(path: string, scope: string)
    ensures PathInScope(path, scope).Some? <==> NormalizeScope(path).Some? && NormalizeScope(scope).Some?
    ensures PathInScope(path, scope) == Some(true) <==>
            && NormalizeScope(path).Some? && NormalizeScope(scope).Some?
            && Segments(Trimmed(scope)) <= Segments(Trimmed(path))
  {
    NormalizeExact(path);
    NormalizeExact(scope);
    InsideIsSegmentPrefix(Trimmed(path), Trimmed(scope));
  }

  // ------------------------------------------------------------------------
  // Overlap and isolation

  predicate Comparable(left: string, right: string) {
    match (NormalizeScope(left), NormalizeScope(right))
    case (Some(l), Some(r)) => StartsInside(l, r) || StartsInside(r, l)
    case _ => false
  }

  ghost predicate Overlap(left: seq<string>, right: seq<string>) {
    exists i, j :: 0 <= i < |left| && 0 <= j < |right| && Comparable(left[i], right[j])
  }

  /** _scopes_overlap */
  method ScopesOverlap(left: seq<string>, right: seq<string>) returns (r: bool)
    ensures r <==> Overlap(left, right)
  {
    for i := 0 to |left|
      invariant forall k, j :: 0 <= k < i && 0 <= j < |right| ==> !Comparable(left[k], right[j])
    {
      for j := 0 to |right|
        invariant forall k :: 0 <= k < j ==> !Comparable(left[i], right[k])
      {
        var l, r := NormalizeScope(left[i]), NormalizeScope(right[j]);
        if l.None? || r.None? { continue; }
        if l.value == r.value || r.value + "/" <= l.value || l.value + "/" <= r.value {
          assert Comparable(left[i], right[j]);
          return true;
        }
      }
    }
    return false;
  }

  predicate CoveredBy(path: string, scopes: seq<string>) {
    exists i :: 0 <= i < |scopes| && PathInScope(path, scopes[i]) == Some(true)
  }

  /** Of two scopes around one path, one is inside the other. */
  lemma CommonPathCompares(path: string, l: string, r: string)
    requires StartsInside(path, l) && StartsInside(path, r)
    ensures StartsInside(l, r) || StartsInside(r, l)
  {
    InsideIsSegmentPrefix(path, l);
    InsideIsSegmentPrefix(path, r);
    InsideIsSegmentPrefix(l, r);
    InsideIsSegmentPrefix(r, l);
    if |Segments(l)| <= |Segments(r)| {
      assert Segments(l) == Segments(path)[..|Segments(l)|] == Segments(r)[..|Segments(l)|];
    } else {
      assert Segments(r) == Segments(path)[..|Segments(r)|] == Segments(l)[..|Segments(r)|];
    }
  }

  /** Two scope lists that can both contain one normalised path overlap. */
  lemma CommonPathOverlaps(p: string, q: string, left: seq<string>, right: seq<string>)
    requires NormalizeScope(p) == NormalizeScope(q)
    requires CoveredBy(p, left) && CoveredBy(q, right)
    ensures Overlap(left, right)
  {
    var i :| 0 <= i < |left| && PathInScope(p, left[i]) == Some(true);
    var j :| 0 <= j < |right| && PathInScope(q, right[j]) == Some(true);
    var path, l, r := NormalizeScope(p).value, NormalizeScope(left[i]).value, NormalizeScope(right[j]).value;
    CommonPathCompares(path, l, r);
    assert Comparable(left[i], right[j]);
  }

  /**
   Overlap of two lists says no more than it must: some path is inside a scope of each.
   With CommonPathOverlaps, lists overlap exactly when they share a path.
   */
  lemma OverlapHasCommonPath(left: seq<string>, right: seq<string>) returns (p: string)
    requires Overlap(left, right)
    ensures CoveredBy(p, left) && CoveredBy(p, right)
  {
    var i, j :| 0 <= i < |left| && 0 <= j < |right| && Comparable(left[i], right[j]);
    p := if StartsInside(NormalizeScope(left[i]).value, NormalizeScope(right[j]).value) then left[i] else right[j];
  }
}
