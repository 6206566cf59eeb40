/** Results of operations that may raise, and optional values. */
module Wrappers {
  datatype Option<+T> = None | Some(value: T)

  datatype Result<+T, +E> = Ok(value: T) | Err(error: E)

  /** The elements of a sequence. */
  function SetOf<T(==)>(xs: seq<T>): set<T> {
    set x | x in xs
  }

  /** No element occurs twice. */
  predicate Distinct<T(==)>(xs: seq<T>) {
    forall i, j :: 0 <= i < j < |xs| ==> xs[i] != xs[j]
  }

  /** The values of the given keys, in their order. */
  function Lookup<K, V>(m: map<K, V>, keys: seq<K>): (values: seq<V>)
    requires forall k :: k in keys ==> k in m
    ensures |values| == |keys| && forall i :: 0 <= i < |keys| ==> values[i] == m[keys[i]]
  {
    seq(|keys|, i requires 0 <= i < |keys| => m[keys[i]])
  }

  function Mapped<T, U>(xs: seq<T>, f: T -> U): (ys: seq<U>)
    ensures |ys| == |xs| && forall i :: 0 <= i < |xs| ==> ys[i] == f(xs[i])
  {
    seq(|xs|, i requires 0 <= i < |xs| => f(xs[i]))
  }

  /** A dictionary of the elements under their keys: for a repeated key the last element wins. */
  function KeyedBy<K, V>(xs: seq<V>, key: V -> K): (m: map<K, V>)
    ensures m.Keys == SetOf(Mapped(xs, key))
    ensures forall k :: k in m ==> m[k] in xs && key(m[k]) == k
  {
    if xs == [] then map[] else
      var last := xs[|xs| - 1];
      assert Mapped(xs, key) == Mapped(xs[..|xs| - 1], key) + [key(last)];
      KeyedBy(xs[..|xs| - 1], key)[key(last) := last]
  }

  /** With distinct keys the dictionary holds every element. */
  lemma {:induction false} KeyedTotal<K, V>(xs: seq<V>, key: V -> K, i: nat)
    requires Distinct(Mapped(xs, key)) && i < |xs|
    ensures key(xs[i]) in KeyedBy(xs, key) && KeyedBy(xs, key)[key(xs[i])] == xs[i]
    decreases |xs|
  {
    var init := xs[..|xs| - 1];
    if i < |init| {
      assert forall j :: 0 <= j < |init| ==> Mapped(init, key)[j] == Mapped(xs, key)[j];
      KeyedTotal(init, key, i);
      assert Mapped(xs, key)[i] != Mapped(xs, key)[|xs| - 1];
    }
  }

  /** Comparing a length with the size of the set is a test for duplicates. */
  lemma {:induction false} DistinctByCount<T>(xs: seq<T>)
    ensures |SetOf(xs)| <= |xs|
    ensures |SetOf(xs)| == |xs| <==> Distinct(xs)
  {
    if xs == [] {
    } else {
      var init, last := xs[..|xs| - 1], xs[|xs| - 1];
      DistinctByCount(init);
      assert xs == init + [last];
      assert SetOf(xs) == SetOf(init) + {last};
      if last in init {
        assert SetOf(xs) == SetOf(init);
        var i :| 0 <= i < |init| && init[i] == last;
        assert xs[i] == xs[|xs| - 1];
      } else {
        assert |SetOf(xs)| == |SetOf(init)| + 1;
      }
    }
  }

  lemma DistinctAppend<T>(xs: seq<T>, x: T)
    ensures Distinct(xs + [x]) <==> Distinct(xs) && x !in xs
  {
    var ys := xs + [x];
    if Distinct(ys) {
      forall i, j | 0 <= i < j < |xs| ensures xs[i] != xs[j] {
        assert ys[i] != ys[j];
      }
      forall i | 0 <= i < |xs| ensures xs[i] != x {
        assert ys[i] != ys[|xs|];
      }
    }
  }

  lemma ConcatAssociative<T>(a: seq<T>, b: seq<T>, c: seq<T>)
    ensures a + b + c == a + (b + c)
  {
  }

  lemma DistinctPrefix<T>(a: seq<T>, b: seq<T>)
    requires Distinct(a + b)
    ensures Distinct(a) && forall x :: !(x in a && x in b)
  {
    var c := a + b;
    forall i, j | 0 <= i < j < |a| ensures a[i] != a[j] { assert c[i] != c[j]; }
    forall i, j | 0 <= i < |a| && 0 <= j < |b| ensures a[i] != b[j] { assert c[i] != c[|a| + j]; }
  }
}
