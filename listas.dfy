/**
 * Python's conversions of a dictionary or a set into a list
 * (`list(d.keys())`, `list(d.items())`, `[*d]`).  The order in which Python
 * enumerates a dictionary is not modelled: each loop takes the remaining
 * elements in an arbitrary order, so the only promise is that every element
 * occurs exactly once.
 */
module Listas {

  /** The elements of `s`, as a set. */
  function Elems<T>(s: seq<T>): set<T>
  {
    set x | x in s
  }

  /** No element of `s` occurs twice. */
  predicate Distinct<T(==)>(s: seq<T>)
  {
    forall i, j :: 0 <= i < j < |s| ==> s[i] != s[j]
  }

  /** `s` lists the set `keys`, each element exactly once. */
  predicate ListsKeys<K(==)>(keys: set<K>, s: seq<K>)
  {
    Distinct(s) && Elems(s) == keys
  }

  /** `s` lists the entries of `m`, each key exactly once. */
  predicate ListsItems<K(==), W(==)>(m: map<K, W>, s: seq<(K, W)>)
  {
    && (forall e :: e in s ==> e.0 in m && m[e.0] == e.1)
    && (forall k :: k in m ==> (k, m[k]) in s)
    && (forall i, j :: 0 <= i < j < |s| ==> s[i].0 != s[j].0)
  }

  /** A list without repetitions is as long as the set of its elements. */
  lemma {:induction false} DistinctCard<T>(s: seq<T>)
    requires Distinct(s)
    ensures |Elems(s)| == |s|
  {
    if s != [] {
      var t := s[1..];
      assert Distinct(t);
      DistinctCard(t);
      assert Elems(s) == {s[0]} + Elems(t);
      assert s[0] !in Elems(t);
    }
  }

  /** `list(keys)`: the members of a set in an arbitrary order. */
  method KeysList<K(==)>(keys: set<K>) returns (s: seq<K>)
    ensures ListsKeys(keys, s)
    ensures |s| == |keys|
  {
    s := [];
    var rest := keys;
    while rest != {}
      invariant rest <= keys
      invariant Distinct(s)
      invariant Elems(s) == keys - rest
      decreases rest
    {
      var k :| k in rest;
      assert Elems(s + [k]) == Elems(s) + {k};
      s := s + [k];
      rest := rest - {k};
    }
    DistinctCard(s);
  }

  /** `list(m.items())`: the entries of a map in an arbitrary order. */
  method ItemsList<K(==), W(==)>(m: map<K, W>) returns (s: seq<(K, W)>)
    ensures ListsItems(m, s)
    ensures |s| == |m|
  {
    s := [];
    var rest := m.Keys;
    while rest != {}
      invariant rest <= m.Keys
      invariant forall e :: e in s ==> e.0 in m && e.0 !in rest && m[e.0] == e.1
      invariant forall k :: k in m && k !in rest ==> (k, m[k]) in s
      invariant forall i, j :: 0 <= i < j < |s| ==> s[i].0 != s[j].0
      invariant |s| + |rest| == |m|
      decreases rest
    {
      var k :| k in rest;
      s := s + [(k, m[k])];
      rest := rest - {k};
    }
  }
}
