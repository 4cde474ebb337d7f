/**
 * The in-place quicksort of the algorithm library: it sorts a list of pairs
 * ascending by their second component (an edge weight or a distance), with
 * the first element of each range as the pivot.
 */
module Ordenamiento {

  /** Keys ascend over `s[lo..hi]`. */
  ghost predicate SortedRange<T>(s: seq<(T, nat)>, lo: int, hi: int)
    requires 0 <= lo <= hi <= |s|
  {
    forall i, j :: lo <= i < j < hi ==> s[i].1 <= s[j].1
  }

  /** Keys ascend over the whole list. */
  ghost predicate SortedByKey<T>(s: seq<(T, nat)>)
  {
    SortedRange(s, 0, |s|)
  }

  /** `s` and `t` agree outside `[lo, hi)`. */
  ghost predicate SameOutside<T>(s: seq<T>, t: seq<T>, lo: int, hi: int)
  {
    |s| == |t| && forall k :: 0 <= k < |s| && !(lo <= k < hi) ==> s[k] == t[k]
  }

  /** Exchanges two elements; the rest of the list is untouched. */
  method Swap<T>(a: array<(T, nat)>, i: nat, j: nat)
    requires i < a.Length && j < a.Length
    modifies a
    ensures a[i] == old(a[j]) && a[j] == old(a[i])
    ensures forall k :: 0 <= k < a.Length && k != i && k != j ==> a[k] == old(a[k])
    ensures multiset(a[..]) == old(multiset(a[..]))
  {
    var t := a[i];
    a[i] := a[j];
    a[j] := t;
  }

  /**
   * Places the pivot `a[inicio]` at its final position `p` of `[inicio, fin]`:
   * smaller keys before it, the others after it.
   */
  method Partition<T>(a: array<(T, nat)>, inicio: nat, fin: nat) returns (menores: nat)
    requires inicio <= fin < a.Length
    modifies a
    ensures inicio <= menores <= fin
    ensures a[menores] == old(a[inicio])
    ensures forall k :: inicio <= k < menores ==> a[k].1 < a[menores].1
    ensures forall k :: menores < k <= fin ==> a[k].1 >= a[menores].1
    ensures SameOutside(a[..], old(a[..]), inicio, fin + 1)
    ensures multiset(a[..]) == old(multiset(a[..]))
  {
    var pivote := a[inicio];
    menores := inicio;
    for i := inicio + 1 to fin + 1
      invariant inicio <= menores < i
      invariant a[inicio] == pivote
      invariant forall k :: inicio < k <= menores ==> a[k].1 < pivote.1
      invariant forall k :: menores < k < i ==> a[k].1 >= pivote.1
      invariant forall k :: 0 <= k < a.Length && !(inicio <= k <= fin) ==> a[k] == old(a[k])
      invariant multiset(a[..]) == old(multiset(a[..]))
    {
      if a[i].1 < pivote.1 {
        menores := menores + 1;
        if i != menores {
          Swap(a, i, menores);
        }
      }
    }
    if inicio != menores {
      Swap(a, inicio, menores);
    }
  }

  /** The multiset of a list is the sum of those of its three parts. */
  lemma MultisetSplit<T>(s: seq<T>, lo: int, hi: int)
    requires 0 <= lo <= hi <= |s|
    ensures multiset(s) == multiset(s[..lo]) + multiset(s[lo..hi]) + multiset(s[hi..])
  {
    assert s == s[..lo] + s[lo..hi] + s[hi..];
  }

  /** Lists that agree outside `[lo, hi)` and are permutations of each other agree in multiset on it. */
  lemma SegmentMultiset<T>(s: seq<T>, t: seq<T>, lo: int, hi: int)
    requires 0 <= lo <= hi <= |s|
    requires SameOutside(s, t, lo, hi) && multiset(s) == multiset(t)
    ensures multiset(s[lo..hi]) == multiset(t[lo..hi])
  {
    MultisetSplit(s, lo, hi);
    MultisetSplit(t, lo, hi);
    assert s[..lo] == t[..lo];
    assert s[hi..] == t[hi..];
    forall x ensures multiset(s[lo..hi])[x] == multiset(t[lo..hi])[x] {
      assert multiset(s)[x] == multiset(t)[x];
    }
  }

  /** Every key of `s[lo..hi]` is below `k`, and this survives any permutation of the range. */
  lemma KeysBelowKept<T>(s: seq<(T, nat)>, t: seq<(T, nat)>, lo: int, hi: int, key: nat, i: int)
    requires 0 <= lo <= i < hi <= |s|
    requires SameOutside(s, t, lo, hi) && multiset(s) == multiset(t)
    requires forall k :: lo <= k < hi ==> t[k].1 < key
    ensures s[i].1 < key
  {
    SegmentMultiset(s, t, lo, hi);
    assert s[i] == s[lo..hi][i - lo];
    assert s[i] in multiset(t[lo..hi]);
    var k :| lo <= k < hi && t[k] == s[i] by {
      assert s[i] in t[lo..hi];
    }
  }

  /** As `KeysBelowKept`, for keys at or above `k`. */
  lemma KeysAtLeastKept<T>(s: seq<(T, nat)>, t: seq<(T, nat)>, lo: int, hi: int, key: nat, i: int)
    requires 0 <= lo <= i < hi <= |s|
    requires SameOutside(s, t, lo, hi) && multiset(s) == multiset(t)
    requires forall k :: lo <= k < hi ==> t[k].1 >= key
    ensures s[i].1 >= key
  {
    SegmentMultiset(s, t, lo, hi);
    assert s[i] == s[lo..hi][i - lo];
    assert s[i] in multiset(t[lo..hi]);
    var k :| lo <= k < hi && t[k] == s[i] by {
      assert s[i] in t[lo..hi];
    }
  }

  /**
   * After partitioning around position `m` and sorting both sides, the whole
   * range is sorted: the two sorted sides keep their keys on their side of the pivot.
   */
  lemma SortedAfterBothHalves<T>(s1: seq<(T, nat)>, s2: seq<(T, nat)>, s3: seq<(T, nat)>,
                                 inicio: int, m: int, fin: int)
    requires 0 <= inicio <= m <= fin < |s1|
    requires forall k :: inicio <= k < m ==> s1[k].1 < s1[m].1
    requires forall k :: m < k <= fin ==> s1[k].1 >= s1[m].1
    requires SameOutside(s2, s1, inicio, m) && SortedRange(s2, inicio, m)
    requires multiset(s2) == multiset(s1)
    requires SameOutside(s3, s2, m + 1, fin + 1) && SortedRange(s3, m + 1, fin + 1)
    requires multiset(s3) == multiset(s2)
    ensures SortedRange(s3, inicio, fin + 1)
  {
    forall i, j | inicio <= i < j < fin + 1 ensures s3[i].1 <= s3[j].1 {
      if i < m {
        KeysBelowKept(s2, s1, inicio, m, s1[m].1, i);
        assert s3[i] == s2[i];
      }
      if j > m {
        assert s2[m..] == s1[m..];
        KeysAtLeastKept(s3, s2, m + 1, fin + 1, s1[m].1, j);
      }
      if j < m {
        assert s3[i] == s2[i] && s3[j] == s2[j];
      }
    }
  }

  /** `_quick_sort`: sorts `a[inicio..fin]` (both ends included) and leaves the rest alone. */
  method QuickSortRange<T>(a: array<(T, nat)>, inicio: int, fin: int)
    requires 0 <= inicio <= fin + 1 <= a.Length
    modifies a
    ensures SortedRange(a[..], inicio, fin + 1)
    ensures SameOutside(a[..], old(a[..]), inicio, fin + 1)
    ensures multiset(a[..]) == old(multiset(a[..]))
    decreases fin - inicio
  {
    if inicio >= fin {
      return;
    }
    var m := Partition(a, inicio, fin);
    ghost var s1 := a[..];
    QuickSortRange(a, inicio, m as int - 1);
    ghost var s2 := a[..];
    QuickSortRange(a, m + 1, fin);
    SortedAfterBothHalves(s1, s2, a[..], inicio, m, fin);
  }

  /** `quick_sort`: the list ends sorted by key and is a permutation of the input. */
  method QuickSort<T>(a: array<(T, nat)>)
    modifies a
    ensures SortedByKey(a[..])
    ensures multiset(a[..]) == old(multiset(a[..]))
  {
    QuickSortRange(a, 0, a.Length - 1);
  }
}
