/**
 * The binary heap of the standard library's `heapq`, seen through what its
 * two operations promise: `heappush` adds an entry and `heappop` removes an
 * entry with the smallest key. The entries are kept as a multiset; how ties
 * between equal keys are broken is not part of the model.
 */
module Heap {

  /** `e` has a key no larger than any entry of `h`. */
  predicate IsMin<T(==)>(h: multiset<(nat, T)>, e: (nat, T))
  {
    forall x :: x in h ==> e.0 <= x.0
  }

  /** A non-empty heap has an entry of smallest key. */
  lemma {:induction false} MinExists<T>(h: multiset<(nat, T)>)
    requires |h| > 0
    ensures exists e :: e in h && IsMin(h, e)
    decreases |h|
  {
    var x :| x in h;
    var rest := h - multiset{x};
    assert h == rest + multiset{x};
    if |rest| == 0 {
      assert rest == multiset{};
      assert IsMin(h, x);
    } else {
      MinExists(rest);
      var m :| m in rest && IsMin(rest, m);
      if m.0 <= x.0 {
        assert IsMin(h, m);
      } else {
        assert IsMin(h, x);
      }
    }
  }

  /** `heappop`: removes one entry of smallest key and returns it. */
  method PopMin<T(==)>(h: multiset<(nat, T)>) returns (e: (nat, T), rest: multiset<(nat, T)>)
    requires |h| > 0
    ensures e in h && IsMin(h, e)
    ensures rest == h - multiset{e}
    ensures |rest| == |h| - 1
  {
    MinExists(h);
    e :| e in h && IsMin(h, e);
    rest := h - multiset{e};
  }
}
