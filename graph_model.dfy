/**
 * The abstract value of a `Grafo`: a dictionary of dictionaries in which
 * `adj[x][y]` is the weight of the edge between `x` and `y`.  The graph is
 * undirected, so every edge is stored in both rows; a self-loop is stored once.
 * The functions below are the state changes the graph's methods perform,
 * and the lemmas say what each of them does to edges and weights.
 */
module GraphModel {
  import opened Wrappers

  /** Vertices are airport codes. */
  type Vertex = string

  type Adj = map<Vertex, map<Vertex, nat>>

  /** `y` is in the row of `x`: there is an edge from `x` to `y`. */
  predicate Adjacent(adj: Adj, x: Vertex, y: Vertex)
  {
    x in adj && y in adj[x]
  }

  /** The weight of the edge between `x` and `y`, if there is one. */
  function Weight(adj: Adj, x: Vertex, y: Vertex): Option<nat>
  {
    if Adjacent(adj, x, y) then Some(adj[x][y]) else None
  }

  /** Every edge is stored in both directions with the same weight. */
  ghost predicate Symmetric(adj: Adj)
  {
    forall x, y :: Adjacent(adj, x, y) ==> Adjacent(adj, y, x) && adj[y][x] == adj[x][y]
  }

  /** `agregar_vertice`: a new vertex starts with an empty row. */
  function AddVertex(adj: Adj, x: Vertex): Adj
  {
    if x in adj then adj else adj[x := map[]]
  }

  /** `agregar_arista` (and `cambiar_peso`): writes the weight into both rows. */
  function AddEdge(adj: Adj, x: Vertex, y: Vertex, p: nat): Adj
    requires x in adj && y in adj
  {
    var rowX: map<Vertex, nat> := adj[x][y := p];
    var a := adj[x := rowX];
    var rowY: map<Vertex, nat> := a[y][x := p];
    a[y := rowY]
  }

  /** `remover_arista`: removes the edge from both rows, from one row for a self-loop. */
  function RemoveEdge(adj: Adj, x: Vertex, y: Vertex): Adj
    requires x in adj && y in adj
  {
    var a: Adj := adj[x := adj[x] - {y}];
    if y != x then a[y := a[y] - {x}] else a
  }

  /** `sacar_vertice`: drops the row of `x` and `x` from the rows of its neighbours. */
  function RemoveVertex(adj: Adj, x: Vertex): Adj
    requires x in adj
  {
    map u | u in adj && u != x :: if u in adj[x] then adj[u] - {x} else adj[u]
  }

  lemma AddVertexEffect(adj: Adj, x: Vertex)
    requires Symmetric(adj)
    ensures Symmetric(AddVertex(adj, x))
    ensures AddVertex(adj, x).Keys == adj.Keys + {x}
    ensures x !in adj ==> |AddVertex(adj, x)| == |adj| + 1
    ensures forall a, b :: Weight(AddVertex(adj, x), a, b) == Weight(adj, a, b)
  {
    if x !in adj {
      var r := adj[x := map[]];
      assert r.Keys == adj.Keys + {x};
      forall a, b
        ensures Weight(r, a, b) == Weight(adj, a, b)
      {
        if a != x {
          assert a in r <==> a in adj;
          if a in adj {
            assert r[a] == adj[a];
          }
        }
      }
      forall a, b | Adjacent(r, a, b)
        ensures Adjacent(r, b, a) && r[b][a] == r[a][b]
      {
        assert a != x && r[a] == adj[a] && Adjacent(adj, a, b);
        assert b != x && r[b] == adj[b];
      }
    }
  }

  /** After adding an edge both directions carry the new weight and no other edge changes. */
  lemma AddEdgeEffect(adj: Adj, x: Vertex, y: Vertex, p: nat)
    requires Symmetric(adj) && x in adj && y in adj
    ensures Symmetric(AddEdge(adj, x, y, p))
    ensures AddEdge(adj, x, y, p).Keys == adj.Keys
    ensures Weight(AddEdge(adj, x, y, p), x, y) == Some(p)
    ensures Weight(AddEdge(adj, x, y, p), y, x) == Some(p)
    ensures forall a, b :: !(a == x && b == y) && !(a == y && b == x) ==>
              Weight(AddEdge(adj, x, y, p), a, b) == Weight(adj, a, b)
  {
    var r := AddEdge(adj, x, y, p);
    forall u | u in adj
      ensures u in r
      ensures r[u] == if u == y then (if x == y then adj[x][y := p] else adj[y])[x := p]
                      else if u == x then adj[x][y := p] else adj[u]
    {
    }
    assert r.Keys == adj.Keys;
    forall a, b | !(a == x && b == y) && !(a == y && b == x)
      ensures Weight(r, a, b) == Weight(adj, a, b)
    {
    }
    forall a, b | Adjacent(r, a, b)
      ensures Adjacent(r, b, a) && r[b][a] == r[a][b]
    {
      if !((a == x && b == y) || (a == y && b == x)) {
        assert Weight(r, a, b) == Weight(adj, a, b) && Weight(r, b, a) == Weight(adj, b, a);
        assert Adjacent(adj, a, b);
      }
    }
  }

  /** After removing an edge neither direction is present and no other edge changes. */
  lemma RemoveEdgeEffect(adj: Adj, x: Vertex, y: Vertex)
    requires Symmetric(adj) && x in adj && y in adj
    ensures Symmetric(RemoveEdge(adj, x, y))
    ensures RemoveEdge(adj, x, y).Keys == adj.Keys
    ensures Weight(RemoveEdge(adj, x, y), x, y) == None
    ensures Weight(RemoveEdge(adj, x, y), y, x) == None
    ensures forall a, b :: !(a == x && b == y) && !(a == y && b == x) ==>
              Weight(RemoveEdge(adj, x, y), a, b) == Weight(adj, a, b)
  {
    var r := RemoveEdge(adj, x, y);
    forall u | u in adj
      ensures u in r
      ensures r[u] == if u == y then (if x == y then adj[x] else adj[y]) - {x}
                      else if u == x then adj[x] - {y} else adj[u]
    {
    }
    assert r.Keys == adj.Keys;
    forall a, b | !(a == x && b == y) && !(a == y && b == x)
      ensures Weight(r, a, b) == Weight(adj, a, b)
    {
    }
    forall a, b | Adjacent(r, a, b)
      ensures Adjacent(r, b, a) && r[b][a] == r[a][b]
    {
      assert Weight(r, a, b) == Weight(adj, a, b) && Weight(r, b, a) == Weight(adj, b, a);
      assert Adjacent(adj, a, b);
    }
  }

  /**
   * Removing a vertex removes exactly the edges that touch it, and the
   * graph keeps no reference to the removed vertex.
   */
  lemma RemoveVertexEffect(adj: Adj, x: Vertex)
    requires Symmetric(adj) && x in adj
    ensures Symmetric(RemoveVertex(adj, x))
    ensures RemoveVertex(adj, x).Keys == adj.Keys - {x}
    ensures |RemoveVertex(adj, x)| == |adj| - 1
    ensures forall a, b :: Weight(RemoveVertex(adj, x), a, b) ==
              if a == x || b == x then None else Weight(adj, a, b)
  {
    var r := RemoveVertex(adj, x);
    assert r.Keys == adj.Keys - {x};
    forall a, b | Adjacent(r, a, b)
      ensures Adjacent(r, b, a) && r[b][a] == r[a][b]
    {
      assert Adjacent(adj, a, b);
    }
  }

  /** Weights read the same in both directions. */
  lemma WeightSymmetric(adj: Adj, x: Vertex, y: Vertex)
    requires Symmetric(adj)
    ensures Weight(adj, x, y) == Weight(adj, y, x)
  {
    if Adjacent(adj, y, x) {
      assert Adjacent(adj, x, y);
    }
  }

  // ----- walks -----

  /** A walk: a non-empty list of vertices, each adjacent to the next. */
  ghost predicate IsWalk(adj: Adj, p: seq<Vertex>)
  {
    |p| > 0 && forall i :: 0 <= i < |p| - 1 ==> Adjacent(adj, p[i], p[i + 1])
  }

  /** A walk from `s` to `t`. */
  ghost predicate WalkFromTo(adj: Adj, p: seq<Vertex>, s: Vertex, t: Vertex)
  {
    IsWalk(adj, p) && p[0] == s && p[|p| - 1] == t
  }

  /** The sum of the weights of the edges a walk uses. */
  ghost function WalkWeight(adj: Adj, p: seq<Vertex>): nat
    requires IsWalk(adj, p)
    decreases |p|
  {
    if |p| == 1 then 0
    else
      assert Adjacent(adj, p[|p| - 2], p[|p| - 1]);
      WalkWeight(adj, p[..|p| - 1]) + adj[p[|p| - 2]][p[|p| - 1]]
  }

  /** `t` can be reached from `s`. */
  ghost predicate Reachable(adj: Adj, s: Vertex, t: Vertex)
  {
    exists p :: WalkFromTo(adj, p, s, t)
  }

  /** Every vertex can be reached from every vertex. */
  ghost predicate Connected(adj: Adj)
  {
    forall s, t :: s in adj && t in adj ==> Reachable(adj, s, t)
  }

  /** Extending a walk by one edge adds that edge's weight. */
  lemma WalkExtend(adj: Adj, p: seq<Vertex>, w: Vertex)
    requires IsWalk(adj, p) && Adjacent(adj, p[|p| - 1], w)
    ensures IsWalk(adj, p + [w])
    ensures WalkWeight(adj, p + [w]) == WalkWeight(adj, p) + adj[p[|p| - 1]][w]
  {
    var q := p + [w];
    assert q[..|q| - 1] == p;
  }
}
