/**
 * `prim`: Prim's algorithm from a random vertex. A new graph gets every
 * vertex of the input; a heap of candidate edges `(peso, (v, w))` leaving
 * the visited set is popped by smallest weight, an edge to an unvisited
 * vertex joins the tree, and that vertex's edges to unvisited vertices are
 * pushed in turn.
 */
module Tendido {
  import opened Wrappers
  import opened Listas
  import opened GraphModel
  import opened Heap
  import opened Grafos

  type Candidata = (nat, (Vertex, Vertex))

  /** Every vertex of `vs` with an empty row: the graph `prim` starts from. */
  ghost function Aislados(vs: set<Vertex>): (r: Adj)
    ensures r.Keys == vs && forall x, y :: !Adjacent(r, x, y)
  {
    map v | v in vs :: map[]
  }

  /** The vertices `t` reachable from `s`. */
  ghost function Componente(adj: Adj, s: Vertex): set<Vertex>
  {
    set t | t in adj && Reachable(adj, s, t)
  }

  /** Every edge of `t` is an edge of `adj` with the same weight. */
  ghost predicate Subgrafo(t: Adj, adj: Adj)
  {
    forall x, y :: Adjacent(t, x, y) ==> Adjacent(adj, x, y) && t[x][y] == adj[x][y]
  }

  /** No edge of `adj` leaves `s`. */
  ghost predicate Cerrado(adj: Adj, s: set<Vertex>)
  {
    forall x, y :: x in s && Adjacent(adj, x, y) ==> y in s
  }

  /**
   * `despues` is `antes` with one candidate `(adj[x][u], (x, u))` pushed for
   * every neighbour `u` of `x` outside `excluidos`.
   */
  ghost predicate Empujadas(adj: Adj, x: Vertex, excluidos: set<Vertex>,
                            antes: multiset<Candidata>, despues: multiset<Candidata>)
  {
    forall e: Candidata :: despues[e] == antes[e] +
      (if e.1.0 == x && Adjacent(adj, x, e.1.1) && e.1.1 !in excluidos && e.0 == adj[x][e.1.1] then 1 else 0)
  }

  /**
   * The tree part of the invariant of `prim`: the tree `t` has every
   * vertex, its edges are edges of `adj` with their weights and join
   * visited vertices, and `caminos` holds a walk in the tree from the start
   * `s` to each visited vertex.
   */
  ghost predicate Arbol(adj: Adj, t: Adj, s: Vertex, visitados: set<Vertex>,
                        caminos: map<Vertex, seq<Vertex>>)
  {
    && t.Keys == adj.Keys
    && s in visitados && visitados <= adj.Keys
    && Subgrafo(t, adj)
    && (forall x, y :: Adjacent(t, x, y) ==> x in visitados && y in visitados)
    && (forall x :: x in visitados ==> x in caminos && WalkFromTo(t, caminos[x], s, x))
  }

  /**
   * The heap part of the invariant of `prim`: every candidate leaves a
   * visited vertex along an edge of `adj` with its weight, and every edge
   * from a visited to an unvisited vertex is a candidate.
   */
  ghost predicate Frontera(adj: Adj, visitados: set<Vertex>, heap: multiset<Candidata>)
  {
    && (forall e :: e in heap ==> e.1.0 in visitados && Adjacent(adj, e.1.0, e.1.1) && e.0 == adj[e.1.0][e.1.1])
    && (forall x, y :: x in visitados && Adjacent(adj, x, y) && y !in visitados ==> (adj[x][y], (x, y)) in heap)
  }

  /** The invariant of the main loop of `prim`. */
  ghost predicate EstadoPrim(adj: Adj, t: Adj, s: Vertex, visitados: set<Vertex>,
                             heap: multiset<Candidata>, caminos: map<Vertex, seq<Vertex>>)
  {
    Arbol(adj, t, s, visitados, caminos) && Frontera(adj, visitados, heap)
  }

  /** The undirected edges of `t`, each as the set of its ends. */
  ghost function Aristas(t: Adj): set<set<Vertex>>
  {
    set x, y | x in t && y in t[x] :: {x, y}
  }

  /** A graph without edges has no undirected edge. */
  lemma SinAristas(t: Adj)
    requires forall x, y :: !Adjacent(t, x, y)
    ensures Aristas(t) == {}
  {
    forall e | e in Aristas(t)
      ensures false
    {
      var x, y :| x in t && y in t[x] && e == {x, y};
      assert Adjacent(t, x, y);
    }
  }

  /**
   * Joining a vertex `v` to a vertex `w` that has no edge yet adds exactly
   * one undirected edge, one that was not there before.
   */
  lemma AristaNueva(t: Adj, v: Vertex, w: Vertex, p: nat)
    requires v in t && w in t && v != w
    requires forall x, y :: Adjacent(t, x, y) ==> x != w && y != w
    ensures Aristas(AddEdge(t, v, w, p)) == Aristas(t) + {{v, w}}
    ensures {v, w} !in Aristas(t)
    ensures |Aristas(AddEdge(t, v, w, p))| == |Aristas(t)| + 1
  {
    var t' := AddEdge(t, v, w, p);
    forall e | e in Aristas(t')
      ensures e in Aristas(t) + {{v, w}}
    {
      var x, y :| x in t' && y in t'[x] && e == {x, y};
      if !((x == v && y == w) || (x == w && y == v)) {
        assert x in t && y in t[x];
      } else {
        assert e == {v, w};
      }
    }
    forall e | e in Aristas(t)
      ensures e in Aristas(t') && w !in e
    {
      var x, y :| x in t && y in t[x] && e == {x, y};
      assert Adjacent(t, x, y);
      assert x in t' && y in t'[x];
    }
    assert v in t' && w in t'[v];
    assert w in {v, w};
  }

  /** A walk in a graph is a walk in any graph with more edges. */
  lemma WalkMonotone(t: Adj, t': Adj, p: seq<Vertex>)
    requires IsWalk(t, p)
    requires forall x, y :: Adjacent(t, x, y) ==> Adjacent(t', x, y)
    ensures IsWalk(t', p)
  {
    forall i | 0 <= i < |p| - 1
      ensures Adjacent(t', p[i], p[i + 1])
    {
      assert Adjacent(t, p[i], p[i + 1]);
    }
  }

  /** A set closed under the edges that holds the start of a walk holds its end. */
  lemma {:induction false} CerradoAlcanza(adj: Adj, c: set<Vertex>, p: seq<Vertex>)
    requires Cerrado(adj, c) && IsWalk(adj, p) && p[0] in c
    ensures p[|p| - 1] in c
    decreases |p|
  {
    if |p| > 1 {
      var q := p[..|p| - 1];
      assert IsWalk(adj, q);
      CerradoAlcanza(adj, c, q);
      assert Adjacent(adj, q[|q| - 1], p[|p| - 1]);
    }
  }

  /** The state `prim` enters its main loop in. */
  lemma EstadoInicial(adj: Adj, s: Vertex, heap: multiset<Candidata>)
    requires s in adj
    requires Empujadas(adj, s, {}, multiset{}, heap)
    ensures EstadoPrim(adj, Aislados(adj.Keys), s, {s}, heap, map[s := [s]])
  {
    var t := Aislados(adj.Keys);
    assert WalkFromTo(t, [s], s, s);
    forall e | e in heap
      ensures e.1.0 in {s} && Adjacent(adj, e.1.0, e.1.1) && e.0 == adj[e.1.0][e.1.1]
    {
      assert heap[e] > 0;
    }
    forall x, y | x in {s} && Adjacent(adj, x, y) && y !in {s}
      ensures (adj[x][y], (x, y)) in heap
    {
      var e: Candidata := (adj[x][y], (x, y));
      assert heap[e] == 1;
    }
  }

  /** Popping a candidate whose far end is already visited keeps the invariant. */
  lemma Descartada(adj: Adj, t: Adj, s: Vertex, visitados: set<Vertex>,
                   heap: multiset<Candidata>, caminos: map<Vertex, seq<Vertex>>, e: Candidata)
    requires EstadoPrim(adj, t, s, visitados, heap, caminos)
    requires e in heap && e.1.1 in visitados
    ensures EstadoPrim(adj, t, s, visitados, heap - multiset{e}, caminos)
  {
    var rest := heap - multiset{e};
    forall x, y | x in visitados && Adjacent(adj, x, y) && y !in visitados
      ensures (adj[x][y], (x, y)) in rest
    {
      var c: Candidata := (adj[x][y], (x, y));
      assert c in heap && c != e;
    }
  }

  /** Adding the edge `(v, w)` of `adj`, from a visited `v` to an unvisited `w`, grows the tree by `w`. */
  lemma ArbolCrece(adj: Adj, t: Adj, s: Vertex, visitados: set<Vertex>,
                   caminos: map<Vertex, seq<Vertex>>, v: Vertex, w: Vertex)
    requires Symmetric(adj) && Symmetric(t)
    requires Arbol(adj, t, s, visitados, caminos)
    requires v in visitados && w !in visitados && Adjacent(adj, v, w)
    ensures v in t && w in t
    ensures Arbol(adj, AddEdge(t, v, w, adj[v][w]), s, visitados + {w}, caminos[w := caminos[v] + [w]])
  {
    var t' := AddEdge(t, v, w, adj[v][w]);
    var vis' := visitados + {w};
    var caminos' := caminos[w := caminos[v] + [w]];
    AddEdgeEffect(t, v, w, adj[v][w]);
    assert Subgrafo(t', adj) by {
      forall x, y | Adjacent(t', x, y)
        ensures Adjacent(adj, x, y) && t'[x][y] == adj[x][y]
      {
        if (x == v && y == w) || (x == w && y == v) {
          WeightSymmetric(adj, v, w);
        } else {
          assert Weight(t', x, y) == Weight(t, x, y);
        }
      }
    }
    forall a, b | Adjacent(t, a, b)
      ensures Adjacent(t', a, b)
    {
      if !((a == v && b == w) || (a == w && b == v)) {
        assert Weight(t', a, b) == Weight(t, a, b);
      }
    }
    forall x, y | Adjacent(t', x, y)
      ensures x in vis' && y in vis'
    {
      if !((x == v && y == w) || (x == w && y == v)) {
        assert Weight(t', x, y) == Weight(t, x, y);
      }
    }
    forall x | x in vis'
      ensures x in caminos' && WalkFromTo(t', caminos'[x], s, x)
    {
      WalkMonotone(t, t', caminos[v]);
      if x == w {
        WalkExtend(t', caminos[v], w);
      } else {
        WalkMonotone(t, t', caminos[x]);
      }
    }
  }

  /** Popping the candidate `e` to an unvisited vertex `w` and pushing `w`'s edges to unvisited vertices keeps the heap part. */
  lemma FronteraCrece(adj: Adj, visitados: set<Vertex>, heap: multiset<Candidata>,
                      e: Candidata, heap': multiset<Candidata>)
    requires Frontera(adj, visitados, heap)
    requires e in heap && e.1.1 !in visitados
    requires Empujadas(adj, e.1.1, visitados + {e.1.1}, heap - multiset{e}, heap')
    ensures Frontera(adj, visitados + {e.1.1}, heap')
  {
    var w := e.1.1;
    var vis' := visitados + {w};
    var rest := heap - multiset{e};
    forall c | c in heap'
      ensures c.1.0 in vis' && Adjacent(adj, c.1.0, c.1.1) && c.0 == adj[c.1.0][c.1.1]
    {
      assert heap'[c] > 0;
      if c !in rest {
        assert c.1.0 == w;
      }
    }
    forall x, y | x in vis' && Adjacent(adj, x, y) && y !in vis'
      ensures (adj[x][y], (x, y)) in heap'
    {
      var c: Candidata := (adj[x][y], (x, y));
      if x == w {
        assert heap'[c] >= 1;
      } else {
        assert c in heap && c != e;
        assert rest[c] > 0;
      }
    }
  }

  /**
   * Popping the candidate `(p, (v, w))` with `w` unvisited: the edge joins
   * the tree, `w` is visited, and its edges to unvisited vertices are
   * pushed; the invariant holds again, with one more vertex visited.
   */
  lemma Incorporada(adj: Adj, t: Adj, s: Vertex, visitados: set<Vertex>,
                    heap: multiset<Candidata>, caminos: map<Vertex, seq<Vertex>>,
                    e: Candidata, heap': multiset<Candidata>)
    requires Symmetric(adj) && Symmetric(t)
    requires EstadoPrim(adj, t, s, visitados, heap, caminos)
    requires e in heap && e.1.1 !in visitados
    requires Empujadas(adj, e.1.1, visitados + {e.1.1}, heap - multiset{e}, heap')
    ensures e.1.0 in t && e.1.1 in t
    ensures |visitados + {e.1.1}| == |visitados| + 1
    ensures adj.Keys - (visitados + {e.1.1}) < adj.Keys - visitados
    ensures EstadoPrim(adj, AddEdge(t, e.1.0, e.1.1, e.0), s, visitados + {e.1.1}, heap',
                       caminos[e.1.1 := caminos[e.1.0] + [e.1.1]])
  {
    var (p, (v, w)) := e;
    assert w in adj.Keys - visitados && w !in adj.Keys - (visitados + {w});
    ArbolCrece(adj, t, s, visitados, caminos, v, w);
    FronteraCrece(adj, visitados, heap, e, heap');
  }

  /** When no candidate is left, the visited vertices are the start's component and the tree spans it. */
  lemma EstadoFinal(adj: Adj, t: Adj, s: Vertex, visitados: set<Vertex>,
                    caminos: map<Vertex, seq<Vertex>>)
    requires EstadoPrim(adj, t, s, visitados, multiset{}, caminos)
    ensures visitados == Componente(adj, s)
    ensures forall u :: Reachable(t, s, u) <==> Reachable(adj, s, u)
    ensures forall x, y :: Adjacent(t, x, y) ==> Reachable(adj, s, x) && Reachable(adj, s, y)
  {
    assert Cerrado(adj, visitados) by {
      forall x, y | x in visitados && Adjacent(adj, x, y)
        ensures y in visitados
      {
        var c: Candidata := (adj[x][y], (x, y));
        assert c !in multiset{};
      }
    }
    forall u | Reachable(adj, s, u)
      ensures u in visitados
    {
      var p :| WalkFromTo(adj, p, s, u);
      CerradoAlcanza(adj, visitados, p);
    }
    forall u | u in visitados
      ensures Reachable(t, s, u) && Reachable(adj, s, u)
    {
      assert WalkFromTo(t, caminos[u], s, u);
      WalkMonotone(t, adj, caminos[u]);
      assert WalkFromTo(adj, caminos[u], s, u);
    }
    forall u | Reachable(t, s, u)
      ensures Reachable(adj, s, u)
    {
      var p :| WalkFromTo(t, p, s, u);
      WalkMonotone(t, adj, p);
      assert WalkFromTo(adj, p, s, u);
    }
    assert visitados == Componente(adj, s);
  }

  /**
   * Pushes `(peso(x, u), (x, u))` for every neighbour `u` of `x` outside
   * `excluidos`: the first loop of `prim` (with nothing excluded) and the
   * innermost one (with the visited set excluded).
   */
  method EncolarVecinos(g: Grafo, x: Vertex, excluidos: set<Vertex>, heap0: multiset<Candidata>)
    returns (heap: multiset<Candidata>)
    ensures Empujadas(g.adyacencias, x, excluidos, heap0, heap)
  {
    ghost var adj := g.adyacencias;
    var ady := g.VerVAdyacentes(x);
    heap := heap0;
    for i := 0 to |ady|
      invariant forall e: Candidata ::
                  heap[e] == heap0[e] +
                  (if e.1.0 == x && e.1.1 in ady[..i] && e.1.1 !in excluidos && e.0 == adj[x][e.1.1] then 1 else 0)
    {
      var u := ady[i];
      assert Adjacent(adj, x, u);
      assert ady[..i + 1] == ady[..i] + [u];
      assert u !in ady[..i] by {
        assert Distinct(ady);
      }
      if u !in excluidos {
        var peso := g.VerPeso(x, u);
        var c: Candidata := (peso.value, (x, u));
        heap := heap + multiset{c};
      }
    }
    assert ady[..|ady|] == ady;
    forall e: Candidata
      ensures heap[e] == heap0[e] +
        (if e.1.0 == x && Adjacent(adj, x, e.1.1) && e.1.1 !in excluidos && e.0 == adj[x][e.1.1] then 1 else 0)
    {
      assert e.1.1 in ady <==> Adjacent(adj, x, e.1.1);
    }
  }

  /** The loop of `prim` adding every vertex, without edges, to the new graph. */
  method AgregarVertices(arbol: Grafo, vs: seq<Vertex>)
    requires arbol.Valid() && arbol.adyacencias == map[] && arbol.aristas == 0
    modifies arbol
    ensures arbol.Valid()
    ensures arbol.adyacencias == Aislados(Elems(vs))
    ensures arbol.aristas == 0
  {
    for i := 0 to |vs|
      invariant arbol.Valid()
      invariant arbol.adyacencias == Aislados(Elems(vs[..i]))
      invariant arbol.aristas == 0
    {
      assert vs[..i + 1] == vs[..i] + [vs[i]];
      var _ := arbol.AgregarVertice(vs[i]);
    }
    assert vs[..|vs|] == vs;
  }

  /**
   * One turn of the main loop of `prim`: the cheapest candidate is popped;
   * if its far end is unvisited the edge joins the tree and that vertex's
   * edges to unvisited vertices are pushed. The invariant is kept, and
   * either one more vertex is visited or the heap is shorter.
   */
  method Paso(g: Grafo, arbol: Grafo, s: Vertex, visitados0: set<Vertex>,
              heap0: multiset<Candidata>, ghost caminos0: map<Vertex, seq<Vertex>>)
    returns (visitados: set<Vertex>, heap: multiset<Candidata>, ghost caminos: map<Vertex, seq<Vertex>>)
    requires g.Valid() && arbol.Valid() && arbol != g
    requires EstadoPrim(g.adyacencias, arbol.adyacencias, s, visitados0, heap0, caminos0)
    requires arbol.aristas == |visitados0| - 1 && |heap0| > 0
    requires |Aristas(arbol.adyacencias)| == |visitados0| - 1
    modifies arbol
    ensures arbol.Valid() && arbol.vertices == old(arbol.vertices)
    ensures EstadoPrim(g.adyacencias, arbol.adyacencias, s, visitados, heap, caminos)
    ensures arbol.aristas == |visitados| - 1
    ensures |Aristas(arbol.adyacencias)| == |visitados| - 1
    ensures g.adyacencias.Keys - visitados < g.adyacencias.Keys - visitados0
            || (visitados == visitados0 && |heap| < |heap0|)
  {
    ghost var adj := g.adyacencias;
    var e, rest := PopMin(heap0);
    var (peso, (v, w)) := e;
    if w in visitados0 {
      Descartada(adj, arbol.adyacencias, s, visitados0, heap0, caminos0, e);
      visitados, heap, caminos := visitados0, rest, caminos0;
      return;
    }
    ghost var t0 := arbol.adyacencias;
    assert forall x, y :: Adjacent(t0, x, y) ==> x != w && y != w by {
      assert Arbol(adj, t0, s, visitados0, caminos0);
    }
    AristaNueva(t0, v, w, peso);
    var _ := arbol.AgregarArista(v, w, peso);
    visitados := visitados0 + {w};
    heap := EncolarVecinos(g, w, visitados, rest);
    Incorporada(adj, t0, s, visitados0, heap0, caminos0, e, heap);
    caminos := caminos0[w := caminos0[v] + [w]];
  }

  /**
   * `prim(grafo)`: for the start `inicio` picked at random, the result has
   * every vertex of the graph, its edges are edges of the graph with their
   * weights, it connects exactly the start's component and touches nothing
   * else, and it has one undirected edge fewer than that component has
   * vertices, so it is a tree on the component; the edge counter equals its
   * number of undirected edges. On an empty graph the result has no edge.
   */
  method Prim(g: Grafo) returns (arbol: Grafo, ghost inicio: Option<Vertex>)
    requires g.Valid()
    ensures fresh(arbol) && arbol.Valid()
    ensures arbol.adyacencias.Keys == g.adyacencias.Keys && arbol.vertices == g.vertices
    ensures Subgrafo(arbol.adyacencias, g.adyacencias)
    ensures inicio.None? <==> g.adyacencias == map[]
    ensures arbol.aristas == |Aristas(arbol.adyacencias)|
    ensures inicio.None? ==> arbol.aristas == 0 && Aristas(arbol.adyacencias) == {}
    ensures inicio.Some? ==>
              && inicio.value in g.adyacencias
              && (forall u :: Reachable(arbol.adyacencias, inicio.value, u) <==>
                               Reachable(g.adyacencias, inicio.value, u))
              && (forall x, y :: Adjacent(arbol.adyacencias, x, y) ==> Reachable(g.adyacencias, inicio.value, x))
              && |Aristas(arbol.adyacencias)| == |Componente(g.adyacencias, inicio.value)| - 1
  {
    ghost var adj := g.adyacencias;
    var vertice := g.VerticeAleatorio();
    inicio := vertice;
    var vert := g.VerVertices();
    arbol := new Grafo();
    AgregarVertices(arbol, vert);
    SinAristas(arbol.adyacencias);
    if vertice.None? {
      return;
    }
    var s := vertice.value;
    var visitados := {s};
    var heap := EncolarVecinos(g, s, {}, multiset{});
    ghost var caminos := map[s := [s]];
    EstadoInicial(adj, s, heap);
    while |heap| > 0
      invariant arbol.Valid() && arbol.vertices == g.vertices
      invariant EstadoPrim(adj, arbol.adyacencias, s, visitados, heap, caminos)
      invariant arbol.aristas == |visitados| - 1
      invariant |Aristas(arbol.adyacencias)| == |visitados| - 1
      decreases adj.Keys - visitados, |heap|
    {
      visitados, heap, caminos := Paso(g, arbol, s, visitados, heap, caminos);
    }
    EstadoFinal(adj, arbol.adyacencias, s, visitados, caminos);
  }
}
