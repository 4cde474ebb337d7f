/**
 * `bfs`: breadth-first search from a source with a FIFO queue. A vertex is
 * marked visited when it is queued, and the search stops as soon as it
 * discovers a vertex of `destino`.
 */
module Recorrido {
  import opened Wrappers
  import opened Listas
  import opened GraphModel
  import opened Grafos

  /** All of `u`'s neighbours are visited, at most one level below `u`. */
  ghost predicate Scanned(adj: Adj, orden: map<Vertex, nat>, u: Vertex)
  {
    && u in orden
    && forall y :: Adjacent(adj, u, y) ==> y in orden && orden[y] <= orden[u] + 1
  }

  /**
   * The search tree: the visited vertices are exactly those with a parent and
   * a level; the source is at level 0 without parent; every other vertex is
   * one level below its parent, a neighbour; and `caminos` holds, for each
   * visited vertex, a walk from the source as long as its level.
   */
  ghost predicate Arbol(adj: Adj, origen: Vertex, visitados: set<Vertex>,
                        padres: map<Vertex, Option<Vertex>>, orden: map<Vertex, nat>,
                        caminos: map<Vertex, seq<Vertex>>)
  {
    && padres.Keys == visitados && orden.Keys == visitados
    && origen in visitados && padres[origen] == None && orden[origen] == 0
    && (forall x {:trigger padres[x]} :: x in padres && x != origen ==>
          && padres[x].Some? && padres[x].value in orden && Adjacent(adj, padres[x].value, x)
          && orden[x] == orden[padres[x].value] + 1)
    && (forall x :: x in orden ==>
          x in caminos && WalkFromTo(adj, caminos[x], origen, x) && |caminos[x]| == orden[x] + 1)
  }

  /**
   * The queue discipline: every visited vertex was queued exactly once, in
   * the list `encolados`, whose levels never go down; the first `k` have
   * been taken out and scanned.
   */
  ghost predicate Encolados(adj: Adj, visitados: set<Vertex>, orden: map<Vertex, nat>,
                            encolados: seq<Vertex>, k: int)
  {
    && Distinct(encolados) && Elems(encolados) == visitados && 0 <= k <= |encolados|
    && (forall i :: 0 <= i < |encolados| ==> encolados[i] in orden)
    && (forall i, j :: 0 <= i < j < |encolados| ==> orden[encolados[i]] <= orden[encolados[j]])
    && (forall i :: 0 <= i < k ==> Scanned(adj, orden, encolados[i]))
  }

  /** No visited vertex other than the source is a destination. */
  ghost predicate SinDestino(origen: Vertex, destino: seq<Vertex>, visitados: set<Vertex>)
  {
    forall x :: x in visitados && x != origen ==> x !in destino
  }

  /** The levels of a finished search, on every edge out of a visited vertex. */
  ghost predicate HopTriangle(adj: Adj, orden: map<Vertex, nat>)
  {
    forall x :: x in orden ==> Scanned(adj, orden, x)
  }

  /**
   * The levels are the fewest edges a walk from the source needs: the
   * visited vertices are the reachable ones, each has a walk as long as its
   * level, and no walk to it is shorter.
   */
  ghost predicate ShortestHops(adj: Adj, origen: Vertex, orden: map<Vertex, nat>)
  {
    && (forall t :: t in orden <==> Reachable(adj, origen, t))
    && (forall t :: t in orden ==> exists p :: WalkFromTo(adj, p, origen, t) && |p| == orden[t] + 1)
    && (forall t, p :: t in orden && WalkFromTo(adj, p, origen, t) ==> orden[t] <= |p| - 1)
  }

  /** When every visited vertex is scanned, no walk from the source leaves the visited set or beats its level. */
  lemma {:induction false} HopBound(adj: Adj, origen: Vertex, orden: map<Vertex, nat>, p: seq<Vertex>)
    requires HopTriangle(adj, orden) && origen in orden && orden[origen] == 0
    requires IsWalk(adj, p) && p[0] == origen
    ensures p[|p| - 1] in orden && orden[p[|p| - 1]] <= |p| - 1
    decreases |p|
  {
    if |p| > 1 {
      var q := p[..|p| - 1];
      assert IsWalk(adj, q);
      HopBound(adj, origen, orden, q);
      assert Adjacent(adj, q[|q| - 1], p[|p| - 1]);
      assert Scanned(adj, orden, q[|q| - 1]);
    }
  }

  /** A search tree whose vertices are all scanned gives the shortest levels. */
  lemma ScannedGivesShortest(adj: Adj, origen: Vertex, visitados: set<Vertex>,
                             padres: map<Vertex, Option<Vertex>>, orden: map<Vertex, nat>,
                             caminos: map<Vertex, seq<Vertex>>)
    requires Arbol(adj, origen, visitados, padres, orden, caminos) && HopTriangle(adj, orden)
    ensures ShortestHops(adj, origen, orden)
  {
    forall t, p | WalkFromTo(adj, p, origen, t)
      ensures t in orden && orden[t] <= |p| - 1
    {
      HopBound(adj, origen, orden, p);
    }
    forall t | t in orden
      ensures WalkFromTo(adj, caminos[t], origen, t) && |caminos[t]| == orden[t] + 1
    {
    }
  }

  // ----- the steps of the search -----

  /**
   * The invariant of the loop over the neighbours of `v`, the `k`-th vertex
   * taken out of the queue: the tree and the queue discipline hold with the
   * first `k - 1` vertices scanned, nothing queued is more than one level
   * below `v`, and the first `j` listed neighbours are visited.
   */
  ghost predicate Vecinos(adj: Adj, origen: Vertex, v: Vertex, ady: seq<(Vertex, nat)>, j: int,
                          visitados: set<Vertex>, padres: map<Vertex, Option<Vertex>>,
                          orden: map<Vertex, nat>, encolados: seq<Vertex>, k: int,
                          caminos: map<Vertex, seq<Vertex>>)
  {
    && Arbol(adj, origen, visitados, padres, orden, caminos)
    && 1 <= k <= |encolados| && Encolados(adj, visitados, orden, encolados, k - 1)
    && encolados[k - 1] == v
    && (forall i :: 0 <= i < |encolados| ==> orden[encolados[i]] <= orden[v] + 1)
    && 0 <= j <= |ady|
    && (forall i :: 0 <= i < j ==>
          Adjacent(adj, v, ady[i].0) && ady[i].0 in orden && orden[ady[i].0] <= orden[v] + 1)
  }

  /** The invariant of the main loop, with `k` vertices taken out of the queue. */
  ghost predicate Busqueda(adj: Adj, origen: Vertex, visitados: set<Vertex>,
                           padres: map<Vertex, Option<Vertex>>, orden: map<Vertex, nat>,
                           encolados: seq<Vertex>, k: int, caminos: map<Vertex, seq<Vertex>>)
  {
    && Arbol(adj, origen, visitados, padres, orden, caminos)
    && Encolados(adj, visitados, orden, encolados, k)
    && (0 <= k < |encolados| ==>
          forall i :: 0 <= i < |encolados| ==> orden[encolados[i]] <= orden[encolados[k]] + 1)
  }

  /** Taking the head `encolados[k]` out of the queue starts the scan of its neighbours. */
  lemma Desencolado(adj: Adj, origen: Vertex, ady: seq<(Vertex, nat)>,
                    visitados: set<Vertex>, padres: map<Vertex, Option<Vertex>>,
                    orden: map<Vertex, nat>, encolados: seq<Vertex>, k: int,
                    caminos: map<Vertex, seq<Vertex>>)
    requires Busqueda(adj, origen, visitados, padres, orden, encolados, k, caminos)
    requires k < |encolados|
    ensures Vecinos(adj, origen, encolados[k], ady, 0, visitados, padres, orden, encolados, k + 1, caminos)
  {
  }

  /** Discovering the neighbour `w`, at one level below `v`, keeps the scan's invariant. */
  lemma Descubierto(adj: Adj, origen: Vertex, v: Vertex, ady: seq<(Vertex, nat)>, j: int,
                    visitados: set<Vertex>, padres: map<Vertex, Option<Vertex>>,
                    orden: map<Vertex, nat>, encolados: seq<Vertex>, k: int,
                    caminos: map<Vertex, seq<Vertex>>)
    requires Vecinos(adj, origen, v, ady, j, visitados, padres, orden, encolados, k, caminos)
    requires j < |ady| && Adjacent(adj, v, ady[j].0) && Adjacent(adj, ady[j].0, v) && ady[j].0 !in visitados
    ensures
      var w := ady[j].0;
      Vecinos(adj, origen, v, ady, j + 1, visitados + {w}, padres[w := Some(v)],
              orden[w := orden[v] + 1], encolados + [w], k, caminos[w := caminos[v] + [w]])
  {
    var w := ady[j].0;
    var orden' := orden[w := orden[v] + 1];
    var encolados' := encolados + [w];
    ArbolCrece(adj, origen, visitados, padres, orden, caminos, v, w);
    assert Elems(encolados') == Elems(encolados) + {w};
    forall i | 0 <= i < k - 1
      ensures Scanned(adj, orden', encolados'[i])
    {
      assert Scanned(adj, orden, encolados[i]);
    }
  }

  /** Hanging a new vertex `w` below its visited neighbour `v` keeps the search tree valid. */
  lemma ArbolCrece(adj: Adj, origen: Vertex, visitados: set<Vertex>,
                   padres: map<Vertex, Option<Vertex>>, orden: map<Vertex, nat>,
                   caminos: map<Vertex, seq<Vertex>>, v: Vertex, w: Vertex)
    requires Arbol(adj, origen, visitados, padres, orden, caminos)
    requires v in visitados && w !in visitados && Adjacent(adj, v, w)
    ensures Arbol(adj, origen, visitados + {w}, padres[w := Some(v)], orden[w := orden[v] + 1],
                  caminos[w := caminos[v] + [w]])
  {
    PadresCrecen(adj, origen, padres, orden, v, w);
    CaminosCrecen(adj, origen, orden, caminos, v, w);
  }

  /** The parent and level half of `ArbolCrece`. */
  lemma PadresCrecen(adj: Adj, origen: Vertex, padres: map<Vertex, Option<Vertex>>, orden: map<Vertex, nat>,
                     v: Vertex, w: Vertex)
    requires padres.Keys == orden.Keys && v in orden && w !in orden && Adjacent(adj, v, w)
    requires forall x {:trigger padres[x]} :: x in padres && x != origen ==>
               && padres[x].Some? && padres[x].value in orden && Adjacent(adj, padres[x].value, x)
               && orden[x] == orden[padres[x].value] + 1
    ensures
      var padres', orden' := padres[w := Some(v)], orden[w := orden[v] + 1];
      forall x {:trigger padres'[x]} :: x in padres' && x != origen ==>
        && padres'[x].Some? && padres'[x].value in orden' && Adjacent(adj, padres'[x].value, x)
        && orden'[x] == orden'[padres'[x].value] + 1
  {
    var padres', orden' := padres[w := Some(v)], orden[w := orden[v] + 1];
    forall x | x in padres' && x != origen
      ensures padres'[x].Some? && padres'[x].value in orden' && Adjacent(adj, padres'[x].value, x)
      ensures orden'[x] == orden'[padres'[x].value] + 1
    {
      if x != w {
        assert padres'[x] == padres[x];
        assert padres[x].value != w;
      } else {
        assert padres'[x] == Some(v) && orden'[v] == orden[v];
      }
    }
  }

  /** The walk half of `ArbolCrece`. */
  lemma CaminosCrecen(adj: Adj, origen: Vertex, orden: map<Vertex, nat>, caminos: map<Vertex, seq<Vertex>>,
                      v: Vertex, w: Vertex)
    requires forall x :: x in orden ==>
               x in caminos && WalkFromTo(adj, caminos[x], origen, x) && |caminos[x]| == orden[x] + 1
    requires v in orden && w !in orden && Adjacent(adj, v, w)
    ensures
      var orden', caminos' := orden[w := orden[v] + 1], caminos[w := caminos[v] + [w]];
      forall x :: x in orden' ==>
        x in caminos' && WalkFromTo(adj, caminos'[x], origen, x) && |caminos'[x]| == orden'[x] + 1
  {
    var orden', caminos' := orden[w := orden[v] + 1], caminos[w := caminos[v] + [w]];
    WalkExtend(adj, caminos[v], w);
    forall x | x in orden'
      ensures x in caminos' && WalkFromTo(adj, caminos'[x], origen, x) && |caminos'[x]| == orden'[x] + 1
    {
      if x == w {
        assert caminos'[x] == caminos[v] + [w] && (caminos[v] + [w])[0] == caminos[v][0];
      } else {
        assert caminos'[x] == caminos[x] && orden'[x] == orden[x];
      }
    }
  }

  /** A neighbour `w` that was already visited is at most one level below `v`. */
  lemma YaVisitado(adj: Adj, origen: Vertex, v: Vertex, ady: seq<(Vertex, nat)>, j: int,
                   visitados: set<Vertex>, padres: map<Vertex, Option<Vertex>>,
                   orden: map<Vertex, nat>, encolados: seq<Vertex>, k: int,
                   caminos: map<Vertex, seq<Vertex>>)
    requires Vecinos(adj, origen, v, ady, j, visitados, padres, orden, encolados, k, caminos)
    requires j < |ady| && Adjacent(adj, v, ady[j].0) && ady[j].0 in visitados
    ensures Vecinos(adj, origen, v, ady, j + 1, visitados, padres, orden, encolados, k, caminos)
  {
    var i :| 0 <= i < |encolados| && encolados[i] == ady[j].0;
  }

  /** Once every neighbour of `v` is visited, `v` counts as scanned and the next head bounds the queue. */
  lemma Explorado(adj: Adj, origen: Vertex, v: Vertex, ady: seq<(Vertex, nat)>,
                  visitados: set<Vertex>, padres: map<Vertex, Option<Vertex>>,
                  orden: map<Vertex, nat>, encolados: seq<Vertex>, k: int,
                  caminos: map<Vertex, seq<Vertex>>)
    requires Vecinos(adj, origen, v, ady, |ady|, visitados, padres, orden, encolados, k, caminos)
    requires v in adj ==> ListsItems(adj[v], ady)
    ensures Busqueda(adj, origen, visitados, padres, orden, encolados, k, caminos)
  {
    forall y | Adjacent(adj, v, y)
      ensures y in orden && orden[y] <= orden[v] + 1
    {
      assert (y, adj[v][y]) in ady;
    }
    assert Scanned(adj, orden, v);
    if k < |encolados| {
      assert orden[encolados[k - 1]] <= orden[encolados[k]];
    }
  }

  /** With the queue empty, every visited vertex is scanned, so the levels are the shortest. */
  lemma Terminada(adj: Adj, origen: Vertex, visitados: set<Vertex>,
                  padres: map<Vertex, Option<Vertex>>, orden: map<Vertex, nat>,
                  encolados: seq<Vertex>, caminos: map<Vertex, seq<Vertex>>)
    requires Busqueda(adj, origen, visitados, padres, orden, encolados, |encolados|, caminos)
    ensures ShortestHops(adj, origen, orden)
  {
    forall x | x in orden
      ensures Scanned(adj, orden, x)
    {
      var i :| 0 <= i < |encolados| && encolados[i] == x;
    }
    ScannedGivesShortest(adj, origen, visitados, padres, orden, caminos);
  }

  /** What the search tree tells the caller of `bfs`. */
  lemma ArbolFacts(adj: Adj, origen: Vertex, visitados: set<Vertex>,
                   padres: map<Vertex, Option<Vertex>>, orden: map<Vertex, nat>,
                   caminos: map<Vertex, seq<Vertex>>)
    requires Arbol(adj, origen, visitados, padres, orden, caminos)
    ensures padres.Keys == orden.Keys
    ensures origen in orden && orden[origen] == 0 && padres[origen] == None
    ensures forall x :: x in padres && x != origen ==>
              && padres[x].Some? && padres[x].value in orden
              && Adjacent(adj, padres[x].value, x)
              && orden[x] == orden[padres[x].value] + 1
    ensures forall t :: t in orden ==>
              exists p :: WalkFromTo(adj, p, origen, t) && |p| == orden[t] + 1
  {
    forall t | t in orden
      ensures WalkFromTo(adj, caminos[t], origen, t) && |caminos[t]| == orden[t] + 1
    {
    }
  }

  // ----- the algorithm -----

  /** The search stopped at `w`: a destination just visited, the only one besides possibly the source. */
  ghost predicate Hallazgo(adj: Adj, origen: Vertex, destino: seq<Vertex>, w: Vertex,
                           visitados: set<Vertex>, padres: map<Vertex, Option<Vertex>>,
                           orden: map<Vertex, nat>, caminos: map<Vertex, seq<Vertex>>)
  {
    && Arbol(adj, origen, visitados, padres, orden, caminos)
    && w in destino && w in visitados && w != origen
    && SinDestino(origen, destino, visitados - {w})
  }

  /**
   * The invariant of the loop over the neighbours of `v`, with the queue's
   * contents `items`: the scan's invariant, no destination found yet, and
   * the queue holding the vertices queued after the `k` taken out; if
   * nothing was visited since `visitados0`, the queue is still `items0`.
   */
  ghost predicate Exploracion(adj: Adj, origen: Vertex, destino: seq<Vertex>, v: Vertex,
                              ady: seq<(Vertex, nat)>, j: int,
                              visitados0: set<Vertex>, items0: seq<Vertex>,
                              visitados: set<Vertex>, padres: map<Vertex, Option<Vertex>>,
                              orden: map<Vertex, nat>, encolados: seq<Vertex>, k: int,
                              caminos: map<Vertex, seq<Vertex>>, items: seq<Vertex>)
  {
    && Vecinos(adj, origen, v, ady, j, visitados, padres, orden, encolados, k, caminos)
    && SinDestino(origen, destino, visitados)
    && visitados0 <= visitados <= adj.Keys + {origen}
    && 0 <= k <= |encolados| && items == encolados[k..]
    && (visitados == visitados0 ==> items == items0)
  }

  /** Queuing `x` behind the `k` vertices already taken out. */
  lemma ColaCrece(encolados: seq<Vertex>, k: int, items: seq<Vertex>, x: Vertex)
    requires 0 <= k <= |encolados| && items == encolados[k..]
    ensures 0 <= k <= |encolados + [x]| && items + [x] == (encolados + [x])[k..]
  {
    assert (encolados + [x])[k..] == encolados[k..] + [x];
  }

  /** Discovering the `j`-th neighbour `w` of `v`, no destination: the scan goes on. */
  lemma DescubiertoEnExploracion(adj: Adj, origen: Vertex, destino: seq<Vertex>, v: Vertex,
                                 ady: seq<(Vertex, nat)>, j: int,
                                 visitados0: set<Vertex>, items0: seq<Vertex>,
                                 visitados: set<Vertex>, padres: map<Vertex, Option<Vertex>>,
                                 orden: map<Vertex, nat>, encolados: seq<Vertex>, k: int,
                                 caminos: map<Vertex, seq<Vertex>>, items: seq<Vertex>)
    requires Exploracion(adj, origen, destino, v, ady, j, visitados0, items0,
                         visitados, padres, orden, encolados, k, caminos, items)
    requires j < |ady| && Adjacent(adj, v, ady[j].0) && Adjacent(adj, ady[j].0, v)
    requires ady[j].0 !in visitados && ady[j].0 !in destino
    ensures
      var w := ady[j].0;
      Exploracion(adj, origen, destino, v, ady, j + 1, visitados0, items0,
                  visitados + {w}, padres[w := Some(v)], orden[w := orden[v] + 1],
                  encolados + [w], k, caminos[w := caminos[v] + [w]], items + [w])
  {
    var w := ady[j].0;
    Descubierto(adj, origen, v, ady, j, visitados, padres, orden, encolados, k, caminos);
    ColaCrece(encolados, k, items, w);
    assert w in visitados + {w} && w !in visitados0;
    assert SinDestino(origen, destino, visitados + {w}) by {
      forall x | x in visitados + {w} && x != origen
        ensures x !in destino
      {
        if x != w {
          assert x in visitados;
        }
      }
    }
  }

  /** Discovering the `j`-th neighbour `w` of `v`, a destination: the search stops at it. */
  lemma HalladoEnExploracion(adj: Adj, origen: Vertex, destino: seq<Vertex>, v: Vertex,
                             visitados0: set<Vertex>, visitados: set<Vertex>,
                             padres: map<Vertex, Option<Vertex>>, orden: map<Vertex, nat>,
                             encolados: seq<Vertex>, k: int, caminos: map<Vertex, seq<Vertex>>,
                             items: seq<Vertex>, w: Vertex)
    requires Arbol(adj, origen, visitados, padres, orden, caminos) && SinDestino(origen, destino, visitados)
    requires visitados0 <= visitados <= adj.Keys + {origen}
    requires 0 <= k <= |encolados| && items == encolados[k..]
    requires v in visitados && Adjacent(adj, v, w) && Adjacent(adj, w, v)
    requires w !in visitados && w in destino
    ensures Hallazgo(adj, origen, destino, w, visitados + {w}, padres[w := Some(v)],
                     orden[w := orden[v] + 1], caminos[w := caminos[v] + [w]])
    ensures visitados0 <= visitados + {w} <= adj.Keys + {origen}
    ensures 0 <= k <= |encolados + [w]| && items + [w] == (encolados + [w])[k..]
  {
    ArbolCrece(adj, origen, visitados, padres, orden, caminos, v, w);
    ColaCrece(encolados, k, items, w);
    assert (visitados + {w}) - {w} == visitados;
  }

  /**
   * One turn of the loop of `bfs` over the neighbours of `v`: the `j`-th
   * neighbour `w`, when not yet visited, is marked visited, given `v` as
   * parent and the next level, and queued; it is returned when it is a destination.
   */
  method Visitar(g: Grafo, cola: Cola<Vertex>, origen: Vertex, destino: seq<Vertex>,
                 v: Vertex, ady: seq<(Vertex, nat)>, j: int,
                 ghost visitados0: set<Vertex>, ghost items0: seq<Vertex>,
                 visitados1: set<Vertex>, padres1: map<Vertex, Option<Vertex>>,
                 orden1: map<Vertex, nat>, ghost encolados1: seq<Vertex>, ghost k: int,
                 ghost caminos1: map<Vertex, seq<Vertex>>)
    returns (encontrado: Option<Vertex>, visitados: set<Vertex>, padres: map<Vertex, Option<Vertex>>,
             orden: map<Vertex, nat>, ghost encolados: seq<Vertex>, ghost caminos: map<Vertex, seq<Vertex>>)
    requires g.Valid()
    requires Exploracion(g.adyacencias, origen, destino, v, ady, j, visitados0, items0,
                         visitados1, padres1, orden1, encolados1, k, caminos1, cola.items)
    requires j < |ady| && forall e :: e in ady ==> Adjacent(g.adyacencias, v, e.0)
    modifies cola
    ensures encontrado.None? ==>
              Exploracion(g.adyacencias, origen, destino, v, ady, j + 1, visitados0, items0,
                          visitados, padres, orden, encolados, k, caminos, cola.items)
    ensures encontrado.Some? ==>
              && Hallazgo(g.adyacencias, origen, destino, encontrado.value, visitados, padres, orden, caminos)
              && visitados0 <= visitados <= g.adyacencias.Keys + {origen}
              && 0 <= k <= |encolados| && cola.items == encolados[k..]
  {
    ghost var adj := g.adyacencias;
    visitados, padres, orden, encolados, caminos := visitados1, padres1, orden1, encolados1, caminos1;
    var w := ady[j].0;
    assert Adjacent(adj, v, w) && Adjacent(adj, w, v);
    if w !in visitados {
      if w in destino {
        HalladoEnExploracion(adj, origen, destino, v, visitados0, visitados, padres, orden,
                             encolados, k, caminos, cola.items, w);
      } else {
        DescubiertoEnExploracion(adj, origen, destino, v, ady, j, visitados0, items0,
                                 visitados, padres, orden, encolados, k, caminos, cola.items);
      }
      visitados := visitados + {w};
      padres := padres[w := Some(v)];
      orden := orden[w := orden[v] + 1];
      cola.Encolar(w);
      encolados := encolados + [w];
      caminos := caminos[w := caminos[v] + [w]];
      if w in destino {
        encontrado := Some(w);
        return;
      }
    } else {
      YaVisitado(adj, origen, v, ady, j, visitados, padres, orden, encolados, k, caminos);
    }
    encontrado := None;
  }

  /**
   * The loop of `bfs` over the neighbours of `v`, just taken out of the
   * queue; it stops at the first neighbour found that is a destination.
   */
  method ExplorarVecinos(g: Grafo, cola: Cola<Vertex>, origen: Vertex, destino: seq<Vertex>,
                         v: Vertex, visitados0: set<Vertex>, padres0: map<Vertex, Option<Vertex>>,
                         orden0: map<Vertex, nat>, ghost encolados0: seq<Vertex>, ghost k: int,
                         ghost caminos0: map<Vertex, seq<Vertex>>)
    returns (encontrado: Option<Vertex>, visitados: set<Vertex>, padres: map<Vertex, Option<Vertex>>,
             orden: map<Vertex, nat>, ghost encolados: seq<Vertex>, ghost caminos: map<Vertex, seq<Vertex>>)
    requires g.Valid()
    requires Exploracion(g.adyacencias, origen, destino, v, [], 0, visitados0, cola.items,
                         visitados0, padres0, orden0, encolados0, k, caminos0, cola.items)
    modifies cola
    ensures visitados0 <= visitados <= g.adyacencias.Keys + {origen}
    ensures 0 <= k <= |encolados| && cola.items == encolados[k..]
    ensures encontrado.None? ==>
              && Busqueda(g.adyacencias, origen, visitados, padres, orden, encolados, k, caminos)
              && SinDestino(origen, destino, visitados)
              && (visitados == visitados0 ==> cola.items == old(cola.items))
    ensures encontrado.Some? ==>
              Hallazgo(g.adyacencias, origen, destino, encontrado.value, visitados, padres, orden, caminos)
  {
    ghost var adj := g.adyacencias;
    ghost var items0 := cola.items;
    visitados, padres, orden, encolados, caminos := visitados0, padres0, orden0, encolados0, caminos0;
    var ady := g.VerAAdyacentes(v);
    assert forall e :: e in ady ==> Adjacent(adj, v, e.0) by {
      forall e | e in ady
        ensures Adjacent(adj, v, e.0)
      {
        assert Weight(adj, v, e.0) == Some(e.1);
      }
    }
    for j := 0 to |ady|
      invariant Exploracion(adj, origen, destino, v, ady, j, visitados0, items0,
                            visitados, padres, orden, encolados, k, caminos, cola.items)
    {
      encontrado, visitados, padres, orden, encolados, caminos :=
        Visitar(g, cola, origen, destino, v, ady, j, visitados0, items0,
                visitados, padres, orden, encolados, k, caminos);
      if encontrado.Some? {
        return;
      }
    }
    Explorado(adj, origen, v, ady, visitados, padres, orden, encolados, k, caminos);
    encontrado := None;
  }

  /**
   * The invariant of the main loop of `bfs`, with the queue's contents
   * `items`: the search's invariant, no destination found yet, and the
   * queue holding the vertices queued after the `k` taken out.
   */
  ghost predicate Frente(adj: Adj, origen: Vertex, destino: seq<Vertex>,
                         visitados: set<Vertex>, padres: map<Vertex, Option<Vertex>>,
                         orden: map<Vertex, nat>, encolados: seq<Vertex>, k: int,
                         caminos: map<Vertex, seq<Vertex>>, items: seq<Vertex>)
  {
    && Busqueda(adj, origen, visitados, padres, orden, encolados, k, caminos)
    && SinDestino(origen, destino, visitados)
    && visitados <= adj.Keys + {origen}
    && 0 <= k <= |encolados| && items == encolados[k..]
  }

  /** What `bfs` returns when it stops at the destination `w`. */
  lemma Hallado(adj: Adj, origen: Vertex, destino: seq<Vertex>, w: Vertex,
                visitados: set<Vertex>, padres: map<Vertex, Option<Vertex>>,
                orden: map<Vertex, nat>, caminos: map<Vertex, seq<Vertex>>)
    requires Hallazgo(adj, origen, destino, w, visitados, padres, orden, caminos)
    ensures padres.Keys == orden.Keys
    ensures origen in orden && orden[origen] == 0 && padres[origen] == None
    ensures forall x :: x in padres && x != origen ==>
              && padres[x].Some? && padres[x].value in orden
              && Adjacent(adj, padres[x].value, x)
              && orden[x] == orden[padres[x].value] + 1
    ensures forall t :: t in orden ==>
              exists p :: WalkFromTo(adj, p, origen, t) && |p| == orden[t] + 1
    ensures w in destino && w in orden && w != origen
    ensures forall x :: x in orden && x != origen && x != w ==> x !in destino
  {
    ArbolFacts(adj, origen, visitados, padres, orden, caminos);
  }

  /** What `bfs` returns when the queue runs out. */
  lemma Agotado(adj: Adj, origen: Vertex, destino: seq<Vertex>,
                visitados: set<Vertex>, padres: map<Vertex, Option<Vertex>>,
                orden: map<Vertex, nat>, encolados: seq<Vertex>, k: int,
                caminos: map<Vertex, seq<Vertex>>)
    requires Frente(adj, origen, destino, visitados, padres, orden, encolados, k, caminos, [])
    ensures padres.Keys == orden.Keys
    ensures origen in orden && orden[origen] == 0 && padres[origen] == None
    ensures forall x :: x in padres && x != origen ==>
              && padres[x].Some? && padres[x].value in orden
              && Adjacent(adj, padres[x].value, x)
              && orden[x] == orden[padres[x].value] + 1
    ensures forall t :: t in orden ==>
              exists p :: WalkFromTo(adj, p, origen, t) && |p| == orden[t] + 1
    ensures ShortestHops(adj, origen, orden)
    ensures forall x :: x in orden && x != origen ==> x !in destino
  {
    ArbolFacts(adj, origen, visitados, padres, orden, caminos);
    assert k == |encolados|;
    Terminada(adj, origen, visitados, padres, orden, encolados, caminos);
  }

  /**
   * One turn of the main loop of `bfs`: the head of the queue is taken out
   * and its neighbours explored. Either a destination is found, or the
   * invariant is kept and the search has progressed: more vertices are
   * visited, or none is and the queue is shorter.
   */
  method Ronda(g: Grafo, cola: Cola<Vertex>, origen: Vertex, destino: seq<Vertex>,
               visitados0: set<Vertex>, padres0: map<Vertex, Option<Vertex>>,
               orden0: map<Vertex, nat>, ghost encolados0: seq<Vertex>, ghost k0: int,
               ghost caminos0: map<Vertex, seq<Vertex>>)
    returns (encontrado: Option<Vertex>, visitados: set<Vertex>, padres: map<Vertex, Option<Vertex>>,
             orden: map<Vertex, nat>, ghost encolados: seq<Vertex>, ghost k: int,
             ghost caminos: map<Vertex, seq<Vertex>>)
    requires g.Valid()
    requires Frente(g.adyacencias, origen, destino, visitados0, padres0, orden0, encolados0, k0, caminos0, cola.items)
    requires cola.items != []
    modifies cola
    ensures encontrado.None? ==>
              && Frente(g.adyacencias, origen, destino, visitados, padres, orden, encolados, k, caminos, cola.items)
              && ((g.adyacencias.Keys + {origen}) - visitados < (g.adyacencias.Keys + {origen}) - visitados0
                  || (visitados == visitados0 && |cola.items| < old(|cola.items|)))
    ensures encontrado.Some? ==>
              Hallazgo(g.adyacencias, origen, destino, encontrado.value, visitados, padres, orden, caminos)
  {
    ghost var adj := g.adyacencias;
    var siguiente := cola.Desencolar();
    var v := siguiente.value;
    Desencolado(adj, origen, [], visitados0, padres0, orden0, encolados0, k0, caminos0);
    assert cola.items == encolados0[k0 + 1..];
    k := k0 + 1;
    encontrado, visitados, padres, orden, encolados, caminos :=
      ExplorarVecinos(g, cola, origen, destino, v, visitados0, padres0, orden0, encolados0, k, caminos0);
    if encontrado.None? && visitados != visitados0 {
      Progreso(adj.Keys + {origen}, visitados0, visitados);
    }
  }

  /** Visiting a vertex shrinks the set of vertices still unvisited. */
  lemma Progreso(todos: set<Vertex>, antes: set<Vertex>, despues: set<Vertex>)
    requires antes <= despues <= todos && despues != antes
    ensures todos - despues < todos - antes
  {
    var x :| x in despues && x !in antes;
    assert x in todos - antes && x !in todos - despues;
  }

  /**
   * The loop of `bfs`: the queue starts with the source alone, and turns
   * are taken until a destination is found or the queue runs out.
   */
  method Buscar(g: Grafo, origen: Vertex, destino: seq<Vertex>)
    returns (encontrado: Option<Vertex>, visitados: set<Vertex>, padres: map<Vertex, Option<Vertex>>,
             orden: map<Vertex, nat>, ghost encolados: seq<Vertex>, ghost k: int,
             ghost caminos: map<Vertex, seq<Vertex>>)
    requires g.Valid()
    ensures encontrado.Some? ==>
              Hallazgo(g.adyacencias, origen, destino, encontrado.value, visitados, padres, orden, caminos)
    ensures encontrado.None? ==>
              Frente(g.adyacencias, origen, destino, visitados, padres, orden, encolados, k, caminos, [])
  {
    ghost var adj := g.adyacencias;
    visitados := {origen};
    padres := map[origen := None];
    orden := map[origen := 0];
    var cola := new Cola<Vertex>();
    cola.Encolar(origen);
    encolados := [origen];
    k := 0;
    caminos := map[origen := [origen]];
    assert WalkFromTo(adj, [origen], origen, origen);
    var vacia := cola.EstaVacia();
    assert Frente(adj, origen, destino, visitados, padres, orden, encolados, k, caminos, cola.items);
    while !vacia
      invariant Frente(adj, origen, destino, visitados, padres, orden, encolados, k, caminos, cola.items)
      invariant vacia <==> cola.items == []
      decreases (adj.Keys + {origen}) - visitados, |cola.items|
    {
      encontrado, visitados, padres, orden, encolados, k, caminos :=
        Ronda(g, cola, origen, destino, visitados, padres, orden, encolados, k, caminos);
      if encontrado.Some? {
        return;
      }
      vacia := cola.EstaVacia();
    }
    encontrado := None;
  }

  /**
   * `bfs(grafo, origen, destino)`: the first destination discovered (None
   * when the search runs out), the parent map and the level map. Levels go
   * up by one from parent to child; a returned vertex is a destination, the
   * only one visited besides possibly the source; when none is returned, the
   * visited vertices are exactly the reachable ones and their levels are
   * the fewest edges needed to reach them.
   */
  method Bfs(g: Grafo, origen: Vertex, destino: seq<Vertex>)
    returns (encontrado: Option<Vertex>, padres: map<Vertex, Option<Vertex>>, orden: map<Vertex, nat>)
    requires g.Valid()
    ensures padres.Keys == orden.Keys
    ensures origen in orden && orden[origen] == 0 && padres[origen] == None
    ensures forall x :: x in padres && x != origen ==>
              && padres[x].Some? && padres[x].value in orden
              && Adjacent(g.adyacencias, padres[x].value, x)
              && orden[x] == orden[padres[x].value] + 1
    ensures forall t :: t in orden ==>
              exists p :: WalkFromTo(g.adyacencias, p, origen, t) && |p| == orden[t] + 1
    ensures encontrado.Some? ==>
              && encontrado.value in destino && encontrado.value in orden && encontrado.value != origen
              && forall x :: x in orden && x != origen && x != encontrado.value ==> x !in destino
    ensures encontrado.None? ==>
              && ShortestHops(g.adyacencias, origen, orden)
              && forall x :: x in orden && x != origen ==> x !in destino
  {
    var visitados: set<Vertex>;
    ghost var encolados, k, caminos;
    encontrado, visitados, padres, orden, encolados, k, caminos := Buscar(g, origen, destino);
    if encontrado.Some? {
      Hallado(g.adyacencias, origen, destino, encontrado.value, visitados, padres, orden, caminos);
    } else {
      Agotado(g.adyacencias, origen, destino, visitados, padres, orden, encolados, k, caminos);
    }
  }
}
