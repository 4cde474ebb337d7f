/**
 * `dijkstra`: single-source shortest distances with a lazy-deletion heap.
 * Every entry popped from the heap is processed again with its vertex's
 * current distance, stale or not; the loop ends only when the heap is empty.
 */
module CaminoMinimo {
  import opened Wrappers
  import opened Listas
  import opened GraphModel
  import opened Heap
  import opened Grafos

  /** A distance: `float('inf')` or a finite sum of weights. */
  datatype Dist = Inf | Fin(n: nat)

  /** `a <= b`, infinity being the largest distance. */
  predicate AtMost(a: Dist, b: Dist)
  {
    b.Inf? || (a.Fin? && a.n <= b.n)
  }

  /** `n < d`, the comparison that decides a relaxation. */
  predicate Shorter(n: nat, d: Dist)
  {
    d.Inf? || n < d.n
  }

  /** Every edge leaving `u` is relaxed: going through `u` shortens nothing. */
  ghost predicate Relaxed(adj: Adj, dist: map<Vertex, Dist>, u: Vertex)
  {
    && u in dist && dist[u].Fin?
    && forall w :: Adjacent(adj, u, w) ==> w in dist && AtMost(dist[w], Fin(dist[u].n + adj[u][w]))
  }

  /** The triangle inequality over every edge leaving a vertex at finite distance. */
  ghost predicate Triangle(adj: Adj, dist: map<Vertex, Dist>)
  {
    forall u :: u in dist && dist[u].Fin? ==> Relaxed(adj, dist, u)
  }

  /**
   * The parent map: exactly the vertices at finite distance have a parent,
   * the source's is None, and every other parent is a neighbour that is no
   * farther than the distance minus the edge's weight.
   */
  ghost predicate ParentEdges(adj: Adj, origen: Vertex, dist: map<Vertex, Dist>,
                              padre: map<Vertex, Option<Vertex>>)
  {
    && (forall w :: w in padre <==> w in dist && dist[w].Fin?)
    && origen in padre && padre[origen] == None
    && forall w {:trigger padre[w]} :: w in padre && w != origen ==>
         && w in dist && dist[w].Fin?
         && padre[w].Some? && padre[w].value in dist && dist[padre[w].value].Fin?
         && Adjacent(adj, padre[w].value, w)
         && dist[padre[w].value].n + adj[padre[w].value][w] <= dist[w].n
  }

  /** Each finite distance is the weight of a walk from the source, kept in `caminos`. */
  ghost predicate Witnessed(adj: Adj, origen: Vertex, dist: map<Vertex, Dist>,
                            caminos: map<Vertex, seq<Vertex>>)
  {
    forall w :: w in dist && dist[w].Fin? ==>
      && w in caminos && WalkFromTo(adj, caminos[w], origen, w)
      && WalkWeight(adj, caminos[w]) == dist[w].n
  }

  /** Each heap entry names a vertex at finite distance no larger than the entry's key. */
  ghost predicate InHeap(dist: map<Vertex, Dist>, heap: multiset<(nat, Vertex)>)
  {
    forall e :: e in heap ==> e.1 in dist && dist[e.1].Fin? && dist[e.1].n <= e.0
  }

  /** Every vertex at finite distance, outside `skip`, is relaxed or still queued at that distance. */
  ghost predicate Pending(adj: Adj, dist: map<Vertex, Dist>, heap: multiset<(nat, Vertex)>,
                          skip: set<Vertex>)
  {
    forall u :: u in dist && dist[u].Fin? && u !in skip ==>
      (dist[u].n, u) in heap || Relaxed(adj, dist, u)
  }

  /**
   * `dist_llegada` holds the destinations present in the graph; each has the
   * distance found for it, except the source, whose entry is never updated.
   */
  ghost predicate Llegada(adj: Adj, destino: seq<Vertex>, origen: Vertex,
                          dist: map<Vertex, Dist>, dl: map<Vertex, Dist>)
  {
    && dl.Keys == (set v | v in adj && v in destino)
    && forall v :: v in dl ==> v in dist && dl[v] == (if v == origen then Inf else dist[v])
  }

  /**
   * The distances are the shortest: a vertex has a finite distance exactly
   * when it is reachable, that distance is the weight of some walk from the
   * source and no walk from the source is lighter.
   */
  ghost predicate ShortestDistances(adj: Adj, origen: Vertex, dist: map<Vertex, Dist>)
  {
    && (forall t :: t in dist ==> (dist[t].Fin? <==> Reachable(adj, origen, t)))
    && (forall t :: t in dist && dist[t].Fin? ==>
          exists p :: WalkFromTo(adj, p, origen, t) && WalkWeight(adj, p) == dist[t].n)
    && (forall t, p :: t in dist && dist[t].Fin? && WalkFromTo(adj, p, origen, t) ==>
          dist[t].n <= WalkWeight(adj, p))
  }

  // ----- termination measure -----

  /** How many of the listed vertices are still at infinite distance. */
  ghost function CountInf(d: map<Vertex, Dist>, ks: seq<Vertex>): nat
    requires forall k :: k in ks ==> k in d
  {
    if ks == [] then 0 else (if d[ks[0]].Inf? then 1 else 0) + CountInf(d, ks[1..])
  }

  /** The sum of the listed vertices' finite distances. */
  ghost function SumFin(d: map<Vertex, Dist>, ks: seq<Vertex>): nat
    requires forall k :: k in ks ==> k in d
  {
    if ks == [] then 0 else (if d[ks[0]].Fin? then d[ks[0]].n else 0) + SumFin(d, ks[1..])
  }

  /**
   * Lowering distances never raises the measure (count of infinite
   * distances, then sum of finite ones), and lowers it when some distance changed.
   */
  lemma {:induction false} MeasureDecreases(d0: map<Vertex, Dist>, d: map<Vertex, Dist>,
                                            ks: seq<Vertex>, w: Vertex)
    requires forall k :: k in ks ==> k in d && k in d0 && AtMost(d[k], d0[k])
    ensures CountInf(d, ks) <= CountInf(d0, ks)
    ensures CountInf(d, ks) == CountInf(d0, ks) ==> SumFin(d, ks) <= SumFin(d0, ks)
    ensures CountInf(d, ks) == CountInf(d0, ks) && w in ks && d[w] != d0[w] ==>
              SumFin(d, ks) < SumFin(d0, ks)
  {
    if ks != [] {
      MeasureDecreases(d0, d, ks[1..], w);
      assert w in ks ==> w == ks[0] || w in ks[1..];
    }
  }

  /**
   * One round of the main loop (pop, then relax) lowers the measure: either
   * some distance went down, or the heap lost the popped entry.
   */
  lemma StepDecreases(dist0: map<Vertex, Dist>, heap0: multiset<(nat, Vertex)>,
                      resto: multiset<(nat, Vertex)>,
                      dist: map<Vertex, Dist>, heap: multiset<(nat, Vertex)>, ks: seq<Vertex>)
    requires Elems(ks) == dist0.Keys && |resto| < |heap0|
    requires Improves(dist0, resto, dist, heap)
    ensures Elems(ks) == dist.Keys
    ensures || CountInf(dist, ks) < CountInf(dist0, ks)
            || (CountInf(dist, ks) == CountInf(dist0, ks) && SumFin(dist, ks) < SumFin(dist0, ks))
            || (CountInf(dist, ks) == CountInf(dist0, ks) && SumFin(dist, ks) == SumFin(dist0, ks)
                && |heap| < |heap0|)
  {
    if dist != dist0 {
      var k :| k in dist0 && dist[k] != dist0[k];
      MeasureDecreases(dist0, dist, ks, k);
    }
  }

  // ----- one relaxation -----

  /** Lowering `w`'s distance to `nueva` through its neighbour `v` keeps the parent map valid. */
  lemma RelaxParents(adj: Adj, origen: Vertex, dist: map<Vertex, Dist>,
                     padre: map<Vertex, Option<Vertex>>, v: Vertex, w: Vertex, nueva: nat)
    requires ParentEdges(adj, origen, dist, padre)
    requires v in dist && dist[v].Fin? && Adjacent(adj, v, w) && w in dist
    requires nueva == dist[v].n + adj[v][w] && Shorter(nueva, dist[w]) && w != origen
    ensures ParentEdges(adj, origen, dist[w := Fin(nueva)], padre[w := Some(v)])
  {
    var dist', padre' := dist[w := Fin(nueva)], padre[w := Some(v)];
    forall u | u in padre' && u != origen
      ensures dist'[padre'[u].value].n + adj[padre'[u].value][u] <= dist'[u].n
    {
      if u != w && padre[u].value == w {
        assert dist'[w].n <= dist[w].n;
      }
    }
  }

  /** The same relaxation keeps every finite distance witnessed by a walk. */
  lemma RelaxWitness(adj: Adj, origen: Vertex, dist: map<Vertex, Dist>,
                     caminos: map<Vertex, seq<Vertex>>, v: Vertex, w: Vertex, nueva: nat)
    requires Witnessed(adj, origen, dist, caminos)
    requires v in dist && dist[v].Fin? && Adjacent(adj, v, w)
    requires nueva == dist[v].n + adj[v][w]
    ensures Witnessed(adj, origen, dist[w := Fin(nueva)], caminos[w := caminos[v] + [w]])
  {
    WalkExtend(adj, caminos[v], w);
  }

  /** The same relaxation, with `(nueva, w)` pushed, keeps the heap and the pending vertices in order. */
  lemma RelaxQueue(adj: Adj, dist: map<Vertex, Dist>, heap: multiset<(nat, Vertex)>,
                   skip: set<Vertex>, w: Vertex, nueva: nat)
    requires InHeap(dist, heap) && Pending(adj, dist, heap, skip)
    requires w in dist && Shorter(nueva, dist[w])
    ensures InHeap(dist[w := Fin(nueva)], heap + multiset{(nueva, w)})
    ensures Pending(adj, dist[w := Fin(nueva)], heap + multiset{(nueva, w)}, skip)
  {
    var dist', heap' := dist[w := Fin(nueva)], heap + multiset{(nueva, w)};
    forall u | u in dist' && dist'[u].Fin? && u !in skip && u != w
      ensures (dist'[u].n, u) in heap' || Relaxed(adj, dist', u)
    {
      if (dist[u].n, u) !in heap {
        assert Relaxed(adj, dist, u);
        forall x | Adjacent(adj, u, x)
          ensures AtMost(dist'[x], Fin(dist'[u].n + adj[u][x]))
        {
        }
      }
    }
  }

  // ----- the state of the algorithm between steps -----

  /**
   * What holds of `dist`, `padre`, `dist_llegada` and the heap between steps:
   * the vertices in `skip` may still have edges waiting to be relaxed
   * without being queued.
   */
  ghost predicate Estado(adj: Adj, origen: Vertex, destino: seq<Vertex>,
                         dist: map<Vertex, Dist>, padre: map<Vertex, Option<Vertex>>,
                         dl: map<Vertex, Dist>, heap: multiset<(nat, Vertex)>,
                         caminos: map<Vertex, seq<Vertex>>, skip: set<Vertex>)
  {
    && dist.Keys == adj.Keys + {origen} && dist[origen] == Fin(0)
    && ParentEdges(adj, origen, dist, padre)
    && Witnessed(adj, origen, dist, caminos)
    && InHeap(dist, heap) && Pending(adj, dist, heap, skip)
    && Llegada(adj, destino, origen, dist, dl)
  }

  /** Distances only went down since `dist0`, and the heap is `heap0` if none changed. */
  ghost predicate Improves(dist0: map<Vertex, Dist>, heap0: multiset<(nat, Vertex)>,
                           dist: map<Vertex, Dist>, heap: multiset<(nat, Vertex)>)
  {
    && dist.Keys == dist0.Keys
    && (forall k :: k in dist0 ==> AtMost(dist[k], dist0[k]))
    && (dist == dist0 ==> heap == heap0)
  }

  /** The first `j` neighbours listed in `ady` are no farther than through `v` at distance `dv`. */
  ghost predicate RelaxedUpTo(adj: Adj, v: Vertex, dv: nat, dist: map<Vertex, Dist>,
                              ady: seq<(Vertex, nat)>, j: int)
  {
    && 0 <= j <= |ady|
    && forall k :: 0 <= k < j ==>
         && Adjacent(adj, v, ady[k].0) && ady[k].0 in dist
         && AtMost(dist[ady[k].0], Fin(dv + adj[v][ady[k].0]))
  }

  /** Removing `(d, v)` from the heap leaves every other vertex's queued entry in place. */
  lemma PopKeeps(adj: Adj, origen: Vertex, destino: seq<Vertex>,
                 dist: map<Vertex, Dist>, padre: map<Vertex, Option<Vertex>>,
                 dl: map<Vertex, Dist>, heap: multiset<(nat, Vertex)>,
                 caminos: map<Vertex, seq<Vertex>>, e: (nat, Vertex))
    requires Estado(adj, origen, destino, dist, padre, dl, heap, caminos, {}) && e in heap
    ensures Estado(adj, origen, destino, dist, padre, dl, heap - multiset{e}, caminos, {e.1})
    ensures e.1 in dist && dist[e.1].Fin?
  {
    var heap' := heap - multiset{e};
    forall u | u in dist && dist[u].Fin? && u != e.1 && (dist[u].n, u) in heap
      ensures (dist[u].n, u) in heap'
    {
      assert (dist[u].n, u) != e;
    }
  }

  /** Relaxing a neighbour `w` of `v` to `nueva` keeps the state valid. */
  lemma RelaxStep(adj: Adj, origen: Vertex, destino: seq<Vertex>,
                  dist: map<Vertex, Dist>, padre: map<Vertex, Option<Vertex>>,
                  dl: map<Vertex, Dist>, heap: multiset<(nat, Vertex)>,
                  caminos: map<Vertex, seq<Vertex>>, v: Vertex, w: Vertex, nueva: nat)
    requires Estado(adj, origen, destino, dist, padre, dl, heap, caminos, {v})
    requires v in dist && dist[v].Fin? && Adjacent(adj, v, w) && w in dist
    requires nueva == dist[v].n + adj[v][w] && Shorter(nueva, dist[w])
    ensures Estado(adj, origen, destino, dist[w := Fin(nueva)], padre[w := Some(v)],
                   if w in destino then dl[w := Fin(nueva)] else dl,
                   heap + multiset{(nueva, w)}, caminos[w := caminos[v] + [w]], {v})
  {
    assert w != origen;
    RelaxParents(adj, origen, dist, padre, v, w, nueva);
    RelaxWitness(adj, origen, dist, caminos, v, w, nueva);
    RelaxQueue(adj, dist, heap, {v}, w, nueva);
    RelaxLlegada(adj, origen, destino, dist, dl, w, nueva);
  }

  /** The same relaxation keeps `dist_llegada` in step with `dist`. */
  lemma RelaxLlegada(adj: Adj, origen: Vertex, destino: seq<Vertex>,
                     dist: map<Vertex, Dist>, dl: map<Vertex, Dist>, w: Vertex, nueva: nat)
    requires Llegada(adj, destino, origen, dist, dl)
    requires w in adj && w != origen
    ensures Llegada(adj, destino, origen, dist[w := Fin(nueva)],
                    if w in destino then dl[w := Fin(nueva)] else dl)
  {
  }

  /** Lowering one distance strictly moves the distances away from `dist0`. */
  lemma ImprovesStep(dist0: map<Vertex, Dist>, heap0: multiset<(nat, Vertex)>,
                     dist: map<Vertex, Dist>, heap: multiset<(nat, Vertex)>, w: Vertex, nueva: nat)
    requires Improves(dist0, heap0, dist, heap) && w in dist && Shorter(nueva, dist[w])
    ensures Improves(dist0, heap0, dist[w := Fin(nueva)], heap + multiset{(nueva, w)})
  {
    assert AtMost(dist[w], dist0[w]);
    assert dist[w := Fin(nueva)][w] != dist0[w];
  }

  /**
   * The invariant of the inner loop: the state is valid except that `v` may
   * still be unrelaxed, `v` keeps distance `dv`, distances only went down
   * since `dist0`, and the first `j` listed neighbours are relaxed.
   */
  ghost predicate Vuelta(adj: Adj, origen: Vertex, destino: seq<Vertex>,
                         v: Vertex, dv: nat, dist0: map<Vertex, Dist>, heap0: multiset<(nat, Vertex)>,
                         ady: seq<(Vertex, nat)>, j: int,
                         dist: map<Vertex, Dist>, padre: map<Vertex, Option<Vertex>>,
                         dl: map<Vertex, Dist>, heap: multiset<(nat, Vertex)>,
                         caminos: map<Vertex, seq<Vertex>>)
  {
    && Estado(adj, origen, destino, dist, padre, dl, heap, caminos, {v})
    && v in dist && dist[v] == Fin(dv)
    && Improves(dist0, heap0, dist, heap)
    && RelaxedUpTo(adj, v, dv, dist, ady, j)
  }

  /** Relaxing the `j`-th listed neighbour `w` advances the inner loop's invariant. */
  lemma RelaxVuelta(adj: Adj, origen: Vertex, destino: seq<Vertex>,
                    v: Vertex, dv: nat, dist0: map<Vertex, Dist>, heap0: multiset<(nat, Vertex)>,
                    ady: seq<(Vertex, nat)>, j: int,
                    dist: map<Vertex, Dist>, padre: map<Vertex, Option<Vertex>>,
                    dl: map<Vertex, Dist>, heap: multiset<(nat, Vertex)>,
                    caminos: map<Vertex, seq<Vertex>>, w: Vertex, nueva: nat)
    requires Vuelta(adj, origen, destino, v, dv, dist0, heap0, ady, j, dist, padre, dl, heap, caminos)
    requires j < |ady| && w == ady[j].0 && Adjacent(adj, v, w) && w in dist
    requires nueva == dv + adj[v][w] && Shorter(nueva, dist[w])
    ensures Vuelta(adj, origen, destino, v, dv, dist0, heap0, ady, j + 1,
                   dist[w := Fin(nueva)], padre[w := Some(v)],
                   if w in destino then dl[w := Fin(nueva)] else dl,
                   heap + multiset{(nueva, w)}, caminos[w := caminos[v] + [w]])
  {
    assert w != v;
    RelaxStep(adj, origen, destino, dist, padre, dl, heap, caminos, v, w, nueva);
    ImprovesStep(dist0, heap0, dist, heap, w, nueva);
    RelaxedUpToStep(adj, v, dv, dist, ady, j, nueva);
  }

  /** Lowering the `j`-th neighbour to its distance through `v` extends the relaxed prefix. */
  lemma RelaxedUpToStep(adj: Adj, v: Vertex, dv: nat, dist: map<Vertex, Dist>,
                        ady: seq<(Vertex, nat)>, j: int, nueva: nat)
    requires RelaxedUpTo(adj, v, dv, dist, ady, j)
    requires j < |ady| && Adjacent(adj, v, ady[j].0) && ady[j].0 in dist
    requires nueva == dv + adj[v][ady[j].0] && Shorter(nueva, dist[ady[j].0])
    ensures RelaxedUpTo(adj, v, dv, dist[ady[j].0 := Fin(nueva)], ady, j + 1)
  {
    var w := ady[j].0;
    var dist' := dist[w := Fin(nueva)];
    forall k | 0 <= k < j + 1
      ensures AtMost(dist'[ady[k].0], Fin(dv + adj[v][ady[k].0]))
    {
      if k < j && ady[k].0 != w {
        assert dist'[ady[k].0] == dist[ady[k].0];
      }
    }
  }

  /** Leaving the `j`-th neighbour alone is right when going through `v` does not shorten it. */
  lemma SkipStep(adj: Adj, v: Vertex, dv: nat, dist: map<Vertex, Dist>,
                 ady: seq<(Vertex, nat)>, j: int, nueva: nat)
    requires RelaxedUpTo(adj, v, dv, dist, ady, j)
    requires j < |ady| && Adjacent(adj, v, ady[j].0) && ady[j].0 in dist
    requires nueva == dv + adj[v][ady[j].0] && !Shorter(nueva, dist[ady[j].0])
    ensures RelaxedUpTo(adj, v, dv, dist, ady, j + 1)
  {
  }

  /** Once every listed neighbour is done, `v` is relaxed and no vertex is left out of the heap. */
  lemma NeighboursDone(adj: Adj, origen: Vertex, destino: seq<Vertex>,
                       dist: map<Vertex, Dist>, padre: map<Vertex, Option<Vertex>>,
                       dl: map<Vertex, Dist>, heap: multiset<(nat, Vertex)>,
                       caminos: map<Vertex, seq<Vertex>>,
                       v: Vertex, dv: nat, ady: seq<(Vertex, nat)>)
    requires Estado(adj, origen, destino, dist, padre, dl, heap, caminos, {v})
    requires v in dist && dist[v] == Fin(dv)
    requires RelaxedUpTo(adj, v, dv, dist, ady, |ady|)
    requires v in adj ==> ListsItems(adj[v], ady)
    ensures Estado(adj, origen, destino, dist, padre, dl, heap, caminos, {})
  {
    forall x | Adjacent(adj, v, x)
      ensures x in dist && AtMost(dist[x], Fin(dv + adj[v][x]))
    {
      assert (x, adj[v][x]) in ady;
    }
    assert Relaxed(adj, dist, v);
  }

  // ----- what the final state means -----

  /** Under the triangle inequality no walk from the source is lighter than its end's distance. */
  lemma {:induction false} WalkBound(adj: Adj, origen: Vertex, dist: map<Vertex, Dist>, p: seq<Vertex>)
    requires Triangle(adj, dist) && origen in dist && dist[origen] == Fin(0)
    requires IsWalk(adj, p) && p[0] == origen
    ensures p[|p| - 1] in dist && dist[p[|p| - 1]].Fin?
    ensures dist[p[|p| - 1]].n <= WalkWeight(adj, p)
    decreases |p|
  {
    if |p| > 1 {
      var q := p[..|p| - 1];
      assert IsWalk(adj, q);
      WalkBound(adj, origen, dist, q);
      assert Adjacent(adj, q[|q| - 1], p[|p| - 1]);
      WalkExtend(adj, q, p[|p| - 1]);
      assert q + [p[|p| - 1]] == p;
      assert Relaxed(adj, dist, q[|q| - 1]);
    }
  }

  /** Distances that satisfy the triangle inequality and are each witnessed by a walk are the shortest. */
  lemma TriangleGivesShortest(adj: Adj, origen: Vertex, dist: map<Vertex, Dist>,
                              caminos: map<Vertex, seq<Vertex>>)
    requires Triangle(adj, dist) && origen in dist && dist[origen] == Fin(0)
    requires Witnessed(adj, origen, dist, caminos)
    ensures ShortestDistances(adj, origen, dist)
  {
    forall t, p | t in dist && WalkFromTo(adj, p, origen, t)
      ensures dist[t].Fin? && dist[t].n <= WalkWeight(adj, p)
    {
      WalkBound(adj, origen, dist, p);
    }
    forall t | t in dist && dist[t].Fin?
      ensures WalkFromTo(adj, caminos[t], origen, t) && WalkWeight(adj, caminos[t]) == dist[t].n
    {
    }
  }

  // ----- the algorithm -----

  /**
   * One turn of the inner loop of `dijkstra`: the `j`-th neighbour `w` of
   * `v` gets distance `dv + ver_peso(w, v)`, parent `v` and a heap entry
   * when that is shorter than what it has.
   */
  method RelajarArista(g: Grafo, origen: Vertex, destino: seq<Vertex>,
                       v: Vertex, dv: nat, ghost dist0: map<Vertex, Dist>,
                       ghost heap0: multiset<(nat, Vertex)>, ady: seq<(Vertex, nat)>, j: int,
                       dist1: map<Vertex, Dist>, padre1: map<Vertex, Option<Vertex>>,
                       dl1: map<Vertex, Dist>, heap1: multiset<(nat, Vertex)>,
                       ghost caminos1: map<Vertex, seq<Vertex>>)
    returns (dist: map<Vertex, Dist>, padre: map<Vertex, Option<Vertex>>, distLlegada: map<Vertex, Dist>,
             heap: multiset<(nat, Vertex)>, ghost caminos: map<Vertex, seq<Vertex>>)
    requires g.Valid()
    requires Vuelta(g.adyacencias, origen, destino, v, dv, dist0, heap0, ady, j,
                    dist1, padre1, dl1, heap1, caminos1)
    requires 0 <= j < |ady| && Adjacent(g.adyacencias, v, ady[j].0)
    ensures Vuelta(g.adyacencias, origen, destino, v, dv, dist0, heap0, ady, j + 1,
                   dist, padre, distLlegada, heap, caminos)
  {
    ghost var adj := g.adyacencias;
    dist, padre, distLlegada, heap, caminos := dist1, padre1, dl1, heap1, caminos1;
    var w := ady[j].0;
    WeightSymmetric(adj, v, w);
    var peso := g.VerPeso(w, v);
    var nueva := dv + peso.value;
    if Shorter(nueva, dist[w]) {
      var entrada: (nat, Vertex) := (nueva, w);
      RelaxVuelta(adj, origen, destino, v, dv, dist0, heap0, ady, j,
                  dist, padre, distLlegada, heap, caminos, w, nueva);
      dist := dist[w := Fin(nueva)];
      if w in destino {
        distLlegada := distLlegada[w := dist[w]];
      }
      padre := padre[w := Some(v)];
      heap := heap + multiset{entrada};
      caminos := caminos[w := caminos[v] + [w]];
    } else {
      SkipStep(adj, v, dv, dist, ady, j, nueva);
    }
  }

  /**
   * The inner loop of `dijkstra`: relaxes every edge leaving the popped
   * vertex `v`, whose distance is `dv`, reading each weight with `ver_peso`.
   * Afterwards no vertex is left unrelaxed outside the heap and distances
   * only went down; when none changed, nothing was pushed.
   */
  method RelajarVecinos(g: Grafo, origen: Vertex, destino: seq<Vertex>, v: Vertex, dv: nat,
                        dist0: map<Vertex, Dist>, padre0: map<Vertex, Option<Vertex>>,
                        dl0: map<Vertex, Dist>, heap0: multiset<(nat, Vertex)>,
                        ghost caminos0: map<Vertex, seq<Vertex>>)
    returns (dist: map<Vertex, Dist>, padre: map<Vertex, Option<Vertex>>, distLlegada: map<Vertex, Dist>,
             heap: multiset<(nat, Vertex)>, ghost caminos: map<Vertex, seq<Vertex>>)
    requires g.Valid()
    requires Estado(g.adyacencias, origen, destino, dist0, padre0, dl0, heap0, caminos0, {v})
    requires v in dist0 && dist0[v] == Fin(dv)
    ensures Estado(g.adyacencias, origen, destino, dist, padre, distLlegada, heap, caminos, {})
    ensures Improves(dist0, heap0, dist, heap)
  {
    ghost var adj := g.adyacencias;
    dist, padre, distLlegada, heap, caminos := dist0, padre0, dl0, heap0, caminos0;
    var ady := g.VerAAdyacentes(v);
    for j := 0 to |ady|
      invariant Vuelta(adj, origen, destino, v, dv, dist0, heap0, ady, j,
                       dist, padre, distLlegada, heap, caminos)
    {
      assert Adjacent(adj, v, ady[j].0);
      dist, padre, distLlegada, heap, caminos :=
        RelajarArista(g, origen, destino, v, dv, dist0, heap0, ady, j,
                      dist, padre, distLlegada, heap, caminos);
    }
    NeighboursDone(adj, origen, destino, dist, padre, distLlegada, heap, caminos, v, dv, ady);
  }

  /**
   * `dijkstra(grafo, origen, destino)`: the parent map, the distance map and
   * the distances of the destinations. The distances are the shortest ones,
   * every parent edge lies on a shortest walk, and the triangle inequality
   * holds on every edge.
   */
  method Dijkstra(g: Grafo, origen: Vertex, destino: seq<Vertex>)
    returns (padre: map<Vertex, Option<Vertex>>, dist: map<Vertex, Dist>, distLlegada: map<Vertex, Dist>)
    requires g.Valid()
    ensures dist.Keys == g.adyacencias.Keys + {origen}
    ensures dist[origen] == Fin(0)
    ensures ShortestDistances(g.adyacencias, origen, dist)
    ensures Triangle(g.adyacencias, dist)
    ensures ParentEdges(g.adyacencias, origen, dist, padre)
    ensures forall w :: w in padre && w != origen ==>
              dist[padre[w].value].n + g.adyacencias[padre[w].value][w] == dist[w].n
    ensures Llegada(g.adyacencias, destino, origen, dist, distLlegada)
  {
    ghost var adj := g.adyacencias;
    var vs := g.VerVertices();
    dist, distLlegada := Inicializar(vs, destino);
    dist := dist[origen := Fin(0)];
    padre := map[origen := None];
    var heap: multiset<(nat, Vertex)> := multiset{(0, origen)};
    ghost var caminos: map<Vertex, seq<Vertex>> := map[origen := [origen]];
    ghost var ks := vs + [origen];
    InitialState(adj, origen, destino, vs, dist, distLlegada);
    while |heap| > 0
      invariant Estado(adj, origen, destino, dist, padre, distLlegada, heap, caminos, {})
      invariant Elems(ks) == dist.Keys
      decreases CountInf(dist, ks), SumFin(dist, ks), |heap|
    {
      ghost var dist0, heap0 := dist, heap;
      var arista, resto := PopMin(heap);
      PopKeeps(adj, origen, destino, dist, padre, distLlegada, heap, caminos, arista);
      heap := resto;
      var v := arista.1;
      var dv := dist[v].n;
      dist, padre, distLlegada, heap, caminos :=
        RelajarVecinos(g, origen, destino, v, dv, dist, padre, distLlegada, heap, caminos);
      StepDecreases(dist0, heap0, resto, dist, heap, ks);
    }
    FinalState(adj, origen, destino, dist, padre, distLlegada, caminos);
  }

  /** The state right after the first loop, with the source at distance 0 and queued. */
  lemma InitialState(adj: Adj, origen: Vertex, destino: seq<Vertex>, vs: seq<Vertex>,
                     dist: map<Vertex, Dist>, dl: map<Vertex, Dist>)
    requires ListsKeys(adj.Keys, vs)
    requires dist.Keys == Elems(vs) + {origen} && dist[origen] == Fin(0)
    requires forall v :: v in dist && v != origen ==> dist[v] == Inf
    requires dl.Keys == (set v | v in vs && v in destino)
    requires forall v :: v in dl ==> dl[v] == Inf
    ensures Estado(adj, origen, destino, dist, map[origen := None], dl, multiset{(0, origen)},
                   map[origen := [origen]], {})
    ensures Elems(vs + [origen]) == dist.Keys
  {
    assert WalkFromTo(adj, [origen], origen, origen);
    assert Elems(vs + [origen]) == Elems(vs) + {origen};
  }

  /** With nothing left in the heap, the state says what `dijkstra` promises. */
  lemma FinalState(adj: Adj, origen: Vertex, destino: seq<Vertex>,
                   dist: map<Vertex, Dist>, padre: map<Vertex, Option<Vertex>>,
                   dl: map<Vertex, Dist>, caminos: map<Vertex, seq<Vertex>>)
    requires Estado(adj, origen, destino, dist, padre, dl, multiset{}, caminos, {})
    ensures dist.Keys == adj.Keys + {origen}
    ensures dist[origen] == Fin(0)
    ensures ShortestDistances(adj, origen, dist)
    ensures Triangle(adj, dist)
    ensures ParentEdges(adj, origen, dist, padre)
    ensures forall w :: w in padre && w != origen ==>
              dist[padre[w].value].n + adj[padre[w].value][w] == dist[w].n
    ensures Llegada(adj, destino, origen, dist, dl)
  {
    forall u | u in dist && dist[u].Fin?
      ensures Relaxed(adj, dist, u)
    {
      assert (dist[u].n, u) !in multiset{};
    }
    forall w | w in padre && w != origen
      ensures dist[padre[w].value].n + adj[padre[w].value][w] == dist[w].n
    {
      assert Relaxed(adj, dist, padre[w].value);
    }
    TriangleGivesShortest(adj, origen, dist, caminos);
  }

  /** The first loop of `dijkstra`: every vertex starts at infinity, and so does every destination present. */
  method Inicializar(vs: seq<Vertex>, destino: seq<Vertex>)
    returns (dist: map<Vertex, Dist>, distLlegada: map<Vertex, Dist>)
    ensures dist.Keys == Elems(vs) && forall v :: v in dist ==> dist[v] == Inf
    ensures distLlegada.Keys == (set v | v in vs && v in destino)
    ensures forall v :: v in distLlegada ==> distLlegada[v] == Inf
  {
    dist := map[];
    distLlegada := map[];
    for i := 0 to |vs|
      invariant dist.Keys == Elems(vs[..i])
      invariant forall v :: v in dist ==> dist[v] == Inf
      invariant distLlegada.Keys == (set v | v in vs[..i] && v in destino)
      invariant forall v :: v in distLlegada ==> distLlegada[v] == Inf
    {
      assert vs[..i + 1] == vs[..i] + [vs[i]];
      dist := dist[vs[i] := Inf];
      if vs[i] in destino {
        distLlegada := distLlegada[vs[i] := Inf];
      }
    }
    assert vs[..|vs|] == vs;
  }
}
