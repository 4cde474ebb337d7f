/**
 * `centralidad_betweeness`: for every source, the shortest-path tree of
 * `dijkstra` is walked from the farthest vertex back to the source, and
 * every vertex passes one plus its own accumulated count to its parent;
 * each vertex's score is the sum, over the sources other than itself, of
 * what it accumulated.
 */
module Centralidad {
  import opened Wrappers
  import opened Listas
  import opened GraphModel
  import opened Ordenamiento
  import opened CaminoMinimo
  import opened Grafos

  /** Every edge weighs more than nothing. */
  ghost predicate Positivos(adj: Adj)
  {
    forall x, y :: Adjacent(adj, x, y) ==> adj[x][y] > 0
  }

  /** The finite distances as numbers. */
  ghost function DistNat(dist: map<Vertex, Dist>): (r: map<Vertex, nat>)
    ensures r.Keys == dist.Keys
  {
    map x | x in dist :: if dist[x].Fin? then dist[x].n else 0
  }

  /** A finite distance as a number; an infinite one never occurs in a connected graph. */
  function Numero(d: Dist): nat
  {
    if d.Fin? then d.n else 0
  }

  /** `m[x]`, with 0 for an absent key. */
  function Get(m: map<Vertex, nat>, x: Vertex): nat
  {
    if x in m then m[x] else 0
  }

  /** What the listed vertex `y` passes to `x`: one plus its own count if `x` is its parent. */
  function Termino(padre: map<Vertex, Option<Vertex>>, aux: map<Vertex, nat>, y: Vertex, x: Vertex): nat
  {
    if y in padre && padre[y] == Some(x) then 1 + Get(aux, y) else 0
  }

  /** What the vertices listed in `l` pass to `x`: one plus its count for each child of `x`. */
  ghost function Aporte(padre: map<Vertex, Option<Vertex>>, aux: map<Vertex, nat>,
                        l: seq<(Vertex, nat)>, x: Vertex): nat
  {
    if l == [] then 0 else Termino(padre, aux, l[0].0, x) + Aporte(padre, aux, l[1..], x)
  }

  /** No listed vertex has its parent at its own place or after it. */
  ghost predicate PadresAntes(l: seq<(Vertex, nat)>, padre: map<Vertex, Option<Vertex>>)
  {
    forall m, k :: 0 <= m <= k < |l| && l[m].0 in padre ==> padre[l[m].0] != Some(l[k].0)
  }

  /**
   * The shortest-path tree `dijkstra` returns for the source `v` in a
   * connected graph: every vertex at a finite distance no walk from `v`
   * undercuts, and every other vertex's parent a neighbour whose distance
   * plus the edge's weight is its own.
   */
  ghost predicate ArbolMinimo(adj: Adj, v: Vertex, dist: map<Vertex, Dist>, padre: map<Vertex, Option<Vertex>>)
  {
    && dist.Keys == adj.Keys && v in dist && dist[v] == Fin(0)
    && (forall t :: t in dist ==> dist[t].Fin?)
    && (forall t, p :: t in dist && WalkFromTo(adj, p, v, t) ==> dist[t].n <= WalkWeight(adj, p))
    && ParentEdges(adj, v, dist, padre)
    && forall w :: w in padre && w != v ==> dist[padre[w].value].n + adj[padre[w].value][w] == dist[w].n
  }

  /** What one source contributes: its tree, its sorted distance list and the counts accumulated over it. */
  datatype Fuente = Fuente(padre: map<Vertex, Option<Vertex>>, dist: map<Vertex, Dist>,
                           distancias: seq<(Vertex, nat)>, aux: map<Vertex, nat>)

  /**
   * The pass of `centralidad_betweeness` for the source `v`: the tree is a
   * shortest-path tree, the list holds every vertex once with its distance,
   * sorted, and, when every weight is positive, each vertex's count is the
   * sum over its children of one plus the child's count.
   */
  ghost predicate Acumulada(adj: Adj, v: Vertex, f: Fuente)
  {
    && ArbolMinimo(adj, v, f.dist, f.padre)
    && SortedByKey(f.distancias) && ListsItems(DistNat(f.dist), f.distancias)
    && f.aux.Keys == adj.Keys
    && (Positivos(adj) ==> forall x :: x in f.aux ==> f.aux[x] == Aporte(f.padre, f.aux, f.distancias, x))
  }

  /** The score of `w`: the sum of its counts over the sources listed in `vs` other than itself. */
  ghost function Total(vs: seq<Vertex>, fuentes: map<Vertex, Fuente>, w: Vertex): nat
  {
    if vs == [] then 0
    else
      var v := vs[|vs| - 1];
      Total(vs[..|vs| - 1], fuentes, w) + (if v != w && v in fuentes then Get(fuentes[v].aux, w) else 0)
  }

  /** `Aporte` reads the counts of the listed vertices only. */
  lemma {:induction false} AporteIgual(padre: map<Vertex, Option<Vertex>>, aux: map<Vertex, nat>,
                                       aux': map<Vertex, nat>, l: seq<(Vertex, nat)>, x: Vertex)
    requires forall k :: 0 <= k < |l| ==> Get(aux, l[k].0) == Get(aux', l[k].0)
    ensures Aporte(padre, aux, l, x) == Aporte(padre, aux', l, x)
    decreases |l|
  {
    if l != [] {
      assert Get(aux, l[0].0) == Get(aux', l[0].0);
      forall k | 0 <= k < |l[1..]|
        ensures Get(aux, l[1..][k].0) == Get(aux', l[1..][k].0)
      {
        assert l[1..][k] == l[k + 1];
      }
      AporteIgual(padre, aux, aux', l[1..], x);
    }
  }

  /** `Total` reads the sources listed only. */
  lemma {:induction false} TotalIgual(vs: seq<Vertex>, fuentes: map<Vertex, Fuente>,
                                      fuentes': map<Vertex, Fuente>, w: Vertex)
    requires forall v :: v in vs ==> (v in fuentes <==> v in fuentes') && (v in fuentes ==> fuentes[v] == fuentes'[v])
    ensures Total(vs, fuentes, w) == Total(vs, fuentes', w)
    decreases |vs|
  {
    if vs != [] {
      var init := vs[..|vs| - 1];
      assert forall v :: v in init ==> v in vs;
      TotalIgual(init, fuentes, fuentes', w);
    }
  }

  /** A vertex's score does not depend on the pass in which it is the source itself. */
  lemma {:induction false} TotalSinPropia(vs: seq<Vertex>, fuentes: map<Vertex, Fuente>, w: Vertex, f: Fuente)
    ensures Total(vs, fuentes[w := f], w) == Total(vs, fuentes, w)
    decreases |vs|
  {
    if vs != [] {
      TotalSinPropia(vs[..|vs| - 1], fuentes, w, f);
    }
  }

  /**
   * One turn of the backward pass: when the vertex `y` at place `i - 1`
   * passes its count to its parent, the counts again hold what the
   * vertices from place `i - 1` on pass.
   */
  lemma AcumularPaso(l: seq<(Vertex, nat)>, i: int, padre: map<Vertex, Option<Vertex>>, aux: map<Vertex, nat>)
    requires 0 < i <= |l| && PadresAntes(l, padre)
    requires l[i - 1].0 in padre
    requires padre[l[i - 1].0].Some? ==> padre[l[i - 1].0].value in aux
    requires forall x :: x in aux ==> aux[x] == Aporte(padre, aux, l[i..], x)
    ensures
      var y := l[i - 1].0;
      var aux' := if padre[y].Some? then aux[padre[y].value := aux[padre[y].value] + 1 + Get(aux, y)] else aux;
      forall x :: x in aux' ==> aux'[x] == Aporte(padre, aux', l[i - 1..], x)
  {
    var y := l[i - 1].0;
    var aux' := if padre[y].Some? then aux[padre[y].value := aux[padre[y].value] + 1 + Get(aux, y)] else aux;
    assert l[i - 1..][0] == l[i - 1] && l[i - 1..][1..] == l[i..];
    if padre[y].Some? {
      var p := padre[y].value;
      assert p != y by {
        assert padre[l[i - 1].0] != Some(l[i - 1].0);
      }
      forall k | 0 <= k < |l[i..]|
        ensures Get(aux, l[i..][k].0) == Get(aux', l[i..][k].0)
      {
        assert l[i..][k] == l[i + k];
        assert padre[l[i - 1].0] != Some(l[i + k].0);
      }
      forall x | x in aux'
        ensures aux'[x] == Aporte(padre, aux', l[i - 1..], x)
      {
        AporteIgual(padre, aux, aux', l[i..], x);
      }
    }
  }

  /** With positive weights, a parent is strictly closer than its child, so it comes first in the sorted list. */
  lemma PadresAntesOrdenada(adj: Adj, v: Vertex, dist: map<Vertex, Dist>, padre: map<Vertex, Option<Vertex>>,
                            l: seq<(Vertex, nat)>)
    requires Positivos(adj) && ArbolMinimo(adj, v, dist, padre)
    requires SortedByKey(l) && forall e :: e in l ==> e.0 in dist && dist[e.0] == Fin(e.1)
    ensures PadresAntes(l, padre)
  {
    forall m, k | 0 <= m <= k < |l| && l[m].0 in padre
      ensures padre[l[m].0] != Some(l[k].0)
    {
      var y := l[m].0;
      assert l[m] in l && l[k] in l;
      assert l[m].1 <= l[k].1;
      if y != v {
        var z := padre[y].value;
        assert Adjacent(adj, z, y) && dist[z].n + adj[z][y] == dist[y].n;
        assert dist[z].n < dist[l[k].0].n;
      }
    }
  }

  /** The backward pass over the sorted list of a shortest-path tree completes the pass of `v`. */
  lemma Completa(adj: Adj, v: Vertex, f: Fuente)
    requires ArbolMinimo(adj, v, f.dist, f.padre)
    requires SortedByKey(f.distancias) && ListsItems(DistNat(f.dist), f.distancias) && f.aux.Keys == adj.Keys
    requires PadresAntes(f.distancias, f.padre) ==>
               forall x :: x in f.aux ==> f.aux[x] == Aporte(f.padre, f.aux, f.distancias, x)
    ensures Acumulada(adj, v, f)
  {
    if Positivos(adj) {
      PadresAntesOrdenada(adj, v, f.dist, f.padre, f.distancias);
    }
  }

  /** A list with one entry per key of `m` stays so under any permutation. */
  lemma ListsItemsPermutation(m: map<Vertex, nat>, s: seq<(Vertex, nat)>, t: seq<(Vertex, nat)>)
    requires ListsItems(m, s) && multiset(s) == multiset(t)
    ensures ListsItems(m, t)
  {
    forall e | e in t
      ensures e.0 in m && m[e.0] == e.1
    {
      assert e in multiset(t);
    }
    forall k | k in m
      ensures (k, m[k]) in t
    {
      assert (k, m[k]) in multiset(s);
    }
    forall i, j | 0 <= i < j < |t|
      ensures t[i].0 != t[j].0
    {
      if t[i].0 == t[j].0 {
        assert t[i] in multiset(s) && t[j] in multiset(s);
        assert t[i] == t[j];
        assert t == t[..j] + t[j..];
        assert t[i] in t[..j] && t[j] in t[j..];
        assert multiset(t)[t[i]] >= 2;
        ListsItemsOnce(m, s, t[i]);
      }
    }
  }

  /** In a list with one entry per key, no entry occurs twice. */
  lemma {:induction false} ListsItemsOnce(m: map<Vertex, nat>, s: seq<(Vertex, nat)>, e: (Vertex, nat))
    requires forall i, j :: 0 <= i < j < |s| ==> s[i].0 != s[j].0
    ensures multiset(s)[e] <= 1
    decreases |s|
  {
    if s != [] {
      assert s == [s[0]] + s[1..];
      assert forall i, j :: 0 <= i < j < |s[1..]| ==> s[1..][i].0 != s[1..][j].0 by {
        forall i, j | 0 <= i < j < |s[1..]|
          ensures s[1..][i].0 != s[1..][j].0
        {
          assert s[1..][i] == s[i + 1] && s[1..][j] == s[j + 1];
        }
      }
      ListsItemsOnce(m, s[1..], e);
      if s[0] == e {
        assert e !in s[1..] by {
          forall k | 0 <= k < |s[1..]|
            ensures s[1..][k] != e
          {
            assert s[1..][k] == s[k + 1];
          }
        }
      }
    }
  }

  /** `for v in vertices: d[v] = 0` */
  method Ceros(vs: seq<Vertex>) returns (d: map<Vertex, nat>)
    ensures d.Keys == Elems(vs)
    ensures forall x :: x in d ==> d[x] == 0
  {
    d := map[];
    for i := 0 to |vs|
      invariant d.Keys == Elems(vs[..i])
      invariant forall x :: x in d ==> d[x] == 0
    {
      assert vs[..i + 1] == vs[..i] + [vs[i]];
      d := d[vs[i] := 0];
    }
    assert vs[..|vs|] == vs;
  }

  /**
   * The backward pass over the sorted list: from the last place to the
   * first, a vertex with a parent adds one plus its count to the parent's.
   * When no parent comes at or after its child, every count ends up as
   * what the whole list passes to it.
   */
  method Acumular(a: array<(Vertex, nat)>, padre: map<Vertex, Option<Vertex>>, aux0: map<Vertex, nat>)
    returns (aux: map<Vertex, nat>)
    requires forall k :: 0 <= k < a.Length ==> a[k].0 in padre && a[k].0 in aux0
    requires forall y :: y in padre && padre[y].Some? ==> padre[y].value in aux0
    requires forall x :: x in aux0 ==> aux0[x] == 0
    ensures aux.Keys == aux0.Keys
    ensures PadresAntes(a[..], padre) ==> forall x :: x in aux ==> aux[x] == Aporte(padre, aux, a[..], x)
  {
    aux := aux0;
    var i := a.Length;
    while i > 0
      invariant 0 <= i <= a.Length
      invariant aux.Keys == aux0.Keys
      invariant PadresAntes(a[..], padre) ==> forall x :: x in aux ==> aux[x] == Aporte(padre, aux, a[i..], x)
    {
      ghost var l := a[..];
      assert l[i..] == a[i..];
      if PadresAntes(l, padre) {
        AcumularPaso(l, i, padre, aux);
      }
      i := i - 1;
      var y := a[i].0;
      if padre[y] != None {
        var p := padre[y].value;
        aux := aux[p := aux[p] + 1 + aux[y]];
      }
      assert l[i..] == a[i..];
    }
    assert a[0..] == a[..];
  }

  /** `for w in vertices: if w != v: cent[w] += cent_aux[w]` */
  method SumarDependencia(cent0: map<Vertex, nat>, aux: map<Vertex, nat>, vs: seq<Vertex>, v: Vertex)
    returns (cent: map<Vertex, nat>)
    requires ListsKeys(cent0.Keys, vs) && cent0.Keys <= aux.Keys
    ensures cent.Keys == cent0.Keys
    ensures forall w :: w in cent ==> cent[w] == cent0[w] + (if w != v then aux[w] else 0)
  {
    cent := cent0;
    for j := 0 to |vs|
      invariant cent.Keys == cent0.Keys
      invariant forall w :: w in cent ==> cent[w] == cent0[w] + (if w != v && w in vs[..j] then aux[w] else 0)
    {
      var w := vs[j];
      assert vs[..j + 1] == vs[..j] + [w];
      assert w !in vs[..j] by {
        assert Distinct(vs);
      }
      if w != v {
        cent := cent[w := cent[w] + aux[w]];
      }
    }
    assert vs[..|vs|] == vs;
  }

  /** In a connected graph every vertex is at a finite distance from a source in it, so every vertex has a parent entry. */
  lemma TodasFinitas(adj: Adj, v: Vertex, dist: map<Vertex, Dist>, padre: map<Vertex, Option<Vertex>>)
    requires Connected(adj) && v in adj && dist.Keys == adj.Keys + {v}
    requires forall t :: t in dist ==> (dist[t].Fin? <==> Reachable(adj, v, t))
    requires forall w :: w in padre <==> w in dist && dist[w].Fin?
    ensures dist.Keys == adj.Keys && padre.Keys == adj.Keys
    ensures forall x :: x in dist ==> dist[x].Fin?
  {
    forall x | x in dist
      ensures dist[x].Fin?
    {
      assert Reachable(adj, v, x);
    }
  }

  /** The list of `(vertex, distance)` pairs that `quick_sort` sorts. */
  method Distancias(items: seq<(Vertex, Dist)>) returns (a: array<(Vertex, nat)>)
    ensures fresh(a) && a.Length == |items|
    ensures forall k :: 0 <= k < |items| ==> a[k] == (items[k].0, Numero(items[k].1))
  {
    a := new (Vertex, nat)[|items|](k requires 0 <= k < |items| => (items[k].0, Numero(items[k].1)));
  }

  /** `padre, distancia, _ = dijkstra(grafo, v)` in a connected graph: a shortest-path tree reaching every vertex. */
  method ArbolDe(g: Grafo, v: Vertex) returns (padre: map<Vertex, Option<Vertex>>, distancia: map<Vertex, Dist>)
    requires g.Valid() && Connected(g.adyacencias) && v in g.adyacencias
    ensures ArbolMinimo(g.adyacencias, v, distancia, padre) && padre.Keys == g.adyacencias.Keys
  {
    var distLlegada;
    padre, distancia, distLlegada := Dijkstra(g, v, []);
    TodasFinitas(g.adyacencias, v, distancia, padre);
  }

  /** `distancias = list(distancia.items())` followed by `quick_sort(distancias)`. */
  method Ordenadas(distancia: map<Vertex, Dist>) returns (a: array<(Vertex, nat)>)
    ensures fresh(a)
    ensures SortedByKey(a[..]) && ListsItems(DistNat(distancia), a[..])
  {
    var items := ItemsList(distancia);
    a := Distancias(items);
    assert ListsItems(DistNat(distancia), a[..]) by {
      forall e | e in a[..]
        ensures e.0 in DistNat(distancia) && DistNat(distancia)[e.0] == e.1
      {
        var k :| 0 <= k < a.Length && a[k] == e;
        assert items[k] in items;
      }
      forall x | x in DistNat(distancia)
        ensures (x, DistNat(distancia)[x]) in a[..]
      {
        var k :| 0 <= k < |items| && items[k] == (x, distancia[x]);
        assert a[k] == (x, DistNat(distancia)[x]);
      }
    }
    ghost var original := a[..];
    QuickSort(a);
    ListsItemsPermutation(DistNat(distancia), original, a[..]);
  }

  /**
   * The rest of the body of the outer loop of `centralidad_betweeness` for
   * the source `v`, after `dijkstra`: the list of distances sorted by
   * `quick_sort`, and the backward pass over it.
   */
  method Dependencia(ghost adj: Adj, v: Vertex, padre: map<Vertex, Option<Vertex>>, distancia: map<Vertex, Dist>,
                     vertices: seq<Vertex>)
    returns (aux: map<Vertex, nat>, ghost f: Fuente)
    requires ArbolMinimo(adj, v, distancia, padre) && padre.Keys == adj.Keys
    requires ListsKeys(adj.Keys, vertices)
    ensures Acumulada(adj, v, f) && aux == f.aux
  {
    var cero := Ceros(vertices);
    var a := Ordenadas(distancia);
    assert forall k :: 0 <= k < a.Length ==> a[k].0 in padre && a[k].0 in cero by {
      forall k | 0 <= k < a.Length
        ensures a[k].0 in padre && a[k].0 in cero
      {
        assert a[k] in a[..];
      }
    }
    aux := Acumular(a, padre, cero);
    f := Fuente(padre, distancia, a[..], aux);
    Completa(adj, v, f);
  }

  /** Every source recorded in `fuentes` has had its pass. */
  ghost predicate Acumuladas(adj: Adj, fuentes: map<Vertex, Fuente>)
  {
    forall v :: v in fuentes ==> Acumulada(adj, v, fuentes[v])
  }

  /** Every score is the total over the sources of `vs`. */
  ghost predicate Puntajes(cent: map<Vertex, nat>, vs: seq<Vertex>, fuentes: map<Vertex, Fuente>)
  {
    forall w :: w in cent ==> cent[w] == Total(vs, fuentes, w)
  }

  /** Recording the pass of one more source keeps every recorded pass. */
  lemma AcumuladasCrece(adj: Adj, fuentes: map<Vertex, Fuente>, v: Vertex, f: Fuente)
    requires Acumuladas(adj, fuentes) && Acumulada(adj, v, f)
    ensures Acumuladas(adj, fuentes[v := f])
  {
    var fuentes' := fuentes[v := f];
    forall u | u in fuentes'
      ensures Acumulada(adj, u, fuentes'[u])
    {
      if u != v {
        assert fuentes'[u] == fuentes[u];
      }
    }
  }

  /** Adding the counts of the source `vs[i]` to every other vertex's score extends the totals by that source. */
  lemma Sumada(vs: seq<Vertex>, i: int, fuentes: map<Vertex, Fuente>, cent: map<Vertex, nat>,
               f: Fuente, cent': map<Vertex, nat>)
    requires 0 <= i < |vs| && Distinct(vs) && fuentes.Keys == Elems(vs[..i])
    requires Puntajes(cent, vs[..i], fuentes)
    requires cent'.Keys == cent.Keys
    requires forall w :: w in cent' ==> cent'[w] == cent[w] + (if w != vs[i] then Get(f.aux, w) else 0)
    ensures fuentes[vs[i] := f].Keys == Elems(vs[..i + 1])
    ensures Puntajes(cent', vs[..i + 1], fuentes[vs[i] := f])
  {
    var v := vs[i];
    var fuentes' := fuentes[v := f];
    assert vs[..i + 1] == vs[..i] + [v];
    assert v !in vs[..i];
    forall w | w in cent'
      ensures cent'[w] == Total(vs[..i + 1], fuentes', w)
    {
      TotalIgual(vs[..i], fuentes, fuentes', w);
      assert vs[..i + 1][..i] == vs[..i];
    }
  }

  /** The state after the passes of the sources `vs[..i]`. */
  ghost predicate Estado(adj: Adj, vs: seq<Vertex>, i: int, cent: map<Vertex, nat>, fuentes: map<Vertex, Fuente>)
  {
    && 0 <= i <= |vs| && ListsKeys(adj.Keys, vs)
    && cent.Keys == adj.Keys && fuentes.Keys == Elems(vs[..i])
    && Acumuladas(adj, fuentes) && Puntajes(cent, vs[..i], fuentes)
  }

  /** One turn of the outer loop of `centralidad_betweeness`: the pass of the source `vertices[i]`, added to the scores. */
  method Ronda(g: Grafo, vertices: seq<Vertex>, i: int, cent0: map<Vertex, nat>, ghost fuentes0: map<Vertex, Fuente>)
    returns (cent: map<Vertex, nat>, ghost fuentes: map<Vertex, Fuente>)
    requires g.Valid() && Connected(g.adyacencias)
    requires Estado(g.adyacencias, vertices, i, cent0, fuentes0) && i < |vertices|
    ensures Estado(g.adyacencias, vertices, i + 1, cent, fuentes)
  {
    var v := vertices[i];
    var padre, distancia := ArbolDe(g, v);
    var aux, f := Dependencia(g.adyacencias, v, padre, distancia, vertices);
    cent := SumarDependencia(cent0, aux, vertices, v);
    Sumada(vertices, i, fuentes0, cent0, f, cent);
    AcumuladasCrece(g.adyacencias, fuentes0, v, f);
    fuentes := fuentes0[v := f];
  }

  /**
   * `centralidad_betweeness(grafo)`: the score of each vertex `w` is the
   * sum, over every source other than `w`, of the count `w` accumulates in
   * that source's pass (see `Acumulada`). The graph must be connected: the
   * backward pass reads the parent of every vertex. The ghost `vertices` is
   * the order in which the sources are taken, which the scores are stated over.
   */
  method CentralidadBetweeness(g: Grafo) returns (cent: map<Vertex, nat>, ghost vertices: seq<Vertex>,
                                                  ghost fuentes: map<Vertex, Fuente>)
    requires g.Valid() && Connected(g.adyacencias)
    ensures cent.Keys == g.adyacencias.Keys && ListsKeys(g.adyacencias.Keys, vertices)
    ensures fuentes.Keys == g.adyacencias.Keys
    ensures Acumuladas(g.adyacencias, fuentes) && Puntajes(cent, vertices, fuentes)
  {
    var vs := g.VerVertices();
    vertices := vs;
    cent := Ceros(vs);
    fuentes := map[];
    for i := 0 to |vs|
      invariant Estado(g.adyacencias, vs, i, cent, fuentes)
    {
      cent, fuentes := Ronda(g, vs, i, cent, fuentes);
    }
    assert vs[..|vs|] == vs;
  }
}
