/**
 * `_vacaciones`: backtracking search for a round trip. From the current
 * vertex `v`, with `solucion` the vertices chosen so far, it extends the
 * trip by unvisited neighbours until `n` vertices are chosen and the last
 * one has an edge back to `origen`. The shared set `visitados` is passed in
 * and handed back: a vertex is added on entry and removed again when the
 * search below it fails.
 */
module Ciclos {
  import opened Listas
  import opened GraphModel
  import opened Grafos

  /**
   * `ext` completes the trip from `v`: it has `largo` vertices, `[v] + ext`
   * is a walk whose last vertex has an edge to `origen`, and its vertices
   * are distinct and avoid `evitar`.
   */
  ghost predicate Extension(adj: Adj, v: Vertex, ext: seq<Vertex>, evitar: set<Vertex>,
                            origen: Vertex, largo: int)
  {
    && |ext| == largo
    && IsWalk(adj, [v] + ext)
    && Adjacent(adj, ([v] + ext)[|ext|], origen)
    && Distinct(ext)
    && (forall x :: x in ext ==> x !in evitar)
  }

  /** The trip cannot be completed from `v` at all. */
  ghost predicate SinSalida(adj: Adj, v: Vertex, evitar: set<Vertex>, origen: Vertex, largo: int)
  {
    forall ext :: !Extension(adj, v, ext, evitar, origen, largo)
  }

  /** A neighbour `w` outside `evitar` followed by a completion from `w` completes the trip from `v`. */
  lemma ExtensionCons(adj: Adj, v: Vertex, w: Vertex, ext: seq<Vertex>, evitar: set<Vertex>,
                      origen: Vertex, largo: int)
    requires Adjacent(adj, v, w) && w !in evitar
    requires Extension(adj, w, ext, evitar + {w}, origen, largo - 1)
    ensures Extension(adj, v, [w] + ext, evitar, origen, largo)
  {
    var p := [v] + ([w] + ext);
    assert p[1..] == [w] + ext;
    forall i | 0 <= i < |p| - 1
      ensures Adjacent(adj, p[i], p[i + 1])
    {
      if i > 0 {
        assert p[i] == ([w] + ext)[i - 1] && p[i + 1] == ([w] + ext)[i];
      }
    }
    assert p[|[w] + ext|] == ([w] + ext)[|ext|];
    forall i, j | 0 <= i < j < |[w] + ext|
      ensures ([w] + ext)[i] != ([w] + ext)[j]
    {
      if i > 0 {
        assert ([w] + ext)[i] == ext[i - 1] && ([w] + ext)[j] == ext[j - 1];
      } else {
        assert ([w] + ext)[j] == ext[j - 1];
        assert ext[j - 1] in ext;
      }
    }
  }

  /** A non-empty completion from `v` starts with a neighbour outside `evitar`, followed by a completion from it. */
  lemma ExtensionTail(adj: Adj, v: Vertex, ext: seq<Vertex>, evitar: set<Vertex>,
                      origen: Vertex, largo: int)
    requires Extension(adj, v, ext, evitar, origen, largo) && |ext| > 0
    ensures Adjacent(adj, v, ext[0]) && ext[0] !in evitar
    ensures Extension(adj, ext[0], ext[1..], evitar + {ext[0]}, origen, largo - 1)
  {
    var p := [v] + ext;
    var q := [ext[0]] + ext[1..];
    assert q == ext && q == p[1..];
    assert Adjacent(adj, p[0], p[1]);
    forall i | 0 <= i < |q| - 1
      ensures Adjacent(adj, q[i], q[i + 1])
    {
      assert q[i] == p[i + 1] && q[i + 1] == p[i + 2];
    }
    assert q[|ext[1..]|] == p[|ext|];
    forall x | x in ext[1..]
      ensures x !in evitar + {ext[0]}
    {
      var k :| 0 <= k < |ext[1..]| && ext[1..][k] == x;
      assert ext[k + 1] == x;
    }
    forall i, j | 0 <= i < j < |ext[1..]|
      ensures ext[1..][i] != ext[1..][j]
    {
      assert ext[1..][i] == ext[i + 1] && ext[1..][j] == ext[j + 1];
    }
  }

  /** Without an edge back to `origen`, the trip cannot be completed from `v` with no vertex more. */
  lemma SinCierre(adj: Adj, v: Vertex, evitar: set<Vertex>, origen: Vertex)
    requires !Adjacent(adj, v, origen)
    ensures SinSalida(adj, v, evitar, origen, 0)
  {
    forall ext: seq<Vertex> | |ext| == 0
      ensures ([v] + ext)[|ext|] == v
    {
    }
  }

  /** If no completion from `v` starts with a listed neighbour, and every neighbour is listed, there is none. */
  lemma SinExtension(adj: Adj, v: Vertex, ady: seq<Vertex>, evitar: set<Vertex>, origen: Vertex, largo: int)
    requires forall w :: w in ady <==> Adjacent(adj, v, w)
    requires forall ext :: Extension(adj, v, ext, evitar, origen, largo) ==> |ext| > 0 && ext[0] !in ady
    ensures SinSalida(adj, v, evitar, origen, largo)
  {
    forall ext | Extension(adj, v, ext, evitar, origen, largo)
      ensures Adjacent(adj, v, ext[0])
    {
      ExtensionTail(adj, v, ext, evitar, origen, largo);
    }
  }

  /** No completion from `v` starts with a vertex of `vecinos`. */
  ghost predicate Descartados(adj: Adj, v: Vertex, evitar: set<Vertex>, origen: Vertex, largo: int,
                              vecinos: seq<Vertex>)
  {
    forall ext :: Extension(adj, v, ext, evitar, origen, largo) ==> |ext| > 0 && ext[0] !in vecinos
  }

  /** A neighbour already visited starts no completion. */
  lemma DescartadoVisitado(adj: Adj, v: Vertex, evitar: set<Vertex>, origen: Vertex, largo: int,
                           vecinos: seq<Vertex>, w: Vertex)
    requires Descartados(adj, v, evitar, origen, largo, vecinos) && w in evitar
    ensures Descartados(adj, v, evitar, origen, largo, vecinos + [w])
  {
    forall ext | Extension(adj, v, ext, evitar, origen, largo)
      ensures ext[0] != w
    {
      assert ext[0] in ext;
    }
  }

  /** A neighbour from which the search failed starts no completion. */
  lemma DescartadoFallido(adj: Adj, v: Vertex, evitar: set<Vertex>, origen: Vertex, largo: int,
                          vecinos: seq<Vertex>, w: Vertex)
    requires Descartados(adj, v, evitar, origen, largo, vecinos)
    requires SinSalida(adj, w, evitar + {w}, origen, largo - 1)
    ensures Descartados(adj, v, evitar, origen, largo, vecinos + [w])
  {
    forall ext | Extension(adj, v, ext, evitar, origen, largo) && ext[0] == w
      ensures Extension(adj, w, ext[1..], evitar + {w}, origen, largo - 1)
    {
      ExtensionTail(adj, v, ext, evitar, origen, largo);
    }
  }

  /** The completion found from the neighbour `w` gives one from `v`. */
  lemma Hallada(adj: Adj, v: Vertex, w: Vertex, solucion: seq<Vertex>, sol: seq<Vertex>,
                evitar: set<Vertex>, origen: Vertex, n: int, visitados: set<Vertex>)
    requires Adjacent(adj, v, w) && w !in evitar
    requires |solucion + [w]| <= |sol| && sol[..|solucion + [w]|] == solucion + [w]
    requires Extension(adj, w, sol[|solucion + [w]|..], evitar + {w}, origen, n - |solucion + [w]|)
    requires visitados == evitar + {w} + Elems(sol[|solucion + [w]|..])
    ensures |solucion| <= |sol| && sol[..|solucion|] == solucion
    ensures Extension(adj, v, sol[|solucion|..], evitar, origen, n - |solucion|)
    ensures visitados == evitar + Elems(sol[|solucion|..])
  {
    var cola := sol[|solucion| + 1..];
    assert sol[..|solucion|] == sol[..|solucion| + 1][..|solucion|];
    assert sol[|solucion|..] == [w] + cola;
    ExtensionCons(adj, v, w, cola, evitar, origen, n - |solucion|);
    assert Elems([w] + cola) == {w} + Elems(cola);
  }

  /**
   * `_vacaciones(grafo, n, v, solucion, origen, visitados)`. A non-empty
   * result has `n` vertices, starts with `solucion` and completes the trip
   * from `v` through distinct vertices not visited before, and the visited
   * set gains `v` and those vertices. An empty result with `n > 0` means
   * there is no completion at all, and `v` has been taken out of the
   * visited set again.
   */
  method Vacaciones(g: Grafo, n: nat, v: Vertex, solucion: seq<Vertex>, origen: Vertex,
                    visitados0: set<Vertex>)
    returns (sol: seq<Vertex>, visitados: set<Vertex>)
    requires g.Valid()
    ensures sol == [] || |sol| == n
    ensures sol != [] ==>
              && |solucion| <= |sol| && sol[..|solucion|] == solucion
              && Extension(g.adyacencias, v, sol[|solucion|..], visitados0 + {v}, origen, n - |solucion|)
              && visitados == visitados0 + {v} + Elems(sol[|solucion|..])
    ensures sol == [] && n > 0 ==>
              && visitados == visitados0 - {v}
              && SinSalida(g.adyacencias, v, visitados0 + {v}, origen, n - |solucion|)
    decreases g.adyacencias.Keys - (visitados0 + {v}), 1
  {
    ghost var adj := g.adyacencias;
    ghost var evitar := visitados0 + {v};
    visitados := visitados0 + {v};
    if |solucion| == n {
      var ady := g.VerVAdyacentes(v);
      if origen in ady {
        sol := solucion;
        assert [v] + sol[|solucion|..] == [v];
        return;
      }
      visitados := visitados - {v};
      sol := [];
      SinCierre(adj, v, evitar, origen);
      return;
    }
    sol, visitados := Probar(g, n, v, solucion, origen, visitados);
  }

  /**
   * The loop of `_vacaciones` over the neighbours of `v`, with `v` already
   * in the visited set `evitar`: the first neighbour from which the search
   * returns `n` vertices gives the result; when none does, `v` leaves the
   * visited set and the result is empty.
   */
  method Probar(g: Grafo, n: nat, v: Vertex, solucion: seq<Vertex>, origen: Vertex, evitar: set<Vertex>)
    returns (sol: seq<Vertex>, visitados: set<Vertex>)
    requires g.Valid() && v in evitar && |solucion| != n
    ensures sol == [] || |sol| == n
    ensures sol != [] ==>
              && |solucion| <= |sol| && sol[..|solucion|] == solucion
              && Extension(g.adyacencias, v, sol[|solucion|..], evitar, origen, n - |solucion|)
              && visitados == evitar + Elems(sol[|solucion|..])
    ensures sol == [] && n > 0 ==>
              && visitados == evitar - {v}
              && SinSalida(g.adyacencias, v, evitar, origen, n - |solucion|)
    decreases g.adyacencias.Keys - evitar, 0
  {
    ghost var adj := g.adyacencias;
    visitados := evitar;
    var ady := g.VerVAdyacentes(v);
    for j := 0 to |ady|
      invariant visitados == evitar
      invariant Descartados(adj, v, evitar, origen, n - |solucion|, ady[..j])
    {
      var w := ady[j];
      assert ady[..j + 1] == ady[..j] + [w];
      if w in visitados {
        DescartadoVisitado(adj, v, evitar, origen, n - |solucion|, ady[..j], w);
        continue;
      }
      assert Adjacent(adj, v, w) && Adjacent(adj, w, v);
      assert w in adj.Keys - evitar;
      var s, vis := Vacaciones(g, n, w, solucion + [w], origen, visitados);
      if |s| == n {
        sol, visitados := s, vis;
        if sol != [] {
          Hallada(adj, v, w, solucion, sol, evitar, origen, n, visitados);
        }
        return;
      }
      visitados := vis;
      DescartadoFallido(adj, v, evitar, origen, n - |solucion|, ady[..j], w);
    }
    assert ady[..|ady|] == ady;
    SinExtension(adj, v, ady, evitar, origen, n - |solucion|);
    visitados := visitados - {v};
    sol := [];
  }
}
