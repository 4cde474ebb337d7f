/**
 * The two classes of the graph module: a FIFO queue `Cola` over a list and
 * the undirected weighted graph `Grafo` over a dictionary of dictionaries
 * with two counters kept up to date by its methods.
 */
module Grafos {
  import opened Wrappers
  import opened Listas
  import opened GraphModel

  /** A FIFO queue kept as a list: `encolar` appends, `desencolar` pops the front. */
  class Cola<T> {
    var items: seq<T>

    constructor ()
      ensures items == []
    {
      items := [];
    }

    method Encolar(x: T)
      modifies this
      ensures items == old(items) + [x]
    {
      items := items + [x];
    }

    /** Removes the oldest element; on an empty queue it fails and changes nothing. */
    method Desencolar() returns (x: Option<T>)
      modifies this
      ensures old(items) == [] ==> x == None && items == []
      ensures old(items) != [] ==> x == Some(old(items)[0]) && items == old(items)[1..]
    {
      if items == [] {
        return None;
      }
      x := Some(items[0]);
      items := items[1..];
    }

    method EstaVacia() returns (vacia: bool)
      ensures vacia <==> items == []
    {
      vacia := |items| == 0;
    }

    /** The oldest element, or a failure on an empty queue. */
    method VerPrimero() returns (x: Option<T>)
      ensures items == [] ==> x == None
      ensures items != [] ==> x == Some(items[0])
    {
      if |items| == 0 {
        return None;
      }
      x := Some(items[0]);
    }
  }

  class Grafo {
    var adyacencias: Adj
    var vertices: int
    var aristas: int

    /** Adjacency is symmetric and the vertex counter is the number of rows. */
    ghost predicate Valid()
      reads this
    {
      Symmetric(adyacencias) && vertices == |adyacencias|
    }

    constructor ()
      ensures Valid()
      ensures adyacencias == map[] && vertices == 0 && aristas == 0
    {
      vertices := 0;
      aristas := 0;
      adyacencias := map[];
    }

    /** `x in grafo` */
    method Contiene(x: Vertex) returns (esta: bool)
      ensures esta <==> x in adyacencias
    {
      esta := x in adyacencias;
    }

    method VerAdyacencia(x: Vertex, y: Vertex) returns (ady: bool)
      ensures ady <==> Weight(adyacencias, x, y).Some?
    {
      ady := x in adyacencias && y in adyacencias[x];
    }

    /** The (neighbour, weight) pairs of `x`; empty when `x` is absent. */
    method VerAAdyacentes(x: Vertex) returns (ady: seq<(Vertex, nat)>)
      ensures x in adyacencias ==> ListsItems(adyacencias[x], ady)
      ensures x !in adyacencias ==> ady == []
      ensures forall e :: e in ady ==> Weight(adyacencias, x, e.0) == Some(e.1)
    {
      ady := [];
      if x in adyacencias {
        ady := ItemsList(adyacencias[x]);
      }
    }

    /** The neighbours of `x`; empty when `x` is absent. */
    method VerVAdyacentes(x: Vertex) returns (ady: seq<Vertex>)
      ensures x in adyacencias ==> ListsKeys(adyacencias[x].Keys, ady)
      ensures x !in adyacencias ==> ady == []
      ensures forall w :: w in ady <==> Adjacent(adyacencias, x, w)
    {
      ady := [];
      if x in adyacencias {
        ady := KeysList(adyacencias[x].Keys);
      }
    }

    method AgregarVertice(x: Vertex) returns (agregado: bool)
      requires Valid()
      modifies this
      ensures Valid()
      ensures agregado <==> x !in old(adyacencias)
      ensures adyacencias == AddVertex(old(adyacencias), x)
      ensures vertices == old(vertices) + (if agregado then 1 else 0)
      ensures aristas == old(aristas)
    {
      AddVertexEffect(adyacencias, x);
      if x !in adyacencias {
        adyacencias := adyacencias[x := map[]];
        vertices := vertices + 1;
        return true;
      }
      return false;
    }

    /**
     * Removes a present vertex and every edge that touches it, returning its
     * row.  The edge counter drops by the size of that row (a self-loop counts once).
     */
    method SacarVertice(x: Vertex) returns (muertos: seq<(Vertex, nat)>)
      requires Valid() && x in adyacencias
      modifies this
      ensures Valid()
      ensures adyacencias == RemoveVertex(old(adyacencias), x)
      ensures ListsItems(old(adyacencias)[x], muertos)
      ensures aristas == old(aristas) - |old(adyacencias)[x]|
      ensures vertices == old(vertices) - 1
    {
      ghost var a0 := adyacencias;
      var fila := adyacencias[x];
      adyacencias := adyacencias - {x};
      var vecinos := KeysList(fila.Keys);
      assert adyacencias == PartialRemove(a0, x, {});
      QuitarDeVecinos(x, vecinos, a0);
      RemoveVertexEffect(a0, x);
      aristas := aristas - |fila|;
      vertices := vertices - 1;
      muertos := ItemsList(fila);
    }

    /** The loop of `sacar_vertice`: drops `x` from the row of each listed neighbour still present. */
    method QuitarDeVecinos(x: Vertex, vecinos: seq<Vertex>, ghost a0: Adj)
      requires x in a0 && adyacencias == PartialRemove(a0, x, {})
      modifies this
      ensures adyacencias == PartialRemove(a0, x, Elems(vecinos))
      ensures vertices == old(vertices) && aristas == old(aristas)
    {
      ghost var hechos: set<Vertex> := {};
      var i := 0;
      while i < |vecinos|
        invariant 0 <= i <= |vecinos|
        invariant hechos == Elems(vecinos[..i])
        invariant adyacencias == PartialRemove(a0, x, hechos)
        invariant vertices == old(vertices) && aristas == old(aristas)
      {
        var ady := vecinos[i];
        if ady in adyacencias {
          PartialRemoveStep(a0, x, hechos, ady);
          adyacencias := adyacencias[ady := adyacencias[ady] - {x}];
        } else {
          PartialRemoveSkip(a0, x, hechos, ady);
        }
        assert vecinos[..i + 1] == vecinos[..i] + [ady];
        hechos := hechos + {ady};
        i := i + 1;
      }
      assert vecinos[..i] == vecinos;
    }

    /**
     * Adds or overwrites the edge between two present vertices.  The edge
     * counter goes up on every successful call, also when the edge existed.
     */
    method AgregarArista(x: Vertex, y: Vertex, peso: nat) returns (ok: bool)
      requires Valid()
      modifies this
      ensures Valid()
      ensures ok <==> x in old(adyacencias) && y in old(adyacencias)
      ensures ok ==> adyacencias == AddEdge(old(adyacencias), x, y, peso)
      ensures !ok ==> adyacencias == old(adyacencias)
      ensures aristas == old(aristas) + (if ok then 1 else 0)
      ensures vertices == old(vertices)
    {
      if x in adyacencias && y in adyacencias {
        AddEdgeEffect(adyacencias, x, y, peso);
        var fila: map<Vertex, nat> := adyacencias[x][y := peso];
        adyacencias := adyacencias[x := fila];
        fila := adyacencias[y][x := peso];
        adyacencias := adyacencias[y := fila];
        aristas := aristas + 1;
        return true;
      }
      return false;
    }

    /**
     * Removes the edge between `x` and `y` and returns its weight; `None`
     * when either vertex is absent.  Both vertices present but not joined is
     * a lookup failure in the source, so it is excluded.
     */
    method RemoverArista(x: Vertex, y: Vertex) returns (resultado: Option<nat>)
      requires Valid()
      requires x in adyacencias && y in adyacencias ==> y in adyacencias[x]
      modifies this
      ensures Valid()
      ensures resultado == Weight(old(adyacencias), x, y)
      ensures resultado.Some? ==>
                adyacencias == RemoveEdge(old(adyacencias), x, y) && aristas == old(aristas) - 1
      ensures resultado.None? ==> adyacencias == old(adyacencias) && aristas == old(aristas)
      ensures vertices == old(vertices)
    {
      resultado := None;
      if x in adyacencias && y in adyacencias {
        RemoveEdgeEffect(adyacencias, x, y);
        resultado := Some(adyacencias[x][y]);
        adyacencias := adyacencias[x := adyacencias[x] - {y}];
        aristas := aristas - 1;
        if y != x {
          adyacencias := adyacencias[y := adyacencias[y] - {x}];
        }
      }
    }

    method VerPeso(x: Vertex, y: Vertex) returns (peso: Option<nat>)
      ensures peso == Weight(adyacencias, x, y)
    {
      peso := None;
      if x in adyacencias && y in adyacencias[x] {
        peso := Some(adyacencias[x][y]);
      }
    }

    /** Changes the weight of an existing edge in both directions; counters stay. */
    method CambiarPeso(x: Vertex, y: Vertex, peso: nat) returns (ok: bool)
      requires Valid()
      modifies this
      ensures Valid()
      ensures ok <==> Adjacent(old(adyacencias), x, y)
      ensures ok ==> adyacencias == AddEdge(old(adyacencias), x, y, peso)
      ensures !ok ==> adyacencias == old(adyacencias)
      ensures aristas == old(aristas) && vertices == old(vertices)
    {
      if x in adyacencias && y in adyacencias[x] {
        assert Adjacent(adyacencias, y, x);
        AddEdgeEffect(adyacencias, x, y, peso);
        var fila: map<Vertex, nat> := adyacencias[x][y := peso];
        adyacencias := adyacencias[x := fila];
        fila := adyacencias[y][x := peso];
        adyacencias := adyacencias[y := fila];
        return true;
      }
      return false;
    }

    method EstaVacio() returns (vacio: bool)
      requires Valid()
      ensures vacio <==> adyacencias == map[]
    {
      vacio := vertices == 0;
    }

    method VerVertices() returns (vs: seq<Vertex>)
      ensures ListsKeys(adyacencias.Keys, vs)
    {
      vs := KeysList(adyacencias.Keys);
    }

    /** Some vertex of the graph (the choice is free), or `None` when it is empty. */
    method VerticeAleatorio() returns (v: Option<Vertex>)
      requires Valid()
      ensures v.None? <==> adyacencias == map[]
      ensures v.Some? ==> v.value in adyacencias
    {
      if vertices > 0 {
        var x :| x in adyacencias;
        return Some(x);
      }
      return None;
    }

    /**
     * Every undirected edge once, with its weight: a self-loop as `(v, v)`,
     * any other edge in one orientation only.
     */
    method VerAristas() returns (lista: seq<((Vertex, Vertex), nat)>)
      requires Valid()
      ensures EdgeList(adyacencias, lista)
    {
      var resultado: map<(Vertex, Vertex), nat> := map[];
      var vs := KeysList(adyacencias.Keys);
      ghost var hechos: set<Vertex> := {};
      var i := 0;
      while i < |vs|
        invariant 0 <= i <= |vs|
        invariant forall k :: 0 <= k < i ==> vs[k] in hechos
        invariant EdgeDictSound(adyacencias, resultado)
        invariant EdgeDictCovers(adyacencias, resultado, hechos)
      {
        var v := vs[i];
        resultado := AristasDe(v, resultado, hechos);
        hechos := hechos + {v};
        i := i + 1;
      }
      lista := ItemsList(resultado);
      EdgeListFromDict(adyacencias, resultado, lista);
    }

    /** The inner loop of `ver_aristas`: records the edges of `v` not yet seen reversed. */
    method AristasDe(v: Vertex, resultado: map<(Vertex, Vertex), nat>, ghost hechos: set<Vertex>)
      returns (r: map<(Vertex, Vertex), nat>)
      requires v in adyacencias
      requires EdgeDictSound(adyacencias, resultado)
      requires EdgeDictCovers(adyacencias, resultado, hechos)
      ensures EdgeDictSound(adyacencias, r)
      ensures EdgeDictCovers(adyacencias, r, hechos + {v})
    {
      r := resultado;
      var ws := KeysList(adyacencias[v].Keys);
      ghost var vistos: set<Vertex> := {};
      var j := 0;
      while j < |ws|
        invariant 0 <= j <= |ws|
        invariant forall k :: 0 <= k < j ==> ws[k] in vistos
        invariant resultado.Keys <= r.Keys
        invariant EdgeDictSound(adyacencias, r)
        invariant forall w :: w in vistos ==> (v, w) in r || (w, v) in r
      {
        var w := ws[j];
        if (w, v) !in r {
          EdgeDictAdd(adyacencias, r, v, w);
          r := r[(v, w) := adyacencias[v][w]];
        }
        vistos := vistos + {w};
        j := j + 1;
      }
      EdgeDictRow(adyacencias, resultado, r, hechos, v, ws, vistos);
    }

    method CantidadAristas() returns (n: int)
      ensures n == aristas
    {
      n := aristas;
    }

    method CantidadVertices() returns (n: nat)
      requires Valid()
      ensures n == |adyacencias|
    {
      n := vertices;
    }
  }

  /** `RemoveVertex` with only the rows in `hechos` cleaned so far. */
  ghost function PartialRemove(a0: Adj, x: Vertex, hechos: set<Vertex>): (r: Adj)
    requires x in a0
    ensures hechos == a0[x].Keys ==> r == RemoveVertex(a0, x)
  {
    map u | u in a0 && u != x :: if u in hechos then a0[u] - {x} else a0[u]
  }

  lemma PartialRemoveStep(a0: Adj, x: Vertex, hechos: set<Vertex>, ady: Vertex)
    requires x in a0 && ady in PartialRemove(a0, x, hechos)
    ensures PartialRemove(a0, x, hechos)[ady := PartialRemove(a0, x, hechos)[ady] - {x}]
            == PartialRemove(a0, x, hechos + {ady})
  {
    var r := PartialRemove(a0, x, hechos);
    var r' := PartialRemove(a0, x, hechos + {ady});
    assert r[ady := r[ady] - {x}].Keys == r'.Keys;
    forall u | u in r'
      ensures r[ady := r[ady] - {x}][u] == r'[u]
    {
      if u == ady {
        assert r'[u] == a0[u] - {x};
      }
    }
  }

  lemma PartialRemoveSkip(a0: Adj, x: Vertex, hechos: set<Vertex>, ady: Vertex)
    requires x in a0 && ady !in PartialRemove(a0, x, hechos)
    ensures PartialRemove(a0, x, hechos) == PartialRemove(a0, x, hechos + {ady})
  {
  }

  /** Every entry is an edge with its weight, and no edge has both orientations. */
  ghost predicate EdgeDictSound(adj: Adj, d: map<(Vertex, Vertex), nat>)
  {
    && (forall k :: k in d ==> Weight(adj, k.0, k.1) == Some(d[k]))
    && (forall v, w :: (v, w) in d && (w, v) in d ==> v == w)
  }

  /** Every edge leaving a vertex of `hechos` is in `d` in one orientation or the other. */
  ghost predicate EdgeDictCovers(adj: Adj, d: map<(Vertex, Vertex), nat>, hechos: set<Vertex>)
  {
    forall v, w :: v in hechos && Adjacent(adj, v, w) ==> (v, w) in d || (w, v) in d
  }

  /** Recording an edge whose reverse is not recorded keeps the dictionary sound. */
  lemma EdgeDictAdd(adj: Adj, d: map<(Vertex, Vertex), nat>, v: Vertex, w: Vertex)
    requires EdgeDictSound(adj, d) && Adjacent(adj, v, w) && (w, v) !in d
    ensures EdgeDictSound(adj, d[(v, w) := adj[v][w]])
  {
    var d' := d[(v, w) := adj[v][w]];
    forall a, b | (a, b) in d' && (b, a) in d'
      ensures a == b
    {
      if (a, b) != (v, w) && (b, a) != (v, w) {
        assert (a, b) in d && (b, a) in d;
      }
    }
  }

  /** Once every neighbour of `v` is covered, the rows of `hechos` and of `v` are. */
  lemma EdgeDictRow(adj: Adj, d0: map<(Vertex, Vertex), nat>, d: map<(Vertex, Vertex), nat>,
                    hechos: set<Vertex>, v: Vertex, ws: seq<Vertex>, vistos: set<Vertex>)
    requires v in adj && ListsKeys(adj[v].Keys, ws) && forall k :: 0 <= k < |ws| ==> ws[k] in vistos
    requires EdgeDictCovers(adj, d0, hechos) && d0.Keys <= d.Keys
    requires forall w :: w in vistos ==> (v, w) in d || (w, v) in d
    ensures EdgeDictCovers(adj, d, hechos + {v})
  {
    forall x, w | x in hechos + {v} && Adjacent(adj, x, w)
      ensures (x, w) in d || (w, x) in d
    {
      if x == v {
        assert w in Elems(ws);
      }
    }
  }

  lemma EdgeListFromDict(adj: Adj, d: map<(Vertex, Vertex), nat>, lista: seq<((Vertex, Vertex), nat)>)
    requires Symmetric(adj)
    requires EdgeDictSound(adj, d) && EdgeDictCovers(adj, d, adj.Keys)
    requires ListsItems(d, lista)
    ensures EdgeList(adj, lista)
  {
    forall v, w | Adjacent(adj, v, w)
      ensures ((v, w), adj[v][w]) in lista || ((w, v), adj[v][w]) in lista
    {
      if (v, w) in d {
        assert ((v, w), d[(v, w)]) in lista;
      } else {
        assert ((w, v), d[(w, v)]) in lista;
      }
    }
    forall i, j | 0 <= i < j < |lista|
      ensures lista[i].0 != (lista[j].0.1, lista[j].0.0)
    {
      assert lista[i] in lista && lista[j] in lista;
    }
  }

  /** `lista` reports each undirected edge of `adj` exactly once, with its weight. */
  ghost predicate EdgeList(adj: Adj, lista: seq<((Vertex, Vertex), nat)>)
  {
    && (forall e :: e in lista ==> Weight(adj, e.0.0, e.0.1) == Some(e.1))
    && (forall v, w :: Adjacent(adj, v, w) ==>
          ((v, w), adj[v][w]) in lista || ((w, v), adj[v][w]) in lista)
    && (forall i, j :: 0 <= i < j < |lista| ==>
          lista[i].0 != lista[j].0 && lista[i].0 != (lista[j].0.1, lista[j].0.0))
  }
}
