/**
 * `pesos_ady`: the neighbours of a vertex with the weights of the edges
 * to them, as a dictionary built from the list `ver_a_adyacentes` returns.
 */
module Pesos {
  import opened Wrappers
  import opened Listas
  import opened GraphModel
  import opened Grafos

  /**
   * `pesos_ady(grafo, vertice)`: the dictionary holds exactly the
   * neighbours of `vertice`, each with the weight of its edge, so it is
   * the vertex's row; an absent vertex gives an empty dictionary.
   */
  method PesosAdy(g: Grafo, vertice: Vertex) returns (diccionario: map<Vertex, nat>)
    ensures forall w :: Weight(g.adyacencias, vertice, w) == if w in diccionario then Some(diccionario[w]) else None
    ensures diccionario == if vertice in g.adyacencias then g.adyacencias[vertice] else map[]
  {
    ghost var adj := g.adyacencias;
    diccionario := map[];
    var adyacentes := g.VerAAdyacentes(vertice);
    for i := 0 to |adyacentes|
      invariant forall w :: w in diccionario <==> exists k :: 0 <= k < i && adyacentes[k].0 == w
      invariant forall w :: w in diccionario ==> Weight(adj, vertice, w) == Some(diccionario[w])
    {
      var a := adyacentes[i];
      assert a in adyacentes;
      diccionario := diccionario[a.0 := a.1];
    }
    forall w | Adjacent(adj, vertice, w)
      ensures w in diccionario
    {
      var k :| 0 <= k < |adyacentes| && adyacentes[k] == (w, adj[vertice][w]);
    }
    if vertice in adj {
      assert diccionario.Keys == adj[vertice].Keys;
    } else {
      assert adyacentes == [];
    }
  }
}
