# Sistema de Vuelos — graph core in Dafny

This project models the graph core of a flight-network program. The core has two parts.

`grafo.py` holds:
- the `Grafo` type, an undirected weighted graph stored as a dictionary of dictionaries, with two counters, `vertices` and `aristas`;
- a small FIFO queue, `Cola`.

`biblioteca.py` holds the algorithms built on the graph:
- an in-place quicksort of `(key, number)` pairs by their number;
- Dijkstra's shortest paths with a lazy-deletion heap;
- breadth-first search with an optional set of targets;
- Prim's spanning tree;
- `pesos_ady`, a vertex's weighted neighbours as a dictionary;
- the backtracking search `_vacaciones` for a round trip of a given length;
- `centralidad_betweeness`, which accumulates dependencies over the Dijkstra trees.

Modules, one per file:

- `Wrappers` (`wrappers.dfy`): `Option`.
- `Listas` (`listas.dfy`): what it means for a list to hold exactly the keys or the items of a dictionary. `KeysList` and `ItemsList` stand for `list(d.keys())` and `list(d.items())`.
- `GraphModel` (`graph_model.dfy`) is the value-level graph:
  - `Adj = map<Vertex, map<Vertex, nat>>`;
  - `Weight`, `Adjacent` and `Symmetric`;
  - the pure transitions `AddVertex`, `AddEdge`, `RemoveEdge` and `RemoveVertex`, with lemmas giving their effect on every weight;
  - walks, their weight, reachability and connectivity.
- `Grafos` (`grafo.dfy`): the classes `Cola` and `Grafo`.
  - Their fields are the source's fields.
  - Every mutator has a `modifies` clause and states its new state through a transition of `GraphModel`.
  - `Grafo.Valid()` requires that the adjacency is symmetric and that `vertices` is the number of rows.
- `Ordenamiento` (`ordenamiento.dfy`): `_swap`, `_partition`, `_quick_sort` and `quick_sort` over an `array`, proved sorted by the number and a permutation.
- `Heap` (`heap.dfy`): `heapq` as a multiset with extract-min.
- `CaminoMinimo` (`dijkstra.dfy`): `dijkstra`, proved to return the shortest distances, a parent tree of tight edges and the arrival distances of the targets.
- `Recorrido` (`bfs.dfy`): `bfs` over the `Cola` class. It proves:
  - the parent and level structure;
  - that the first target discovered is returned;
  - on exhaustion, that the levels are hop distances.
- `Tendido` (`prim.dfy`): `prim`, building a new `Grafo`. The result has every vertex, only input edges with their weights, exactly the start's component as reachable set, and `|component| - 1` undirected edges, counted on its adjacency. A connected graph with one edge fewer than vertices has no cycle, so the result is a spanning tree of the component. Its `aristas` counter equals that edge count.
- `Ciclos` (`vacaciones.dfy`): `_vacaciones`. A non-empty answer completes a simple round trip through unvisited vertices. An empty one means no completion exists.
- `Pesos` (`pesos.dfy`): `pesos_ady`.
- `Centralidad` (`centralidad.dfy`): `centralidad_betweeness`. Each score is the sum, over the other sources, of the count accumulated backwards along that source's sorted shortest-path tree.

Vertices are strings. Weights are natural numbers. The infinite distance `float('inf')` is the `Inf` case of `Dist`.

Python's dictionary and set iteration order is not modelled: wherever the source iterates over a dictionary, the model processes the keys in an arbitrary order. Every property below holds for every order.

## Model

| member | source | states |
|---|---|---|
| Grafos.Cola.constructor | grafo.py:24-25 | a new queue is empty |
| Grafos.Cola.Encolar | grafo.py:27-30 | the element joins at the back, nothing else changes |
| Grafos.Cola.Desencolar | grafo.py:32-38 | a non-empty queue loses its front element, which is returned (FIFO); an empty queue is the error case, returned as `None` with no change |
| Grafos.Cola.EstaVacia | grafo.py:40-44 | true exactly when the queue holds nothing |
| Grafos.Cola.VerPrimero | grafo.py:46-50 | the front element of a non-empty queue, `None` (the error) on an empty one |
| Grafos.Grafo.constructor | grafo.py:54-58 | a new graph has no rows and both counters at 0, and is valid |
| Grafos.Grafo.Contiene | grafo.py:63-66 | true exactly when `x` is a vertex |
| Grafos.Grafo.VerAdyacencia | grafo.py:68-74 | true exactly when `x` has a row in which `y` appears |
| Grafos.Grafo.VerAAdyacentes | grafo.py:76-85 | the list holds each neighbour of `x` once, with the weight of its edge; an absent vertex gives the empty list |
| Grafos.Grafo.VerVAdyacentes | grafo.py:87-95 | the list holds each neighbour of `x` once and nothing else; an absent vertex gives the empty list |
| Grafos.Grafo.AgregarVertice | grafo.py:97-108 | returns true exactly when `x` was absent; then `x` gets an empty row and `vertices` grows by one; otherwise nothing changes; validity is kept |
| Grafos.Grafo.SacarVertice | grafo.py:110-125 | the row of `x` and every neighbour's entry for `x` are gone; the removed row is returned as a list; `vertices` drops by one and `aristas` by the degree of `x`; validity is kept |
| Grafos.Grafo.QuitarDeVecinos | grafo.py:117-121 | after the loop over the removed row, every listed neighbour has lost its entry for `x` and the counters are untouched |
| Grafos.PartialRemoveStep | grafo.py:119-121 | removing `x` from one more neighbour's row advances the partial removal by that neighbour |
| Grafos.Grafo.AgregarArista | grafo.py:127-139 | succeeds exactly when both endpoints are vertices; then both directions carry the new weight and `aristas` grows by one even when the edge already existed; otherwise nothing changes; validity is kept |
| Grafos.Grafo.RemoverArista | grafo.py:141-154 | returns the weight the edge had, or `None` when an endpoint is absent; on success both directions are gone (a self-loop once) and `aristas` drops by one; otherwise nothing changes |
| Grafos.Grafo.VerPeso | grafo.py:156-165 | the weight of the edge `x`-`y`, or `None` when there is none |
| Grafos.Grafo.CambiarPeso | grafo.py:167-178 | succeeds exactly when the edge exists; then both directions carry the new weight and the counters are unchanged; otherwise nothing changes |
| Grafos.Grafo.EstaVacio | grafo.py:180-183 | true exactly when the graph has no vertex (the counter test agrees with the rows under validity) |
| Grafos.Grafo.VerVertices | grafo.py:185-188 | the list holds every vertex exactly once |
| Grafos.Grafo.VerticeAleatorio | grafo.py:190-196 | `None` exactly when the graph is empty, otherwise some vertex of the graph |
| Grafos.Grafo.VerAristas | grafo.py:198-208 | every undirected edge is listed exactly once, in one of its two directions, with its weight, and nothing else is listed |
| Grafos.Grafo.AristasDe | grafo.py:202-206 | after scanning one vertex's row, the dictionary still holds only real edges without a reversed duplicate, and covers every edge at the vertices scanned so far |
| Grafos.EdgeListFromDict | grafo.py:208 | the items of a dictionary covering every edge once give a list of each undirected edge exactly once |
| Grafos.Grafo.CantidadAristas | grafo.py:219-221 | the edge counter |
| Grafos.Grafo.CantidadVertices | grafo.py:223-225 | the number of vertices, which the counter equals under validity |
| GraphModel.AddVertexEffect | grafo.py:103-106 | adding a vertex keeps symmetry, adds exactly that key (one more when it was new) and changes no weight |
| GraphModel.AddEdgeEffect | grafo.py:133-137 | setting an edge keeps symmetry and the vertex set, gives the weight in both directions and changes no other pair |
| GraphModel.RemoveEdgeEffect | grafo.py:147-152 | removing an edge keeps symmetry and the vertex set, leaves no weight in either direction and changes no other pair |
| GraphModel.RemoveVertexEffect | grafo.py:117-121 | removing a vertex keeps symmetry, removes exactly that key and every weight at it, and changes no other pair |
| GraphModel.WeightSymmetric | grafo.py:156-165 | in a symmetric graph the weight of `x`-`y` is the weight of `y`-`x` |
| Ordenamiento.Swap | biblioteca.py:53-55 | the two positions exchange their elements, every other position is untouched, and the contents are a permutation |
| Ordenamiento.Partition | biblioteca.py:33-51 | the returned position lies in `[inicio, fin]` and holds the original pivot; keys before it are smaller and keys after it are at least as large; the array is a permutation, untouched outside the range |
| Ordenamiento.QuickSortRange | biblioteca.py:21-31 | the range is sorted by the number, the array is a permutation of the old one and is untouched outside the range |
| Ordenamiento.QuickSort | biblioteca.py:14-19 | the whole array is sorted ascending by the number and is a permutation of the input |
| Heap.MinExists | biblioteca.py:75 | a non-empty heap has an element with the least key |
| Heap.PopMin | biblioteca.py:75 | the popped entry belongs to the heap and has the least key; the rest is the heap without it |
| CaminoMinimo.Inicializar | biblioteca.py:63-69 | every vertex starts at infinite distance; the arrival map holds exactly the listed targets, at infinity |
| CaminoMinimo.InitialState | biblioteca.py:63-73 | the state before the loop (source at 0 without parent, heap holding the source) satisfies the loop invariant |
| CaminoMinimo.RelajarArista | biblioteca.py:78-83 | relaxing one neighbour keeps the invariant of the scan of the popped vertex |
| CaminoMinimo.RelajarVecinos | biblioteca.py:77-83 | after relaxing every edge of the popped vertex the loop invariant holds again, and no distance grew |
| CaminoMinimo.MeasureDecreases | biblioteca.py:79-80 | lowering distances never raises the number of infinite ones, and a changed distance lowers the count or the finite sum (the loop terminates) |
| CaminoMinimo.FinalState | biblioteca.py:74-86 | with the heap empty, the distances are the shortest ones, every edge satisfies the triangle inequality, the parents form tight edges and the arrival map is right |
| CaminoMinimo.WalkBound | biblioteca.py:79-83 | with the triangle inequality, every walk from the source ends at a vertex whose distance is finite and at most the walk's weight |
| CaminoMinimo.TriangleGivesShortest | biblioteca.py:74-86 | distances that satisfy the triangle inequality and are each witnessed by a walk are the shortest distances, finite exactly for reachable vertices |
| CaminoMinimo.Dijkstra | biblioteca.py:57-86 | `dist` covers the vertices and the source, which is at 0; each distance is infinite exactly when the vertex is unreachable and is otherwise the least weight of a walk; exactly the vertices at finite distance have a parent, the source's is `None`, and each other parent is a neighbour whose distance plus the edge's weight is the vertex's; `dist_llegada` holds the targets present in the graph, each at its distance (the source's stays infinite) |
| Recorrido.HopBound | biblioteca.py:151-159 | when every visited vertex has been scanned, each walk from the source ends at a visited vertex whose level is at most the walk's length |
| Recorrido.ScannedGivesShortest | biblioteca.py:151-163 | a finished search tree's levels are the hop distances, and its vertices are exactly the reachable ones |
| Recorrido.Visitar | biblioteca.py:154-161 | discovering one neighbour marks it visited, gives it its parent and the next level and queues it; a target is returned at once |
| Recorrido.ExplorarVecinos | biblioteca.py:153-161 | scanning a dequeued vertex keeps the tree and queue invariant, or stops at a newly discovered target |
| Recorrido.Ronda | biblioteca.py:151-161 | one dequeue-and-scan keeps the invariant and visits a new vertex or shortens the queue, or returns a target |
| Recorrido.Buscar | biblioteca.py:142-163 | the search ends with a target found at discovery, or with an empty queue in which every vertex was queued once and scanned |
| Recorrido.Hallado | biblioteca.py:160-161 | a returned vertex is a target just visited, and no other visited vertex but the source is a target |
| Recorrido.Agotado | biblioteca.py:163 | on exhaustion, the levels are the fewest edges from the source, the visited vertices are exactly the reachable ones and none but the source is a target |
| Recorrido.Bfs | biblioteca.py:138-163 | parents and levels share a domain; the source is at level 0 without parent; each other vertex is a neighbour of its parent one level below it, with a walk from the source as long as its level; a returned vertex is a target and the only visited one besides the source; with no target found every reachable vertex is visited at its hop distance |
| Tendido.AgregarVertices | biblioteca.py:97-99 | the new graph holds every vertex with no edge |
| Tendido.EncolarVecinos | biblioteca.py:108-110 | one candidate edge is pushed, with its weight, for each neighbour outside the visited set, and nothing else |
| Tendido.EstadoInicial | biblioteca.py:92-101 | the start vertex alone, the edgeless tree and its pushed edges satisfy the loop invariant |
| Tendido.Descartada | biblioteca.py:103-105 | dropping a candidate whose far end is visited keeps the invariant |
| Tendido.ArbolCrece | biblioteca.py:106-107 | adding the edge to a new vertex keeps the tree inside the input graph, on visited vertices, reaching every visited vertex |
| Tendido.Incorporada | biblioteca.py:103-110 | taking a candidate to a new vertex adds one vertex and keeps the invariant |
| Tendido.SinAristas | biblioteca.py:97-99 | a graph whose rows are all empty has no undirected edge |
| Tendido.AristaNueva | biblioteca.py:106 | joining a vertex to one that has no edge yet adds exactly one undirected edge, which is new |
| Tendido.Paso | biblioteca.py:102-110 | one pop keeps the invariant, keeps both the tree's number of undirected edges and the `aristas` counter at visited minus one, and visits a new vertex or shrinks the heap |
| Tendido.CerradoAlcanza | biblioteca.py:102-111 | a walk from a set that no edge leaves stays in that set |
| Tendido.EstadoFinal | biblioteca.py:102-111 | with the heap empty, the visited set is the start's component and the tree reaches exactly the vertices the input graph reaches from the start |
| Tendido.Prim | biblioteca.py:89-111 | a new valid graph with the same vertices, whose edges are input edges with their weights; the `aristas` counter equals the number of undirected edges of the result; an empty input gives a graph with no edge; otherwise the tree connects exactly the start's component, has edges only inside it, and has one undirected edge fewer than the component has vertices, which makes it a spanning tree of the component |
| Ciclos.ExtensionCons | biblioteca.py:238-242 | a completion from an unvisited neighbour, prefixed by that neighbour, completes the trip from the current vertex |
| Ciclos.ExtensionTail | biblioteca.py:238-244 | every completion from the current vertex starts at an unvisited neighbour and continues with a completion from it |
| Ciclos.SinCierre | biblioteca.py:232-237 | with `n` vertices chosen and no edge back to the origin there is no completion |
| Ciclos.DescartadoVisitado | biblioteca.py:239 | a visited neighbour starts no completion |
| Ciclos.DescartadoFallido | biblioteca.py:240-241 | a neighbour from which the search found nothing starts no completion |
| Ciclos.SinExtension | biblioteca.py:243-244 | when every neighbour has been ruled out, there is no completion at all |
| Ciclos.Hallada | biblioteca.py:240-242 | the answer found through a neighbour completes the trip from the current vertex, and the visited set is the old one plus the trip's new vertices |
| Ciclos.Probar | biblioteca.py:238-244 | the neighbour loop returns the first complete answer, or the empty list, with the current vertex taken back out of the visited set and no completion existing |
| Ciclos.Vacaciones | biblioteca.py:228-244 | a non-empty answer has `n` vertices and extends `solucion` by distinct, previously unvisited vertices forming a walk from `v` whose last vertex is adjacent to the origin, and the visited set gains exactly `v` and them; an empty answer (with `n > 0`) means no such extension exists, and `v` is removed from the visited set |
| Pesos.PesosAdy | biblioteca.py:165-173 | the dictionary maps exactly the neighbours of the vertex to the weights of their edges, so it equals the vertex's row; an absent vertex gives the empty dictionary |
| Centralidad.Ceros | biblioteca.py:206-207 | every listed vertex starts at 0 |
| Centralidad.ArbolDe | biblioteca.py:210 | in a connected graph Dijkstra's result is a shortest-path tree over all vertices: every distance finite and no walk lighter, every parent edge tight |
| Centralidad.Ordenadas | biblioteca.py:216-217 | the distance list holds every vertex once with its distance and is sorted ascending |
| Centralidad.Acumular | biblioteca.py:218-220 | walking the list backwards, when no vertex is listed at or after its parent, each vertex ends with the sum over its children of one plus the child's count |
| Centralidad.AcumularPaso | biblioteca.py:219-220 | one backward step extends that sum to one more listed vertex |
| Centralidad.PadresAntesOrdenada | biblioteca.py:216-220 | with positive weights, the list sorted by distance puts every parent strictly before its children |
| Centralidad.Completa | biblioteca.py:211-220 | the tree, the sorted list and the counts together form one source's pass |
| Centralidad.Dependencia | biblioteca.py:211-220 | one source's pass: the sorted distance list covers every vertex, and with positive weights each vertex's count is the sum over its tree children of one plus the child's count |
| Centralidad.SumarDependencia | biblioteca.py:223-225 | every vertex but the source gains its count, and the source is left as it was |
| Centralidad.TotalSinPropia | biblioteca.py:223-224 | a vertex's score does not depend on its own pass as a source |
| Centralidad.Sumada | biblioteca.py:223-225 | after adding one source's counts, each score is the total over the sources so far |
| Centralidad.AcumuladasCrece | biblioteca.py:208-225 | recording one more source's pass keeps every recorded pass |
| Centralidad.Ronda | biblioteca.py:208-225 | one source's pass keeps the invariant of the outer loop with one more source done |
| Centralidad.CentralidadBetweeness | biblioteca.py:201-226 | every vertex gets a score (the ghost result lists the sources in the order taken); each score is the sum, over every source other than the vertex, of the count that source's pass gives it; each pass is a shortest-path tree with the counts of one plus each child's count summed over the children |

## Left out

- Iteration order of Python dictionaries and sets, and the tie-breaking of `heapq` between equal keys: the model picks an arbitrary element wherever the source's choice depends on them.
- Randomness: `Grafo.vertice_aleatorio` and the start vertex of `prim` are an arbitrary vertex.
- `centralidad_aproximada` and the weighted `vertice_aleatorio` of `biblioteca.py`: random walks driven by floating-point draws.
- `dfs` and `_dfs`: `dfs` refers to a name it never defines.
- `Grafo.ver_aristas_ordenadas`: it calls a sort that `grafo.py` does not import.
- `Grafo.__str__`: formatting only.
- `graph.py` and `flycombi.py` are not part of this model: file parsing, the command loop and printing.
- Weights are natural numbers. The source's floating-point weights are not modelled, and `float('inf')` is the `Inf` case of `Dist`.
- Grafos.Grafo.SacarVertice: requires the vertex to be present. The source fails on an absent vertex when it takes the length of `None`.
- Grafos.Grafo.RemoverArista: requires the edge to exist when both endpoints are present, because the source's `pop` fails otherwise.
- Grafos.Cola.Desencolar: the source's `ValueError` on an empty queue is returned as `None`; `VerPrimero` likewise.
- Ciclos.Vacaciones: the shared mutable `visitados` set is passed in and handed back as a value instead of being updated in place.
- Recorrido.Bfs: the levels are proved to be hop distances only when no target is found. On an early return the levels found so far are not claimed minimal.
- CaminoMinimo.Dijkstra: the source's `dist_llegada` entry is never updated when the source vertex is itself a target; the model states that entry stays infinite.
- Tendido.Prim: minimality of the total weight is not proved. Acyclicity is not a predicate of its own. It follows from two stated facts: the result connects the component, and it has one undirected edge fewer than the component has vertices.
- Tendido.Prim: the start vertex the model chooses is returned as a ghost result, so that the contract can name it.
- Centralidad.CentralidadBetweeness: requires a connected graph, because the source reads every vertex's parent, and only a connected graph gives every vertex one.
- Centralidad.CentralidadBetweeness: the count recurrence is proved only for positive weights. With a zero-weight edge, the sort can place a child before its parent among equal distances. For example, with edges d–a 1, a–b 1, b–c 0 and source d, the child c can precede its parent b. The backward pass then misses part of the count.
