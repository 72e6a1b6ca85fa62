/**
  The search of `BreadthFirstSearchAlgorithm`
  (src/lib/algorithms/search/breadth-first-search-algorithm.ts) as functions
  of the colors, the vertex queue and the notifications fired so far.

  `Flush` is the `while` loop of `flushVisitQueue` and `Scan` its inner `for`
  loop over the out-edges of the vertex just dequeued. The class in
  breadth_first_search.dfy runs the same loops in place and is proved to end
  where these functions do.
 */
module BfsSpec {
  import opened Wrappers
  import opened Edges
  import opened GraphColors
  import opened GraphSpec

  /** The notifications of the ten subjects of the search. */
  datatype BfsEvent<V> =
    | InitializeVertex(vertex: V)
    | StartVertex(vertex: V)
    | DiscoverVertex(vertex: V)
    | ExamineVertex(vertex: V)
    | FinishVertex(vertex: V)
    | ExamineEdge(edge: Edge<V>)
    | TreeEdge(edge: Edge<V>)
    | NonTreeEdge(edge: Edge<V>)
    | GrayTarget(edge: Edge<V>)
    | BlackTarget(edge: Edge<V>)

  /** What a search reads and never changes: the out-edge index of the graph
      and `outEdgeEnumerator`. */
  datatype BfsConfig<!V> = BfsConfig(graph: Index<V>, enumerate: seq<Edge<V>> -> seq<Edge<V>>)

  /** The colors, the queue and the notifications a search ends with. */
  datatype Bfs<V> = Bfs(colors: map<V, GraphColor>, queue: seq<V>, log: seq<BfsEvent<V>>)

  /** The out-edges the search walks for `u`: `oee(visitedGraph.outEdges(u))`. */
  function OutEdges<V(==)>(c: BfsConfig<V>, u: V): seq<Edge<V>> {
    c.enumerate(Lookup(c.graph, u))
  }

  /** The `while` loop of `flushVisitQueue` (lines 169-196): dequeue the head,
      examine it and scan its out-edges. */
  function Flush<V(==)>(c: BfsConfig<V>, colors: map<V, GraphColor>, queue: seq<V>, log: seq<BfsEvent<V>>): (r: Bfs<V>)
    ensures r.queue == [] && log <= r.log
    decreases |Whites(colors)|, |queue|, 1, 0
  {
    if queue == [] then Bfs(colors, [], log)
    else Scan(c, colors, queue[1..], queue[0], OutEdges(c, queue[0]), log + [ExamineVertex(queue[0])])
  }

  /** The `for` loop of `flushVisitQueue` (lines 175-192) at vertex `u`:
      examine the next edge; a White target is a tree edge, turns Gray, is
      discovered and enqueued; any other target is a non-tree edge, and a
      gray or a black target, where a target with no color counts as black.
      When the edges run out, `u` is colored Black and finished (lines
      194-195). */
  function Scan<V(==)>(c: BfsConfig<V>, colors: map<V, GraphColor>, queue: seq<V>, u: V, edges: seq<Edge<V>>, log: seq<BfsEvent<V>>): (r: Bfs<V>)
    ensures r.queue == [] && log <= r.log
    decreases |Whites(colors)|, |queue| + 1, 0, |edges|
  {
    if edges == [] then
      Painted(colors, u, Black);
      Flush(c, colors[u := Black], queue, log + [FinishVertex(u)])
    else
      var e := edges[0];
      var v := e.target;
      var examined := log + [ExamineEdge(e)];
      if v in colors && colors[v] == White then
        Painted(colors, v, Gray);
        Scan(c, colors[v := Gray], queue + [v], u, edges[1..], examined + [TreeEdge(e)] + [DiscoverVertex(v)])
      else if v in colors && colors[v] == Gray then
        Scan(c, colors, queue, u, edges[1..], examined + [NonTreeEdge(e)] + [GrayTarget(e)])
      else
        Scan(c, colors, queue, u, edges[1..], examined + [NonTreeEdge(e)] + [BlackTarget(e)])
  }

  /** `enqueueRoot(v)` (lines 157-164): start at `v`, color it Gray, discover
      it and enqueue it. */
  function EnqueueRoot<V>(colors: map<V, GraphColor>, v: V, queue: seq<V>, log: seq<BfsEvent<V>>): (r: Bfs<V>)
    ensures v in r.colors && r.colors[v] == Gray
    ensures forall u | u in colors && u != v :: u in r.colors && r.colors[u] == colors[u]
    ensures r.queue == queue + [v]
    ensures r.log == log + [StartVertex(v), DiscoverVertex(v)]
  {
    Bfs(colors[v := Gray], queue + [v], log + [StartVertex(v)] + [DiscoverVertex(v)])
  }

  /** `visit(v)` (lines 153-156): enqueue `v` as a root, then flush. */
  function Visit<V(==)>(c: BfsConfig<V>, colors: map<V, GraphColor>, v: V, queue: seq<V>, log: seq<BfsEvent<V>>): (r: Bfs<V>)
    ensures r.queue == [] && log + [StartVertex(v), DiscoverVertex(v)] <= r.log
  {
    var s := EnqueueRoot(colors, v, queue, log);
    Flush(c, s.colors, s.queue, s.log)
  }

  /** `internalCompute` (lines 141-152): nothing on a graph without
      vertices; otherwise enqueue the root, if one is set, and flush the
      queue, which may hold vertices from before. */
  function Run<V(==)>(c: BfsConfig<V>, colors: map<V, GraphColor>, root: Option<V>, vertexCount: nat, queue: seq<V>, log: seq<BfsEvent<V>>): (r: Bfs<V>)
    ensures vertexCount == 0 ==> r == Bfs(colors, queue, log)
    ensures vertexCount > 0 ==> r.queue == []
    ensures root.Some? && vertexCount > 0 ==> log + [StartVertex(root.value), DiscoverVertex(root.value)] <= r.log
    ensures log <= r.log
  {
    if vertexCount == 0 then Bfs(colors, queue, log)
    else if root.Some? then Visit(c, colors, root.value, queue, log)
    else Flush(c, colors, queue, log)
  }

  /** The `initializeVertex` notifications of `initialize`, one per vertex in
      vertex order. */
  function Inits<V>(vs: seq<V>): (r: seq<BfsEvent<V>>)
    ensures |r| == |vs|
  {
    if vs == [] then [] else Inits(vs[..|vs| - 1]) + [InitializeVertex(vs[|vs| - 1])]
  }

  /** One more vertex fires one more `initializeVertex`. */
  lemma InitsSnoc<V>(vs: seq<V>, v: V)
    ensures Inits(vs + [v]) == Inits(vs) + [InitializeVertex(v)]
  {
    assert (vs + [v])[..|vs|] == vs;
  }
}
