/**
  The search of `DepthFirstSearchAlgorithm`
  (src/lib/algorithms/search/depth-first-search-algorithm.ts) as functions of
  the colors, the frame stack and the notifications fired so far.

  `Frames` is the outer `while (todo.length > 0)` loop of `visit` and
  `Explore` its inner loop over the current vertex's remaining out-edges;
  `Explore` resumes `Frames` when those edges run out, and a tree edge
  continues `Explore` at the target. The class in depth_first_search.dfy runs
  the same loops in place and is proved to end where these functions do.
 */
module DfsSpec {
  import opened Wrappers
  import opened Edges
  import opened GraphColors
  import opened Dictionaries
  import opened GraphSpec

  /** The notifications of the eight subjects of the search. */
  datatype DfsEvent<V> =
    | InitializeVertex(vertex: V)
    | StartVertex(vertex: V)
    | DiscoverVertex(vertex: V)
    | FinishVertex(vertex: V)
    | ExamineEdge(edge: Edge<V>)
    | TreeEdge(edge: Edge<V>)
    | BackEdge(edge: Edge<V>)
    | ForwardOrCrossEdge(edge: Edge<V>)

  /** A `SearchFrame`: a vertex, the out-edges it has still to examine, and
      its depth. */
  datatype Frame<V> = Frame(vertex: V, edges: seq<Edge<V>>, depth: int)

  /** What a search reads and never changes: the out-edge index of the graph,
      `outEdgeEnumerator`, `maxDepth` (`None` for `Number.MAX_VALUE`), and the
      exception a `backEdge` subscriber throws, if one is subscribed. */
  datatype Config<!V> = Config(
    graph: Index<V>,
    enumerate: seq<Edge<V>> -> seq<Edge<V>>,
    maxDepth: Option<int>,
    backEdgeError: Option<Exception>)

  /** The colors and notifications a search ends with, and whether it threw. */
  datatype Search<V> = Search(colors: map<V, GraphColor>, log: seq<DfsEvent<V>>, result: Result<()>)

  // ------------------------------------------------------------ measures

  /** The edges still to examine on the stack, plus one per frame. */
  function Pending<V>(todo: seq<Frame<V>>): nat {
    if todo == [] then 0 else Pending(todo[..|todo| - 1]) + |todo[|todo| - 1].edges| + 1
  }

  /** `depth > this.maxDepth`. */
  function TooDeep(depth: int, maxDepth: Option<int>): (b: bool)
    ensures maxDepth.None? ==> !b
    ensures maxDepth.Some? ==> (b <==> maxDepth.value < depth)
  {
    maxDepth.Some? && depth > maxDepth.value
  }

  /** The out-edges `visit` walks for `u`: `oee(visitedGraph.outEdges(u))`. */
  function OutEdges<V(==)>(c: Config<V>, u: V): seq<Edge<V>> {
    c.enumerate(Lookup(c.graph, u))
  }

  // ------------------------------------------------------------ the search

  /** The outer loop of `visit` (lines 163-214): pop a frame; finish it at
      once when it is too deep (lines 171-176), otherwise go on with its
      remaining edges. */
  function Frames<V(==)>(c: Config<V>, colors: map<V, GraphColor>, todo: seq<Frame<V>>, log: seq<DfsEvent<V>>): (r: Search<V>)
    ensures log <= r.log
    ensures r.result.Failure? ==> c.backEdgeError.Some? && r.result.error == c.backEdgeError.value
    decreases |Whites(colors)|, Pending(todo), 1
  {
    if todo == [] then Search(colors, log, Success(()))
    else
      var f := todo[|todo| - 1];
      if TooDeep(f.depth, c.maxDepth) then
        Painted(colors, f.vertex, Black);
        Frames(c, colors[f.vertex := Black], todo[..|todo| - 1], log + [FinishVertex(f.vertex)])
      else
        Explore(c, colors, todo[..|todo| - 1], f.vertex, f.edges, f.depth, log)
  }

  /** The inner loop of `visit` (lines 179-213) at vertex `u`: examine the
      next edge and classify it by its target's color (lines 189-209); a
      White target pushes the current frame back and continues at the
      target one level deeper; a Gray one fires `backEdge`, whose subscriber
      may throw; a target with no color is only examined. When the edges run
      out, `u` is finished (lines 212-213). */
  function Explore<V(==)>(c: Config<V>, colors: map<V, GraphColor>, todo: seq<Frame<V>>, u: V, edges: seq<Edge<V>>, depth: int, log: seq<DfsEvent<V>>): (r: Search<V>)
    ensures log <= r.log
    ensures r.result.Failure? ==> c.backEdgeError.Some? && r.result.error == c.backEdgeError.value
    decreases |Whites(colors)|, Pending(todo) + |edges| + 1, 0
  {
    if edges == [] then
      Painted(colors, u, Black);
      Frames(c, colors[u := Black], todo, log + [FinishVertex(u)])
    else
      var e := edges[0];
      var v := e.target;
      var examined := log + [ExamineEdge(e)];
      if v in colors && colors[v] == White then
        Painted(colors, v, Gray);
        assert Pending(todo + [Frame(u, edges[1..], depth)]) == Pending(todo) + |edges|;
        Explore(c, colors[v := Gray], todo + [Frame(u, edges[1..], depth)], v, OutEdges(c, v), depth + 1,
          examined + [TreeEdge(e)] + [DiscoverVertex(v)])
      else if v in colors && colors[v] == Gray then
        if c.backEdgeError.Some? then Search(colors, examined + [BackEdge(e)], Failure(c.backEdgeError.value))
        else Explore(c, colors, todo, u, edges[1..], depth, examined + [BackEdge(e)])
      else if v in colors && colors[v] == Black then
        Explore(c, colors, todo, u, edges[1..], depth, examined + [ForwardOrCrossEdge(e)])
      else
        Explore(c, colors, todo, u, edges[1..], depth, examined)
  }

  /** `visit(root)` (lines 154-162): color the root Gray, discover it, and
      run the loops from a stack holding its frame at depth 0. */
  function Visit<V(==)>(c: Config<V>, colors: map<V, GraphColor>, root: V, log: seq<DfsEvent<V>>): (r: Search<V>)
    ensures log + [DiscoverVertex(root)] <= r.log
    ensures r.result.Failure? ==> c.backEdgeError.Some? && r.result.error == c.backEdgeError.value
  {
    Frames(c, colors[root := Gray], [Frame(root, OutEdges(c, root), 0)], log + [DiscoverVertex(root)])
  }

  /** The rootless branch of `internalCompute` (lines 121-136): each vertex
      still White, in vertex order, starts a tree; an exception stops the
      sweep. */
  function Sweep<V(==)>(c: Config<V>, colors: map<V, GraphColor>, vs: seq<V>, log: seq<DfsEvent<V>>): (r: Search<V>)
    ensures log <= r.log
    ensures r.result.Failure? ==> c.backEdgeError.Some? && r.result.error == c.backEdgeError.value
    decreases |vs|
  {
    if vs == [] then Search(colors, log, Success(()))
    else if vs[0] in colors && colors[vs[0]] == White then
      var s := Visit(c, colors, vs[0], log + [StartVertex(vs[0])]);
      if s.result.Failure? then s else Sweep(c, s.colors, vs[1..], s.log)
    else
      Sweep(c, colors, vs[1..], log)
  }

  /** `internalCompute` (lines 115-138): from the root when one is set,
      otherwise a sweep over the vertices. */
  function Run<V(==)>(c: Config<V>, colors: map<V, GraphColor>, root: Option<V>, vs: seq<V>, log: seq<DfsEvent<V>>): (r: Search<V>)
    ensures root.Some? ==> log + [StartVertex(root.value), DiscoverVertex(root.value)] <= r.log
    ensures log <= r.log
    ensures r.result.Failure? ==> c.backEdgeError.Some? && r.result.error == c.backEdgeError.value
  {
    if root.Some? then Visit(c, colors, root.value, log + [StartVertex(root.value)])
    else Sweep(c, colors, vs, log)
  }

  /** The `initializeVertex` notifications of `initialize`, one per vertex in
      vertex order. */
  function Inits<V>(vs: seq<V>): (r: seq<DfsEvent<V>>)
    ensures |r| == |vs|
  {
    if vs == [] then [] else Inits(vs[..|vs| - 1]) + [InitializeVertex(vs[|vs| - 1])]
  }

  /** One more vertex fires one more `initializeVertex`. */
  lemma InitsSnoc<V>(vs: seq<V>, v: V)
    ensures Inits(vs + [v]) == Inits(vs) + [InitializeVertex(v)]
  {
    assert (vs + [v])[..|vs|] == vs;
  }
}
