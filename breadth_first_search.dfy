/**
  `BreadthFirstSearchAlgorithm` (src/lib/algorithms/search/breadth-first-search-algorithm.ts):
  a breadth-first search over a `BidirectionalGraph` driven by a vertex
  queue, with a color map updated in place. The algorithm holds an
  `AlgorithmBase` for its state machine and services and a
  `RootedAlgorithmBase` for its root.

  The ten subjects are modelled by the log `events` of what they emitted in
  the current computation; no subscriber changes the search.
 */
module BreadthFirstSearch {
  import opened Wrappers
  import opened Edges
  import opened GraphColors
  import opened GraphSpec
  import opened BfsSpec
  import Algorithms
  import RootedAlgorithms
  import Graphs
  import Queues
  import opened CancelManagers

  class BreadthFirstSearchAlgorithm<V(==)> {
    const core: Algorithms.AlgorithmBase
    const rooted: RootedAlgorithms.RootedAlgorithmBase<V>
    const visitedGraph: Graphs.BidirectionalGraph<V>
    /** `_vertexQueue`, given by the caller or a fresh `Queue`. */
    const vertexQueue: Queues.Queue<V>
    const outEdgeEnumerator: seq<Edge<V>> -> seq<Edge<V>>
    /** `_colors`, set in place. */
    var colors: map<V, GraphColor>
    /** The notifications of the current computation, oldest first. */
    var events: seq<BfsEvent<V>>

    ghost predicate Valid()
      reads rooted, visitedGraph.vertexOutEdges
    {
      rooted.Valid() && visitedGraph.vertexOutEdges.Valid()
    }

    /** What the search reads and does not change. */
    function Settings(): BfsConfig<V>
      reads this, visitedGraph.vertexOutEdges
    {
      BfsConfig(visitedGraph.vertexOutEdges.entries, outEdgeEnumerator)
    }

    /** `new BreadthFirstSearchAlgorithm(host, visitedGraph, vertexQueue?,
        vertexColors?, outEdgeEnumerator?)` (lines 41-50): a fresh queue and
        a fresh color map unless they are given, and the identity as the
        default enumerator. */
    constructor (host: Algorithms.AlgorithmBase, visitedGraph: Graphs.BidirectionalGraph<V>,
                 vertexQueue: Option<Queues.Queue<V>>, colors: Option<map<V, GraphColor>>,
                 outEdgeEnumerator: Option<seq<Edge<V>> -> seq<Edge<V>>>)
      requires visitedGraph.vertexOutEdges.Valid()
      ensures Valid() && fresh(core) && fresh(core.services) && fresh(rooted)
      ensures core.services.host == Some(host) && core.services.cancelManager == None
      ensures core.state == Algorithms.NotRunning && core.servicesMap == map[] && core.events == []
      ensures rooted.rootVertex == None && rooted.rootVertexChanges == 0
      ensures this.visitedGraph == visitedGraph
      ensures vertexQueue.Some? ==> this.vertexQueue == vertexQueue.value
      ensures vertexQueue.None? ==> fresh(this.vertexQueue) && this.vertexQueue.entries == []
      ensures this.colors == if colors.Some? then colors.value else map[]
      ensures outEdgeEnumerator.Some? ==> this.outEdgeEnumerator == outEdgeEnumerator.value
      ensures outEdgeEnumerator.None? ==> this.outEdgeEnumerator == Identity
      ensures events == []
    {
      core := new Algorithms.AlgorithmBase(Some(host));
      rooted := new RootedAlgorithms.RootedAlgorithmBase();
      this.visitedGraph := visitedGraph;
      var queue: Queues.Queue<V>;
      if vertexQueue.Some? {
        queue := vertexQueue.value;
      } else {
        queue := new Queues.Queue();
      }
      this.vertexQueue := queue;
      this.colors := if colors.Some? then colors.value else map[];
      var enumerator: seq<Edge<V>> -> seq<Edge<V>> := Identity;
      if outEdgeEnumerator.Some? {
        enumerator := outEdgeEnumerator.value;
      }
      this.outEdgeEnumerator := enumerator;
      events := [];
    }

    /** `getVertexColor(v)` (lines 123-125): `undefined` for an uncolored
        vertex, since `!` checks nothing at run time. */
    function GetVertexColor(v: V): (r: Option<GraphColor>)
      reads this
      ensures r.Some? <==> v in colors
      ensures r.Some? ==> r.value == colors[v]
    {
      if v in colors then Some(colors[v]) else None
    }

    /** `initialize` (lines 127-139): fetch the cancel manager, clear the
        colors, then color every vertex White in vertex order, firing
        `initializeVertex` for each. The queue is left as it is. */
    method Initialize()
      requires visitedGraph.vertexOutEdges.Valid()
      modifies this, core.services, core.Host()
      ensures colors == Initialized(visitedGraph.Vertices())
      ensures events == old(events) + Inits(visitedGraph.Vertices())
      ensures core.state == old(core.state) && core.events == old(core.events)
    {
      var cancelManager := core.CancelManager();
      if cancelManager.IsCancelling() {
        assert false;
        return;
      }
      colors := map[];
      var vs := visitedGraph.Vertices();
      var log := events;
      var i := 0;
      while i < |vs|
        invariant 0 <= i <= |vs|
        invariant colors == Initialized(vs[..i])
        invariant log == old(events) + Inits(vs[..i])
        invariant core.state == old(core.state) && core.events == old(core.events)
      {
        assert vs[..i + 1] == vs[..i] + [vs[i]];
        InitializedSnoc(vs[..i], vs[i]);
        InitsSnoc(vs[..i], vs[i]);
        colors := colors[vs[i] := White];
        log := log + [InitializeVertex(vs[i])];
        i := i + 1;
      }
      assert vs[..i] == vs;
      events := log;
    }

    /** `enqueueRoot(v)` (lines 157-164). */
    method EnqueueRoot(v: V)
      modifies this, vertexQueue
      ensures var s := BfsSpec.EnqueueRoot(old(colors), v, old(vertexQueue.entries), old(events));
        colors == s.colors && vertexQueue.entries == s.queue && events == s.log
    {
      events := events + [StartVertex(v)];
      colors := colors[v := Gray];
      events := events + [DiscoverVertex(v)];
      vertexQueue.Enqueue(v);
    }

    /** `flushVisitQueue()` (lines 166-197), proved to end where
        `BfsSpec.Flush` does: the same colors, the same queue and the same
        notifications. */
    method FlushVisitQueue(ghost c: BfsConfig<V>)
      requires c == Settings()
      modifies this, vertexQueue, core.services, core.Host()
      ensures Bfs(colors, vertexQueue.entries, events) == Flush(c, old(colors), old(vertexQueue.entries), old(events))
      ensures core.state == old(core.state) && core.events == old(core.events)
    {
      var cancelManager := core.CancelManager();
      var oee := outEdgeEnumerator;
      ghost var goal := Flush(c, colors, vertexQueue.entries, events);
      while vertexQueue.Count() > 0
        invariant Settings() == c
        invariant Flush(c, colors, vertexQueue.entries, events) == goal
        invariant core.state == old(core.state) && core.events == old(core.events)
        decreases |Whites(colors)|, |vertexQueue.entries|
      {
        if cancelManager.IsCancelling() {
          assert false;
          return;
        }
        var head := vertexQueue.Dequeue();
        var u := head.value;
        events := events + [ExamineVertex(u)];
        ExamineOutEdges(c, u, oee(visitedGraph.OutEdges(u)));
      }
    }

    /** The `for` loop of `flushVisitQueue` over the out-edges of `u` (lines
        175-192), then `u` colored Black and finished (lines 194-195); proved
        to end where `BfsSpec.Scan` hands over to the next round of `Flush`. */
    method ExamineOutEdges(ghost c: BfsConfig<V>, u: V, edges: seq<Edge<V>>)
      requires c == Settings()
      modifies this, vertexQueue
      ensures Settings() == c
      ensures Flush(c, colors, vertexQueue.entries, events) == Scan(c, old(colors), old(vertexQueue.entries), u, edges, old(events))
      ensures |Whites(colors)| < |Whites(old(colors))|
        || (|Whites(colors)| == |Whites(old(colors))| && vertexQueue.entries == old(vertexQueue.entries))
    {
      ghost var goal := Scan(c, colors, vertexQueue.entries, u, edges, events);
      ghost var w0 := |Whites(colors)|;
      var i := 0;
      while i < |edges|
        invariant 0 <= i <= |edges|
        invariant Settings() == c
        invariant Scan(c, colors, vertexQueue.entries, u, edges[i..], events) == goal
        invariant |Whites(colors)| < w0 || (|Whites(colors)| == w0 && vertexQueue.entries == old(vertexQueue.entries))
      {
        var e := edges[i];
        assert edges[i..][1..] == edges[i + 1..];
        var v := e.target;
        events := events + [ExamineEdge(e)];
        var vColor := GetVertexColor(v);
        if vColor == Some(White) {
          Painted(colors, v, Gray);
          events := events + [TreeEdge(e)];
          colors := colors[v := Gray];
          events := events + [DiscoverVertex(v)];
          vertexQueue.Enqueue(v);
        } else {
          events := events + [NonTreeEdge(e)];
          if vColor == Some(Gray) {
            events := events + [GrayTarget(e)];
          } else {
            events := events + [BlackTarget(e)];
          }
        }
        i := i + 1;
      }
      Painted(colors, u, Black);
      colors := colors[u := Black];
      events := events + [FinishVertex(u)];
    }

    /** `visit(v)` (lines 153-156), proved to end where `BfsSpec.Visit` does. */
    method Visit(v: V) returns ()
      modifies this, vertexQueue, core.services, core.Host()
      ensures Bfs(colors, vertexQueue.entries, events)
        == BfsSpec.Visit(old(Settings()), old(colors), v, old(vertexQueue.entries), old(events))
      ensures core.state == old(core.state) && core.events == old(core.events)
    {
      EnqueueRoot(v);
      FlushVisitQueue(Settings());
    }

    /** `internalCompute` (lines 141-152), proved to end where `BfsSpec.Run`
        does. */
    method InternalCompute(ghost c: BfsConfig<V>)
      requires Valid() && c == Settings()
      modifies this, vertexQueue, core.services, core.Host()
      ensures Bfs(colors, vertexQueue.entries, events)
        == Run(c, old(colors), rooted.rootVertex, visitedGraph.VertexCount(), old(vertexQueue.entries), old(events))
      ensures core.state == old(core.state) && core.events == old(core.events)
    {
      if visitedGraph.VertexCount() == 0 {
        return;
      }
      var result := rooted.TryGetRootVertex();
      if result.Some? {
        EnqueueRoot(result.value);
      }
      FlushVisitQueue(c);
    }

    /** `compute(rootVertex?)` (rooted-algorithm-base.ts, lines 51-56): set
        the root if one is given, then compute. */
    method Compute(root: Option<V>) returns (r: Result<()>)
      requires Valid()
      modifies this, rooted, core, core.services, core.Host(), vertexQueue
      ensures Valid()
      ensures root.Some? ==> rooted.rootVertex == root
      ensures root.None? ==> rooted.rootVertex == old(rooted.rootVertex)
      ensures var vs := visitedGraph.Vertices();
        var s := Run(old(Settings()), Initialized(vs), rooted.rootVertex, |vs|, old(vertexQueue.entries), Inits(vs));
        && colors == s.colors && vertexQueue.entries == s.queue && events == s.log
        && var t := Algorithms.Apply(old(core.state), Algorithms.Run);
        && core.state == t.state && core.events == old(core.events) + t.fired && r == t.result
    {
      if root.Some? {
        rooted.SetRootVertex(root.value);
      }
      r := ComputeAll();
    }

    /** `compute()` (algorithm-base.ts, lines 68-77): begin, initialize, run
        the search and end; the empty `clean` changes nothing. */
    method ComputeAll() returns (r: Result<()>)
      requires Valid()
      modifies this, core, core.services, core.Host(), vertexQueue
      ensures var vs := visitedGraph.Vertices();
        var s := Run(old(Settings()), Initialized(vs), rooted.rootVertex, |vs|, old(vertexQueue.entries), Inits(vs));
        && colors == s.colors && vertexQueue.entries == s.queue && events == s.log
        && var t := Algorithms.Apply(old(core.state), Algorithms.Run);
        && core.state == t.state && core.events == old(core.events) + t.fired && r == t.result
    {
      ghost var b := Algorithms.BeginStep(old(core.state));
      core.BeginComputation();
      InitializeAndSearch();
      r := core.EndComputation();
      Appended(old(core.events), b.fired, Algorithms.EndStep(b.state).fired);
    }

    /** The middle of `compute()`: `initialize` then `internalCompute`. */
    method InitializeAndSearch()
      requires Valid()
      modifies this, core.services, core.Host(), vertexQueue
      ensures var vs := visitedGraph.Vertices();
        Bfs(colors, vertexQueue.entries, events)
        == Run(old(Settings()), Initialized(vs), rooted.rootVertex, |vs|, old(vertexQueue.entries), Inits(vs))
      ensures core.state == old(core.state) && core.events == old(core.events)
    {
      ghost var c, vs := Settings(), visitedGraph.Vertices();
      events := [];
      Initialize();
      assert Settings() == c && colors == Initialized(vs) && events == Inits(vs);
      InternalCompute(c);
    }
  }
}
