/**
  `DepthFirstSearchAlgorithm` (src/lib/algorithms/search/depth-first-search-algorithm.ts):
  an iterative depth-first search over a `BidirectionalGraph` with an
  explicit frame stack, a color map updated in place, and edge
  classification. The algorithm holds an `AlgorithmBase` for its state
  machine and services and a `RootedAlgorithmBase` for its root.

  The eight subjects are modelled by the log `events` of what they emitted
  in the current computation. A subscriber can only observe, except for the
  two handlers of the topological sort: its `backEdge` handler throws, and
  `backEdgeError` is the exception it throws, if it is subscribed; its
  `finishVertex` handler is replayed from the log (topological_sort.dfy).
 */
module DepthFirstSearch {
  import opened Wrappers
  import opened Edges
  import opened GraphColors
  import opened GraphSpec
  import opened DfsSpec
  import Algorithms
  import RootedAlgorithms
  import Graphs
  import opened CancelManagers

  class DepthFirstSearchAlgorithm<V(==)> {
    const core: Algorithms.AlgorithmBase
    const rooted: RootedAlgorithms.RootedAlgorithmBase<V>
    const visitedGraph: Graphs.BidirectionalGraph<V>
    const outEdgeEnumerator: seq<Edge<V>> -> seq<Edge<V>>
    /** `_colors`, set in place. */
    var colors: map<V, GraphColor>
    /** `_maxDepth`; `None` stands for `Number.MAX_VALUE`. */
    var maxDepth: Option<int>
    /** What a subscriber of `backEdge` throws, if one is subscribed. */
    var backEdgeError: Option<Exception>
    /** The notifications of the current computation, oldest first. */
    var events: seq<DfsEvent<V>>

    ghost predicate Valid()
      reads rooted, visitedGraph.vertexOutEdges
    {
      rooted.Valid() && visitedGraph.vertexOutEdges.Valid()
    }

    /** Neither this algorithm's state machine nor its host's has moved. */
    ghost predicate Unchanged(st: Algorithms.ComputationState, ev: seq<Algorithms.AlgorithmEvent>,
                              hst: Algorithms.ComputationState, hev: seq<Algorithms.AlgorithmEvent>)
      reads core, core.Host()
    {
      core.state == st && core.events == ev && core.Host().state == hst && core.Host().events == hev
    }

    /** What the search reads and does not change. */
    function Settings(): Config<V>
      reads this, visitedGraph.vertexOutEdges
    {
      Config(visitedGraph.vertexOutEdges.entries, outEdgeEnumerator, maxDepth, backEdgeError)
    }

    /** `new DepthFirstSearchAlgorithm(host, visitedGraph, colors?, outEdgeEnumerator?)`
        (lines 36-43): a fresh color map unless one is given, and the
        identity as the default enumerator. */
    constructor (host: Option<Algorithms.AlgorithmBase>, visitedGraph: Graphs.BidirectionalGraph<V>,
                 colors: Option<map<V, GraphColor>>, outEdgeEnumerator: Option<seq<Edge<V>> -> seq<Edge<V>>>)
      requires visitedGraph.vertexOutEdges.Valid()
      ensures Valid() && fresh(core) && fresh(core.services) && fresh(rooted)
      ensures core.services.host == host && core.services.cancelManager == None
      ensures core.state == Algorithms.NotRunning && core.servicesMap == map[] && core.events == []
      ensures rooted.rootVertex == None && rooted.rootVertexChanges == 0
      ensures this.visitedGraph == visitedGraph
      ensures this.colors == if colors.Some? then colors.value else map[]
      ensures outEdgeEnumerator.Some? ==> this.outEdgeEnumerator == outEdgeEnumerator.value
      ensures outEdgeEnumerator.None? ==> this.outEdgeEnumerator == Identity
      ensures maxDepth == None && backEdgeError == None && events == []
    {
      core := new Algorithms.AlgorithmBase(host);
      rooted := new RootedAlgorithms.RootedAlgorithmBase();
      this.visitedGraph := visitedGraph;
      this.colors := if colors.Some? then colors.value else map[];
      var enumerator: seq<Edge<V>> -> seq<Edge<V>> := Identity;
      if outEdgeEnumerator.Some? {
        enumerator := outEdgeEnumerator.value;
      }
      this.outEdgeEnumerator := enumerator;
      maxDepth := None;
      backEdgeError := None;
      events := [];
    }

    /** `getVertexColor(v)` (lines 104-106): `undefined` for an uncolored
        vertex, since `!` checks nothing at run time. */
    function GetVertexColor(v: V): (r: Option<GraphColor>)
      reads this
      ensures r.Some? <==> v in colors
      ensures r.Some? ==> r.value == colors[v]
    {
      if v in colors then Some(colors[v]) else None
    }

    /** The `maxDepth` setter (lines 111-113). */
    method SetMaxDepth(d: Option<int>)
      modifies this
      ensures maxDepth == d
      ensures colors == old(colors) && backEdgeError == old(backEdgeError) && events == old(events)
    {
      maxDepth := d;
    }

    /** Subscribing to `backEdge` a handler that throws `error`. */
    method SubscribeBackEdge(error: Exception)
      modifies this
      ensures backEdgeError == Some(error)
      ensures colors == old(colors) && maxDepth == old(maxDepth) && events == old(events)
    {
      backEdgeError := Some(error);
    }

    /** Releasing that subscription. */
    method UnsubscribeBackEdge()
      modifies this
      ensures backEdgeError == None
      ensures colors == old(colors) && maxDepth == old(maxDepth) && events == old(events)
    {
      backEdgeError := None;
    }

    /** `initialize` (lines 140-152): clear the colors, then color every
        vertex White in vertex order, firing `initializeVertex` for each. */
    method Initialize()
      requires visitedGraph.vertexOutEdges.Valid()
      modifies this
      ensures colors == Initialized(visitedGraph.Vertices())
      ensures events == old(events) + Inits(visitedGraph.Vertices())
      ensures maxDepth == old(maxDepth) && backEdgeError == old(backEdgeError)
    {
      colors := map[];
      var vs := visitedGraph.Vertices();
      var log := events;
      var i := 0;
      while i < |vs|
        invariant 0 <= i <= |vs|
        invariant colors == Initialized(vs[..i])
        invariant log == old(events) + Inits(vs[..i])
        invariant maxDepth == old(maxDepth) && backEdgeError == old(backEdgeError)
      {
        assert vs[..i + 1] == vs[..i] + [vs[i]];
        InitializedSnoc(vs[..i], vs[i]);
        InitsSnoc(vs[..i], vs[i]);
        colors := colors[vs[i] := White];
        log := log + [InitializeVertex(vs[i])];
        i := i + 1;
      }
      assert vs[..i] == vs;
      events := log;
    }

    /** `visit(root)` (lines 154-215), proved to end where `DfsSpec.Visit`
        does: the same colors, the same notifications, the same exception. */
    method Visit(root: V) returns (r: Result<()>)
      modifies this, core.services, core.Host()
      ensures var s := DfsSpec.Visit(old(Settings()), old(colors), root, old(events));
        colors == s.colors && events == s.log && r == s.result
      ensures maxDepth == old(maxDepth) && backEdgeError == old(backEdgeError)
      ensures Unchanged(old(core.state), old(core.events), old(core.Host().state), old(core.Host().events))
    {
      ghost var c := Settings();
      ghost var goal := DfsSpec.Visit(c, colors, root, events);
      var todo: seq<Frame<V>> := [];
      var oee := outEdgeEnumerator;
      colors := colors[root := Gray];
      var log := events + [DiscoverVertex(root)];
      var cancelManager := core.CancelManager();
      var iter := oee(visitedGraph.OutEdges(root));
      todo := todo + [Frame(root, iter, 0)];
      while |todo| > 0
        invariant Settings() == c
        invariant Frames(c, colors, todo, log) == goal
        invariant Unchanged(old(core.state), old(core.events), old(core.Host().state), old(core.Host().events))
        decreases |Whites(colors)|, Pending(todo)
      {
        if cancelManager.IsCancelling() {
          assert false;
          return;
        }
        var frame := todo[|todo| - 1];
        todo := todo[..|todo| - 1];
        var u := frame.vertex;
        var depth := frame.depth;
        var edges := frame.edges;
        if TooDeep(depth, maxDepth) {
          Painted(colors, u, Black);
          colors := colors[u := Black];
          log := log + [FinishVertex(u)];
          continue;
        }
        r, todo, log := ExploreEdges(c, cancelManager, todo, u, edges, depth, log);
        if r.Failure? {
          events := log;
          return;
        }
      }
      events := log;
      r := Success(());
    }

    /** The inner loop of `visit` (lines 179-213) over the edges of a popped
        frame, ending with the frame's vertex finished: a tree edge pushes
        the current frame and goes on at the target. */
    method ExploreEdges(ghost c: Config<V>, cancelManager: CancelManager, todo0: seq<Frame<V>>, u0: V, edges0: seq<Edge<V>>, depth0: int, log0: seq<DfsEvent<V>>)
      returns (r: Result<()>, todo: seq<Frame<V>>, log: seq<DfsEvent<V>>)
      requires Settings() == c
      modifies this
      ensures Settings() == c
      ensures r.Failure? ==> Explore(c, old(colors), todo0, u0, edges0, depth0, log0) == Search(colors, log, r)
      ensures r.Success? ==> Explore(c, old(colors), todo0, u0, edges0, depth0, log0) == Frames(c, colors, todo, log)
      ensures r.Success? ==>
        || |Whites(colors)| < |Whites(old(colors))|
        || (|Whites(colors)| == |Whites(old(colors))| && Pending(todo) < Pending(todo0) + |edges0| + 1)
    {
      todo, log := todo0, log0;
      var u, edges, depth := u0, edges0, depth0;
      ghost var w0, p0 := |Whites(colors)|, Pending(todo) + |edges| + 1;
      ghost var goal := Explore(c, colors, todo, u, edges, depth, log);
      while true
        invariant Settings() == c
        invariant Explore(c, colors, todo, u, edges, depth, log) == goal
        invariant |Whites(colors)| < w0 || (|Whites(colors)| == w0 && Pending(todo) + |edges| + 1 <= p0)
        decreases |Whites(colors)|, |edges|
      {
        if edges == [] {
          break;
        }
        var e := edges[0];
        edges := edges[1..];
        if cancelManager.IsCancelling() {
          assert false;
          return;
        }
        log := log + [ExamineEdge(e)];
        var v := e.target;
        match GetVertexColor(v)
        case Some(White) =>
          Painted(colors, v, Gray);
          assert Pending(todo + [Frame(u, edges, depth)]) == Pending(todo) + |edges| + 1;
          log := log + [TreeEdge(e)];
          todo := todo + [Frame(u, edges, depth)];
          u := v;
          edges := outEdgeEnumerator(visitedGraph.OutEdges(u));
          depth := depth + 1;
          colors := colors[u := Gray];
          log := log + [DiscoverVertex(u)];
        case Some(Gray) =>
          log := log + [BackEdge(e)];
          if backEdgeError.Some? {
            return Failure(backEdgeError.value), todo, log;
          }
        case Some(Black) =>
          log := log + [ForwardOrCrossEdge(e)];
        case None =>
      }
      Painted(colors, u, Black);
      colors := colors[u := Black];
      log := log + [FinishVertex(u)];
      r := Success(());
    }

    /** `internalCompute` (lines 115-138), proved to end where `DfsSpec.Run`
        does. */
    method InternalCompute(ghost c: Config<V>, ghost start: Option<V>, ghost vs: seq<V>) returns (r: Result<()>)
      requires Valid()
      requires c == Settings() && start == rooted.TryGetRootVertex() && vs == visitedGraph.Vertices()
      modifies this, core.services, core.Host()
      ensures Search(colors, events, r) == Run(c, old(colors), start, vs, old(events))
      ensures maxDepth == old(maxDepth) && backEdgeError == old(backEdgeError)
      ensures Unchanged(old(core.state), old(core.events), old(core.Host().state), old(core.Host().events))
    {
      var result := rooted.TryGetRootVertex();
      if result.Some? {
        events := events + [StartVertex(result.value)];
        r := Visit(result.value);
        return;
      }
      r := SweepVertices(c, visitedGraph.Vertices());
    }

    /** The rootless branch of `internalCompute` (lines 121-136), proved to
        end where `DfsSpec.Sweep` does. */
    method SweepVertices(ghost c: Config<V>, vs: seq<V>) returns (r: Result<()>)
      requires c == Settings()
      modifies this, core.services, core.Host()
      ensures Search(colors, events, r) == Sweep(c, old(colors), vs, old(events))
      ensures maxDepth == old(maxDepth) && backEdgeError == old(backEdgeError)
      ensures Unchanged(old(core.state), old(core.events), old(core.Host().state), old(core.Host().events))
    {
      var cancelManager := core.CancelManager();
      ghost var goal := Sweep(c, colors, vs, events);
      var i := 0;
      while true
        invariant 0 <= i <= |vs|
        invariant Settings() == c
        invariant Sweep(c, colors, vs[i..], events) == goal
        invariant Unchanged(old(core.state), old(core.events), old(core.Host().state), old(core.Host().events))
        decreases |vs| - i
      {
        if cancelManager.IsCancelling() {
          assert false;
          return;
        }
        if i == |vs| {
          break;
        }
        var v := vs[i];
        assert vs[i..][1..] == vs[i + 1..];
        i := i + 1;
        if GetVertexColor(v) == Some(White) {
          events := events + [StartVertex(v)];
          r := Visit(v);
          if r.Failure? {
            return;
          }
        }
      }
      r := Success(());
    }

    /** `compute(rootVertex?)` (rooted-algorithm-base.ts, lines 51-56): set
        the root if one is given, then compute. */
    method Compute(root: Option<V>) returns (r: Result<()>)
      requires Valid()
      modifies this, rooted, core, core.services, core.Host()
      ensures Valid()
      ensures root.Some? ==> rooted.rootVertex == root
      ensures root.None? ==> rooted.rootVertex == old(rooted.rootVertex)
      ensures var vs := visitedGraph.Vertices();
        var s := Run(old(Settings()), Initialized(vs), rooted.rootVertex, vs, Inits(vs));
        && colors == s.colors && events == s.log && r == s.result
        && var t := Algorithms.Apply(old(core.state), if s.result.Success? then Algorithms.Run else Algorithms.FailingRun(s.result.error));
        && core.state == t.state && core.events == old(core.events) + t.fired && r == t.result
      ensures maxDepth == old(maxDepth) && backEdgeError == old(backEdgeError)
      ensures core.Host() != core ==> core.Host().state == old(core.Host().state) && core.Host().events == old(core.Host().events)
    {
      if root.Some? {
        rooted.SetRootVertex(root.value);
      }
      r := ComputeAll();
    }

    /** `compute()` (algorithm-base.ts, lines 68-77): begin, initialize, run
        the search, and end; an exception of the search skips
        `endComputation`, and the empty `clean` changes nothing. */
    method ComputeAll() returns (r: Result<()>)
      requires Valid()
      modifies this, core, core.services, core.Host()
      ensures var vs := visitedGraph.Vertices();
        var s := Run(old(Settings()), Initialized(vs), rooted.rootVertex, vs, Inits(vs));
        && colors == s.colors && events == s.log && r == s.result
        && var t := Algorithms.Apply(old(core.state), if s.result.Success? then Algorithms.Run else Algorithms.FailingRun(s.result.error));
        && core.state == t.state && core.events == old(core.events) + t.fired && r == t.result
      ensures maxDepth == old(maxDepth) && backEdgeError == old(backEdgeError)
      ensures core.Host() != core ==> core.Host().state == old(core.Host().state) && core.Host().events == old(core.Host().events)
    {
      ghost var b := Algorithms.BeginStep(old(core.state));
      core.BeginComputation();
      r := InitializeAndSearch();
      if r.Failure? {
        return;
      }
      match r {
        case Success(u) => assert u == ();
      }
      r := core.EndComputation();
      Appended(old(core.events), b.fired, Algorithms.EndStep(b.state).fired);
    }

    /** The middle of `compute()`: `initialize` then `internalCompute`. */
    method InitializeAndSearch() returns (r: Result<()>)
      requires Valid()
      modifies this, core.services, core.Host()
      ensures var vs := visitedGraph.Vertices();
        Search(colors, events, r) == Run(old(Settings()), Initialized(vs), rooted.rootVertex, vs, Inits(vs))
      ensures maxDepth == old(maxDepth) && backEdgeError == old(backEdgeError)
      ensures Unchanged(old(core.state), old(core.events), old(core.Host().state), old(core.Host().events))
    {
      ghost var c, vs, start := Settings(), visitedGraph.Vertices(), rooted.rootVertex;
      events := [];
      Initialize();
      assert Settings() == c && colors == Initialized(vs) && events == Inits(vs);
      r := InternalCompute(c, start, vs);
    }
  }
}
