/**
  `TopologicalSortAlgorithm` (src/lib/algorithms/topological-sort/topological-sort-algorithm.ts):
  a depth-first search whose `finishVertex` handler prepends each finished
  vertex to `vertices` and whose `backEdge` handler throws
  `Non Acyclic Graph`, since `allowCyclicGraph` is always false.

  The search's subjects are modelled by its log (depth_first_search.dfy), so
  the `finishVertex` handler runs once the search has returned, over the
  `finishVertex` notifications of its log in order; it only prepends, so
  `vertices` ends the same as when it runs during the search, and also when
  the search throws.
 */
module TopologicalSort {
  import opened Wrappers
  import opened Edges
  import opened GraphColors
  import opened GraphSpec
  import opened Dictionaries
  import opened DfsSpec
  import opened DfsProperties
  import opened DfsFinishOrder
  import Algorithms
  import Graphs
  import DepthFirstSearch
  import CancelManagers

  /** `s` back to front. */
  function Reverse<T>(s: seq<T>): (r: seq<T>)
    ensures |r| == |s|
  {
    seq(|s|, i requires 0 <= i < |s| => s[|s| - 1 - i])
  }

  lemma ReverseSnoc<T>(s: seq<T>, x: T)
    ensures Reverse(s + [x]) == [x] + Reverse(s)
  {
    assert (s + [x])[..|s|] == s;
  }

  /** One more notification of a log adds its vertex to the finished ones
      when it is a `finishVertex`. */
  lemma FinishedPrefix<V>(log: seq<DfsEvent<V>>, i: int)
    requires 0 <= i < |log|
    ensures Finished(log[..i + 1]) == Finished(log[..i]) + (if log[i].FinishVertex? then [log[i].vertex] else [])
  {
    assert log[..i + 1][..i] == log[..i];
  }

  /** The replay of one more notification prepends its vertex when it is a
      `finishVertex`, and nothing otherwise. */
  lemma ReplayStep<V>(log: seq<DfsEvent<V>>, i: int, rest: seq<V>)
    requires 0 <= i < |log|
    ensures Reverse(Finished(log[..i + 1])) + rest
      == (if log[i].FinishVertex? then [log[i].vertex] else []) + (Reverse(Finished(log[..i])) + rest)
  {
    FinishedPrefix(log, i);
    if log[i].FinishVertex? {
      ReverseSnoc(Finished(log[..i]), log[i].vertex);
    } else {
      assert Finished(log[..i]) + [] == Finished(log[..i]);
    }
  }

  /** What the sort's search reads: the graph's out-edges as they are,
      no depth bound, and a `backEdge` handler that throws
      `Non Acyclic Graph`. */
  function SortConfig<V>(g: Index<V>): Config<V> {
    Config(g, Identity, None, Some(NonAcyclicGraph))
  }

  /** The search `internalCompute` runs on a graph with out-edge index `g`
      and vertices `vs`: a sweep from `initialize`'s colors. */
  function SortSearch<V(==)>(g: Index<V>, vs: seq<V>): Search<V> {
    Run(SortConfig(g), Initialized(vs), None, vs, Inits(vs))
  }

  class TopologicalSortAlgorithm<V(==)> {
    const core: Algorithms.AlgorithmBase
    const visitedGraph: Graphs.BidirectionalGraph<V>
    /** `allowCyclicGraph`, fixed to false. */
    const allowCyclicGraph: bool := false
    /** The `vertices` array, changed in place by `splice`. */
    var vertices: seq<V>

    ghost predicate Valid()
      reads visitedGraph.vertexOutEdges
    {
      visitedGraph.vertexOutEdges.Valid() && core.services.host.None?
    }

    /** `new TopologicalSortAlgorithm(g, vertices?)` (lines 16-19): an
        algorithm that is its own host, with the given array or an empty one. */
    constructor (g: Graphs.BidirectionalGraph<V>, vertices: Option<seq<V>>)
      requires g.vertexOutEdges.Valid()
      ensures Valid() && fresh(core) && fresh(core.services) && visitedGraph == g
      ensures core.state == Algorithms.NotRunning && core.servicesMap == map[] && core.events == []
      ensures core.services.cancelManager == None
      ensures !allowCyclicGraph
      ensures this.vertices == if vertices.Some? then vertices.value else []
    {
      core := new Algorithms.AlgorithmBase(None);
      visitedGraph := g;
      this.vertices := if vertices.Some? then vertices.value else [];
    }

    /** `sortedVertices` (lines 21-23): the array itself, the caller's own
        when one was passed to `compute`. */
    function SortedVertices(): (r: seq<V>)
      reads this
      ensures r == vertices
    {
      vertices
    }

    /** The `backEdge` handler (lines 25-29): it throws unless cyclic graphs
        are allowed, which they never are. */
    method BackEdge(e: Edge<V>) returns (r: Result<()>)
      ensures r == if allowCyclicGraph then Success(()) else Failure(NonAcyclicGraph)
      ensures r == Failure(NonAcyclicGraph)
    {
      r := if allowCyclicGraph then Success(()) else Failure(NonAcyclicGraph);
    }

    /** The `finishVertex` handler (lines 30-32): `splice(0, 0, v)` puts `v`
        first. */
    method FinishVertex(v: V)
      modifies this
      ensures vertices == [v] + old(vertices)
    {
      vertices := [v] + vertices;
    }

    /** `internalCompute` (lines 34-49): a depth-first search with this
        algorithm as host, a fresh color map, and both handlers subscribed
        until it returns or throws. `vertices` gains the finished vertices,
        last finished first, and the search's exception, if any, is thrown
        on. */
    method InternalCompute() returns (r: Result<()>)
      requires Valid()
      modifies this, core
      ensures var s := SortSearch(visitedGraph.vertexOutEdges.entries, visitedGraph.Vertices());
        vertices == Reverse(Finished(s.log)) + old(vertices) && r == s.result
      ensures core.state == old(core.state) && core.events == old(core.events)
    {
      var dfs := new DepthFirstSearch.DepthFirstSearchAlgorithm(Some(core), visitedGraph, Some(map[]), None);
      if !allowCyclicGraph {
        dfs.SubscribeBackEdge(NonAcyclicGraph);
      }
      ghost var g, vs := visitedGraph.vertexOutEdges.entries, visitedGraph.Vertices();
      assert dfs.Settings() == SortConfig(g) && dfs.rooted.rootVertex == None;
      assert dfs.core.Host() == core != dfs.core;
      r := dfs.Compute(None);
      ghost var s := SortSearch(g, vs);
      assert dfs.events == s.log && r == s.result;
      ReplayFinishes(dfs.events);
      dfs.UnsubscribeBackEdge();
    }

    /** The `finishVertex` handler run over the notifications of a search,
        in order. */
    method ReplayFinishes(log: seq<DfsEvent<V>>)
      modifies this
      ensures vertices == Reverse(Finished(log)) + old(vertices)
    {
      var i := 0;
      while i < |log|
        invariant 0 <= i <= |log|
        invariant vertices == Reverse(Finished(log[..i])) + old(vertices)
      {
        ReplayStep(log, i, old(vertices));
        if log[i].FinishVertex? {
          FinishVertex(log[i].vertex);
        }
        i := i + 1;
      }
      assert log[..i] == log;
    }

    /** `compute(vertices?)` (lines 51-57): adopt the given array, empty it,
        then the base `compute` (algorithm-base.ts, lines 68-77) with the
        empty `initialize` and `clean`; an exception of the search skips
        `endComputation`. */
    method Compute(given: Option<seq<V>>) returns (r: Result<()>)
      requires Valid()
      modifies this, core, core.services
      ensures Valid()
      ensures var s := SortSearch(visitedGraph.vertexOutEdges.entries, visitedGraph.Vertices());
        && vertices == Reverse(Finished(s.log))
        && var t := Algorithms.Apply(old(core.state), if s.result.Success? then Algorithms.Run else Algorithms.FailingRun(s.result.error));
        && core.state == t.state && core.events == old(core.events) + t.fired && r == t.result
    {
      if given.Some? {
        vertices := given.value;
      }
      vertices := [];
      ghost var s := SortSearch(visitedGraph.vertexOutEdges.entries, visitedGraph.Vertices());
      ghost var b := Algorithms.BeginStep(old(core.state));
      core.BeginComputation();
      r := InternalCompute();
      assert vertices == Reverse(Finished(s.log)) && r == s.result;
      if r.Failure? {
        return;
      }
      match r {
        case Success(u) => assert u == ();
      }
      r := core.EndComputation();
      Appended(old(core.events), b.fired, Algorithms.EndStep(b.state).fired);
    }
  }

  /** The sort's own services and those of its search resolve to the same
      `CancelManager`: the sort's request creates it and caches it, the
      search asks its host, the sort, and gets the cached one. */
  method SharedCancelManager<V(==)>(g: Graphs.BidirectionalGraph<V>) returns (m1: CancelManagers.CancelManager, m2: CancelManagers.CancelManager)
    requires g.vertexOutEdges.Valid()
    ensures m1 == m2
    ensures !m1.IsCancelling()
  {
    var sort := new TopologicalSortAlgorithm(g, None);
    var dfs := new DepthFirstSearch.DepthFirstSearchAlgorithm(Some(sort.core), g, Some(map[]), None);
    m1 := sort.core.CancelManager();
    m2 := dfs.core.CancelManager();
  }

  // ------------------------------------------------------------ the theorem

  /** The sort's search throws only `Non Acyclic Graph`. When it returns,
      the sorted vertices are the graph's vertices, each once, and every
      out-edge between two vertices leads forward: its target comes after
      its source. */
  lemma SortIsTopological<V>(g: Index<V>, vs: seq<V>)
    ensures var s := SortSearch(g, vs);
      var out := Reverse(Finished(s.log));
      && (s.result.Failure? ==> s.result.error == NonAcyclicGraph)
      && (s.result.Success? ==>
        && Distinct(out)
        && (forall v | v in vs :: v in out)
        && (forall v | v in out :: v in vs)
        && (forall i, e | 0 <= i < |out| && e in Lookup(g, out[i]) && e.target in vs :: e.target in out[i + 1..]))
  {
    var c := SortConfig(g);
    var s := SortSearch(g, vs);
    RunGood(c, vs, None);
    if s.result.Success? {
      var f := Finished(s.log);
      RunOrdered(c, vs);
      FinishedAreVertices(g, vs);
      ReverseDistinct(f);
      ReverseElements(f);
      ForwardEdges(c, (set v | v in vs), f);
    }
  }

  /** The sort's search finishes only vertices of the graph: whatever it
      finishes has a color, and only the graph's vertices do. */
  lemma FinishedAreVertices<V>(g: Index<V>, vs: seq<V>)
    ensures forall v | v in Finished(SortSearch(g, vs).log) :: v in vs
  {
    var s := SortSearch(g, vs);
    RunGood(SortConfig(g), vs, None);
    RunKeys(SortConfig(g), vs, None);
    assert forall v | v in Finished(s.log) :: v in s.colors;
  }

  /** Reversing keeps a sequence free of repeats. */
  lemma ReverseDistinct<T>(s: seq<T>)
    requires Distinct(s)
    ensures Distinct(Reverse(s))
  {
    var r := Reverse(s);
    DistinctIndices(s);
    DistinctIndices(r);
    forall i, j | 0 <= i < j < |r|
      ensures r[i] != r[j]
    {
      assert r[i] == s[|s| - 1 - i] && r[j] == s[|s| - 1 - j];
    }
  }

  /** Reversing keeps the elements. */
  lemma ReverseElements<T>(s: seq<T>)
    ensures forall x :: x in Reverse(s) <==> x in s
  {
    var r := Reverse(s);
    forall x | x in s
      ensures x in r
    {
      var k :| 0 <= k < |s| && s[k] == x;
      assert r[|s| - 1 - k] == x;
    }
    forall x | x in r
      ensures x in s
    {
      var k :| 0 <= k < |r| && r[k] == x;
      assert s[|s| - 1 - k] == x;
    }
  }

  /** Every edge of the theorem, one at a time. */
  lemma ForwardEdges<V>(c: Config<V>, K: set<V>, f: seq<V>)
    requires FinishOrdered(c, K, f) && c.enumerate == Identity
    ensures var out := Reverse(f);
      forall i, e | 0 <= i < |out| && e in Lookup(c.graph, out[i]) && e.target in K :: e.target in out[i + 1..]
  {
    var out := Reverse(f);
    forall i, e | 0 <= i < |out| && e in Lookup(c.graph, out[i]) && e.target in K
      ensures e.target in out[i + 1..]
    {
      ForwardEdge(c, K, f, i, e);
    }
  }

  /** One edge of the theorem: in the finish order its target finishes
      before its source, so in the reversed order it comes after. */
  lemma ForwardEdge<V>(c: Config<V>, K: set<V>, f: seq<V>, i: int, e: Edge<V>)
    requires FinishOrdered(c, K, f) && c.enumerate == Identity
    requires 0 <= i < |f| && e in Lookup(c.graph, Reverse(f)[i]) && e.target in K
    ensures e.target in Reverse(f)[i + 1..]
  {
    var j := |f| - 1 - i;
    assert Reverse(f)[i] == f[j];
    assert e in OutEdges(c, f[j]);
    var k := FinishedEarlier(c, K, f, j, e);
    ReverseLater(f, i, k);
  }

  /** An element before position `|f| - 1 - i` of `f` comes after position
      `i` once `f` is reversed. */
  lemma ReverseLater<T>(f: seq<T>, i: int, k: int)
    requires 0 <= i && 0 <= k < |f| - 1 - i
    ensures f[k] in Reverse(f)[i + 1..]
  {
    var out := Reverse(f);
    var m := |f| - 1 - k;
    assert out[m] == f[k];
    assert out[i + 1..][m - (i + 1)] == out[m];
  }

  /** The target of an out-edge of the `j`-th finished vertex finished
      earlier. */
  lemma FinishedEarlier<V>(c: Config<V>, K: set<V>, f: seq<V>, j: int, e: Edge<V>) returns (k: int)
    requires FinishOrdered(c, K, f)
    requires 0 <= j < |f| && e in OutEdges(c, f[j]) && e.target in K
    ensures 0 <= k < j && f[k] == e.target
  {
    assert e.target in f[..j];
    k :| 0 <= k < j && f[..j][k] == e.target;
  }
}
