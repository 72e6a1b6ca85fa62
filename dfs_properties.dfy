/**
  What the depth-first search of dfs_spec.dfy guarantees, read off the
  notifications it fires: discoveries and finishes nest like the calls of a
  recursive search, the Gray vertices are exactly the open ones, the Black
  ones exactly the finished ones, no vertex is discovered twice, every
  classified edge is classified by its target's state at that moment, and a
  search that returns normally leaves every vertex it discovered Black.
 */
module DfsProperties {
  import opened Wrappers
  import opened Edges
  import opened GraphColors
  import opened Dictionaries
  import opened GraphSpec
  import opened DfsSpec

  // ------------------------------------------------------------ reading the log

  /** The vertices of the `discoverVertex` notifications, in order. */
  function Discovered<V>(log: seq<DfsEvent<V>>): seq<V> {
    if log == [] then []
    else Discovered(log[..|log| - 1]) + (if log[|log| - 1].DiscoverVertex? then [log[|log| - 1].vertex] else [])
  }

  /** The vertices of the `finishVertex` notifications, in order. */
  function Finished<V>(log: seq<DfsEvent<V>>): seq<V> {
    if log == [] then []
    else Finished(log[..|log| - 1]) + (if log[|log| - 1].FinishVertex? then [log[|log| - 1].vertex] else [])
  }

  /** The vertices discovered and not yet finished, oldest first, when every
      `finishVertex` so far finished the most recently discovered open
      vertex; `None` once one did not, that is, once discoveries and
      finishes stopped nesting. */
  function Open<V(==)>(log: seq<DfsEvent<V>>): Option<seq<V>> {
    if log == [] then Some([])
    else
      match Open(log[..|log| - 1])
      case None => None
      case Some(o) =>
        var x := log[|log| - 1];
        if x.DiscoverVertex? then Some(o + [x.vertex])
        else if x.FinishVertex? then (if o != [] && o[|o| - 1] == x.vertex then Some(o[..|o| - 1]) else None)
        else Some(o)
  }

  /** The vertices of the frames on the stack, bottom first. */
  function Verts<V>(todo: seq<Frame<V>>): seq<V> {
    if todo == [] then [] else Verts(todo[..|todo| - 1]) + [todo[|todo| - 1].vertex]
  }

  lemma Snoc<T>(s: seq<T>, x: T)
    ensures (s + [x])[..|s|] == s && (s + [x])[|s|] == x
  {
  }

  // ------------------------------------------------------------ the invariant

  /** The colors agree with the log: Gray means open, Black means finished,
      any color but White means discovered, discovered vertices are colored,
      and no vertex is discovered twice. */
  ghost predicate Coherent<V>(colors: map<V, GraphColor>, log: seq<DfsEvent<V>>) {
    && Open(log).Some?
    && Distinct(Discovered(log))
    && Distinct(Open(log).value)
    && (forall v | v in Discovered(log) :: v in colors && colors[v] != White)
    && (forall v | v in colors && colors[v] != White :: v in Discovered(log))
    && (forall v | v in Open(log).value :: v in colors && colors[v] == Gray)
    && (forall v | v in colors && colors[v] == Gray :: v in Open(log).value)
    && (forall v | v in Finished(log) :: v in colors && colors[v] == Black)
    && (forall v | v in colors && colors[v] == Black :: v in Finished(log))
  }

  /** Every `treeEdge`, `backEdge` and `forwardOrCrossEdge` comes right after
      the `examineEdge` of the same edge; a tree edge leads to a vertex not
      discovered before, which is discovered next; a back edge to an open
      vertex; a forward-or-cross edge to a finished one. */
  ghost predicate Classified<V>(log: seq<DfsEvent<V>>) {
    forall i | 0 <= i < |log| :: ClassifiedAt(log, i)
  }

  ghost predicate ClassifiedAt<V>(log: seq<DfsEvent<V>>, i: int)
    requires 0 <= i < |log|
  {
    && (log[i].TreeEdge? ==>
          && 0 < i && i + 1 < |log| && log[i - 1] == ExamineEdge(log[i].edge)
          && log[i + 1] == DiscoverVertex(log[i].edge.target)
          && log[i].edge.target !in Discovered(log[..i]))
    && (log[i].BackEdge? ==>
          && 0 < i && log[i - 1] == ExamineEdge(log[i].edge)
          && Open(log[..i]).Some? && log[i].edge.target in Open(log[..i]).value)
    && (log[i].ForwardOrCrossEdge? ==>
          && 0 < i && log[i - 1] == ExamineEdge(log[i].edge)
          && log[i].edge.target in Finished(log[..i]))
  }

  ghost predicate Good<V>(colors: map<V, GraphColor>, log: seq<DfsEvent<V>>) {
    Coherent(colors, log) && Classified(log)
  }

  // ------------------------------------------------------------ one step at a time

  /** An edge notification changes neither the discoveries, the finishes nor
      the open vertices. */
  lemma EdgeEvent<V>(log: seq<DfsEvent<V>>, x: DfsEvent<V>)
    requires !x.DiscoverVertex? && !x.FinishVertex?
    ensures Discovered(log + [x]) == Discovered(log)
    ensures Finished(log + [x]) == Finished(log)
    ensures Open(log + [x]) == Open(log)
  {
    Snoc(log, x);
  }

  /** Discovering a White or uncolored vertex and coloring it Gray opens it. */
  lemma DiscoverStep<V>(colors: map<V, GraphColor>, log: seq<DfsEvent<V>>, v: V)
    requires Coherent(colors, log)
    requires v !in colors || colors[v] == White
    ensures Coherent(colors[v := Gray], log + [DiscoverVertex(v)])
    ensures Open(log + [DiscoverVertex(v)]) == Some(Open(log).value + [v])
  {
    var log' := log + [DiscoverVertex(v)];
    var colors' := colors[v := Gray];
    var d, o, f := Discovered(log), Open(log).value, Finished(log);
    Snoc(log, DiscoverVertex(v));
    assert Discovered(log') == d + [v];
    assert Open(log') == Some(o + [v]);
    assert Finished(log') == f;
    assert v !in d && v !in o && v !in f;
    DistinctSnoc(d, v);
    DistinctSnoc(o, v);
    forall w | w in d + [v] ensures w in colors' && colors'[w] != White {
    }
    forall w | w in colors' && colors'[w] != White ensures w in d + [v] {
    }
    forall w | w in o + [v] ensures w in colors' && colors'[w] == Gray {
    }
    forall w | w in colors' && colors'[w] == Gray ensures w in o + [v] {
    }
    forall w | w in f ensures w in colors' && colors'[w] == Black {
    }
    forall w | w in colors' && colors'[w] == Black ensures w in f {
    }
  }

  /** Finishing the most recently opened vertex and coloring it Black closes
      it. */
  lemma FinishStep<V>(colors: map<V, GraphColor>, log: seq<DfsEvent<V>>, u: V)
    requires Coherent(colors, log)
    requires Open(log).value != [] && Open(log).value[|Open(log).value| - 1] == u
    ensures Coherent(colors[u := Black], log + [FinishVertex(u)])
    ensures Open(log + [FinishVertex(u)]) == Some(Open(log).value[..|Open(log).value| - 1])
  {
    FinishLog(log, u);
    DistinctPrefix(Open(log).value);
    FinishColors(colors, Discovered(log), Open(log).value, Finished(log), u);
  }

  /** Coloring the last open vertex Black moves it from the open vertices to
      the finished ones. */
  lemma FinishColors<V>(colors: map<V, GraphColor>, d: seq<V>, o: seq<V>, f: seq<V>, u: V)
    requires o != [] && o[|o| - 1] == u && u !in o[..|o| - 1]
    requires forall v | v in d :: v in colors && colors[v] != White
    requires forall v | v in colors && colors[v] != White :: v in d
    requires forall v | v in o :: v in colors && colors[v] == Gray
    requires forall v | v in colors && colors[v] == Gray :: v in o
    requires forall v | v in f :: v in colors && colors[v] == Black
    requires forall v | v in colors && colors[v] == Black :: v in f
    ensures var colors', o' := colors[u := Black], o[..|o| - 1];
      && (forall v | v in d :: v in colors' && colors'[v] != White)
      && (forall v | v in colors' && colors'[v] != White :: v in d)
      && (forall v | v in o' :: v in colors' && colors'[v] == Gray)
      && (forall v | v in colors' && colors'[v] == Gray :: v in o')
      && (forall v | v in f + [u] :: v in colors' && colors'[v] == Black)
      && (forall v | v in colors' && colors'[v] == Black :: v in f + [u])
  {
    var colors', o' := colors[u := Black], o[..|o| - 1];
    assert o == o' + [u];
    forall w | w in o' ensures w in colors' && colors'[w] == Gray {
      assert w in o;
    }
    forall w | w in colors' && colors'[w] == Gray ensures w in o' {
      assert w in o;
    }
  }

  /** A `finishVertex` of the most recently opened vertex closes it and
      adds it to the finished ones. */
  lemma FinishLog<V>(log: seq<DfsEvent<V>>, u: V)
    requires Open(log).Some? && Open(log).value != [] && Open(log).value[|Open(log).value| - 1] == u
    ensures Discovered(log + [FinishVertex(u)]) == Discovered(log)
    ensures Open(log + [FinishVertex(u)]) == Some(Open(log).value[..|Open(log).value| - 1])
    ensures Finished(log + [FinishVertex(u)]) == Finished(log) + [u]
  {
    Snoc(log, FinishVertex(u));
  }

  /** Dropping the last element of a sequence without repetitions leaves
      one without repetitions that does not hold that element. */
  lemma DistinctPrefix<T>(s: seq<T>)
    requires Distinct(s) && s != []
    ensures Distinct(s[..|s| - 1]) && s[|s| - 1] !in s[..|s| - 1]
  {
    DistinctIndices(s);
    DistinctIndices(s[..|s| - 1]);
  }

  /** Appending to a classified log keeps its old entries classified. */
  lemma ClassifiedAppend<V>(log: seq<DfsEvent<V>>, more: seq<DfsEvent<V>>)
    requires Classified(log)
    ensures forall i | 0 <= i < |log| :: ClassifiedAt(log + more, i)
  {
    var log' := log + more;
    forall i | 0 <= i < |log| ensures ClassifiedAt(log', i) {
      assert ClassifiedAt(log, i);
      assert log'[..i] == log[..i] && log'[i] == log[i];
      if i > 0 { assert log'[i - 1] == log[i - 1]; }
      if i + 1 < |log| { assert log'[i + 1] == log[i + 1]; }
    }
  }

  /** A notification that classifies nothing keeps the log classified. */
  lemma ClassifiedSnoc<V>(log: seq<DfsEvent<V>>, x: DfsEvent<V>)
    requires Classified(log)
    requires !x.TreeEdge? && !x.BackEdge? && !x.ForwardOrCrossEdge?
    ensures Classified(log + [x])
  {
    ClassifiedAppend(log, [x]);
    assert ClassifiedAt(log + [x], |log|);
  }

  /** Examining an edge to an open vertex and calling it a back edge keeps
      the log classified. */
  lemma ClassifiedBack<V>(log: seq<DfsEvent<V>>, e: Edge<V>)
    requires Classified(log) && Open(log).Some? && e.target in Open(log).value
    ensures Classified(log + [ExamineEdge(e)] + [BackEdge(e)])
  {
    var log' := log + [ExamineEdge(e)] + [BackEdge(e)];
    assert log' == log + [ExamineEdge(e), BackEdge(e)];
    ClassifiedAppend(log, [ExamineEdge(e), BackEdge(e)]);
    EdgeEvent(log, ExamineEdge(e));
    assert log'[..|log| + 1] == log + [ExamineEdge(e)];
    assert ClassifiedAt(log', |log|);
    assert ClassifiedAt(log', |log| + 1);
  }

  /** Examining an edge to a finished vertex and calling it a forward or cross
      edge keeps the log classified. */
  lemma ClassifiedForwardOrCross<V>(log: seq<DfsEvent<V>>, e: Edge<V>)
    requires Classified(log) && e.target in Finished(log)
    ensures Classified(log + [ExamineEdge(e)] + [ForwardOrCrossEdge(e)])
  {
    var log' := log + [ExamineEdge(e)] + [ForwardOrCrossEdge(e)];
    assert log' == log + [ExamineEdge(e), ForwardOrCrossEdge(e)];
    ClassifiedAppend(log, [ExamineEdge(e), ForwardOrCrossEdge(e)]);
    EdgeEvent(log, ExamineEdge(e));
    assert log'[..|log| + 1] == log + [ExamineEdge(e)];
    assert ClassifiedAt(log', |log|);
    assert ClassifiedAt(log', |log| + 1);
  }

  /** Examining an edge to an undiscovered vertex, calling it a tree edge
      and discovering its target keeps the log classified. */
  lemma ClassifiedTree<V>(log: seq<DfsEvent<V>>, e: Edge<V>)
    requires Classified(log) && e.target !in Discovered(log)
    ensures Classified(log + [ExamineEdge(e)] + [TreeEdge(e)] + [DiscoverVertex(e.target)])
  {
    var log' := log + [ExamineEdge(e)] + [TreeEdge(e)] + [DiscoverVertex(e.target)];
    assert log' == log + [ExamineEdge(e), TreeEdge(e), DiscoverVertex(e.target)];
    ClassifiedAppend(log, [ExamineEdge(e), TreeEdge(e), DiscoverVertex(e.target)]);
    EdgeEvent(log, ExamineEdge(e));
    assert log'[..|log| + 1] == log + [ExamineEdge(e)];
    assert ClassifiedAt(log', |log|);
    assert ClassifiedAt(log', |log| + 1);
    assert ClassifiedAt(log', |log| + 2);
  }

  // ------------------------------------------------------------ the steps of the loops

  /** Discovering a White or uncolored vertex keeps the invariant. */
  lemma GoodDiscover<V>(colors: map<V, GraphColor>, log: seq<DfsEvent<V>>, v: V)
    requires Good(colors, log)
    requires v !in colors || colors[v] == White
    ensures Good(colors[v := Gray], log + [DiscoverVertex(v)])
    ensures Open(log + [DiscoverVertex(v)]) == Some(Open(log).value + [v])
  {
    DiscoverStep(colors, log, v);
    ClassifiedSnoc(log, DiscoverVertex(v));
  }

  /** Finishing the most recently opened vertex keeps the invariant. */
  lemma GoodFinish<V>(colors: map<V, GraphColor>, log: seq<DfsEvent<V>>, u: V)
    requires Good(colors, log)
    requires Open(log).value != [] && Open(log).value[|Open(log).value| - 1] == u
    ensures Good(colors[u := Black], log + [FinishVertex(u)])
    ensures Open(log + [FinishVertex(u)]) == Some(Open(log).value[..|Open(log).value| - 1])
  {
    FinishStep(colors, log, u);
    ClassifiedSnoc(log, FinishVertex(u));
  }

  /** A tree edge to a White vertex, and the discovery of that vertex, keep
      the invariant. */
  lemma GoodTree<V>(colors: map<V, GraphColor>, log: seq<DfsEvent<V>>, e: Edge<V>)
    requires Good(colors, log)
    requires e.target in colors && colors[e.target] == White
    ensures Good(colors[e.target := Gray], log + [ExamineEdge(e)] + [TreeEdge(e)] + [DiscoverVertex(e.target)])
    ensures Open(log + [ExamineEdge(e)] + [TreeEdge(e)] + [DiscoverVertex(e.target)]) == Some(Open(log).value + [e.target])
  {
    var examined := log + [ExamineEdge(e)];
    EdgeEvent(log, ExamineEdge(e));
    EdgeEvent(examined, TreeEdge(e));
    ClassifiedTree(log, e);
    DiscoverStep(colors, examined + [TreeEdge(e)], e.target);
  }

  /** A back edge to a Gray vertex keeps the invariant. */
  lemma GoodBack<V>(colors: map<V, GraphColor>, log: seq<DfsEvent<V>>, e: Edge<V>)
    requires Good(colors, log)
    requires e.target in colors && colors[e.target] == Gray
    ensures Good(colors, log + [ExamineEdge(e)] + [BackEdge(e)])
    ensures Open(log + [ExamineEdge(e)] + [BackEdge(e)]) == Open(log)
  {
    EdgeEvent(log, ExamineEdge(e));
    EdgeEvent(log + [ExamineEdge(e)], BackEdge(e));
    ClassifiedBack(log, e);
  }

  /** A forward or cross edge to a Black vertex keeps the invariant. */
  lemma GoodForwardOrCross<V>(colors: map<V, GraphColor>, log: seq<DfsEvent<V>>, e: Edge<V>)
    requires Good(colors, log)
    requires e.target in colors && colors[e.target] == Black
    ensures Good(colors, log + [ExamineEdge(e)] + [ForwardOrCrossEdge(e)])
    ensures Open(log + [ExamineEdge(e)] + [ForwardOrCrossEdge(e)]) == Open(log)
  {
    EdgeEvent(log, ExamineEdge(e));
    EdgeEvent(log + [ExamineEdge(e)], ForwardOrCrossEdge(e));
    ClassifiedForwardOrCross(log, e);
  }

  /** Examining an edge keeps the invariant. */
  lemma GoodExamine<V>(colors: map<V, GraphColor>, log: seq<DfsEvent<V>>, e: Edge<V>)
    requires Good(colors, log)
    ensures Good(colors, log + [ExamineEdge(e)])
    ensures Open(log + [ExamineEdge(e)]) == Open(log)
  {
    EdgeEvent(log, ExamineEdge(e));
    ClassifiedSnoc(log, ExamineEdge(e));
  }

  // ------------------------------------------------------------ the loops

  /** Each frame's depth is its place on the stack. */
  ghost predicate Stacked<V>(todo: seq<Frame<V>>) {
    forall i | 0 <= i < |todo| :: todo[i].depth == i
  }

  /** What the loops promise about the search `s` they run: the invariant
      holds at the end, a normal return leaves nothing open, and the only
      exception is the one a `backEdge` subscriber throws. */
  ghost predicate Ends<V>(c: Config<V>, s: Search<V>) {
    && Good(s.colors, s.log)
    && (s.result.Success? ==> Open(s.log) == Some([]))
    && (s.result.Failure? ==> c.backEdgeError.Some? && s.result.error == c.backEdgeError.value)
  }

  /** The outer loop keeps the stack's vertices the open ones. */
  lemma {:induction false} FramesGood<V>(c: Config<V>, colors: map<V, GraphColor>, todo: seq<Frame<V>>, log: seq<DfsEvent<V>>)
    requires Good(colors, log) && Open(log) == Some(Verts(todo)) && Stacked(todo)
    ensures Ends(c, Frames(c, colors, todo, log))
    decreases |Whites(colors)|, Pending(todo), 2
  {
    if todo != [] {
      var f := todo[|todo| - 1];
      var rest := todo[..|todo| - 1];
      assert Verts(todo) == Verts(rest) + [f.vertex];
      if TooDeep(f.depth, c.maxDepth) {
        FinishGood(c, colors, rest, f.vertex, log);
      } else {
        ExploreGood(c, colors, rest, f.vertex, f.edges, f.depth, log);
      }
    }
  }

  /** Finishing the current vertex resumes the outer loop at its parent. */
  lemma {:induction false} FinishGood<V>(c: Config<V>, colors: map<V, GraphColor>, todo: seq<Frame<V>>, u: V, log: seq<DfsEvent<V>>)
    requires Good(colors, log) && Open(log) == Some(Verts(todo) + [u]) && Stacked(todo)
    ensures Ends(c, Frames(c, colors[u := Black], todo, log + [FinishVertex(u)]))
    decreases |Whites(colors)|, Pending(todo) + 1, 0
  {
    Painted(colors, u, Black);
    GoodFinish(colors, log, u);
    FramesGood(c, colors[u := Black], todo, log + [FinishVertex(u)]);
  }

  /** The inner loop keeps the stack's vertices and the current one the open
      ones. */
  lemma {:induction false} ExploreGood<V>(c: Config<V>, colors: map<V, GraphColor>, todo: seq<Frame<V>>, u: V, edges: seq<Edge<V>>, depth: int, log: seq<DfsEvent<V>>)
    requires Good(colors, log) && Open(log) == Some(Verts(todo) + [u]) && Stacked(todo) && depth == |todo|
    ensures Ends(c, Explore(c, colors, todo, u, edges, depth, log))
    decreases |Whites(colors)|, Pending(todo) + |edges| + 1, 1
  {
    if edges == [] {
      FinishGood(c, colors, todo, u, log);
    } else {
      var v := edges[0].target;
      if v in colors && colors[v] == White {
        TreeGood(c, colors, todo, u, edges, depth, log);
      } else {
        SkipGood(c, colors, todo, u, edges, depth, log);
      }
    }
  }

  /** A tree edge descends into its target. */
  lemma {:induction false} TreeGood<V>(c: Config<V>, colors: map<V, GraphColor>, todo: seq<Frame<V>>, u: V, edges: seq<Edge<V>>, depth: int, log: seq<DfsEvent<V>>)
    requires Good(colors, log) && Open(log) == Some(Verts(todo) + [u]) && Stacked(todo) && depth == |todo|
    requires edges != [] && edges[0].target in colors && colors[edges[0].target] == White
    ensures Ends(c, Explore(c, colors, todo, u, edges, depth, log))
    decreases |Whites(colors)|, Pending(todo) + |edges| + 1, 0
  {
    var e := edges[0];
    var v := e.target;
    var todo' := todo + [Frame(u, edges[1..], depth)];
    Painted(colors, v, Gray);
    assert todo'[..|todo|] == todo;
    assert Verts(todo') == Verts(todo) + [u];
    GoodTree(colors, log, e);
    ExploreGood(c, colors[v := Gray], todo', v, OutEdges(c, v), depth + 1, log + [ExamineEdge(e)] + [TreeEdge(e)] + [DiscoverVertex(v)]);
  }

  /** An edge to a vertex that is not White is classified and skipped. */
  lemma {:induction false} SkipGood<V>(c: Config<V>, colors: map<V, GraphColor>, todo: seq<Frame<V>>, u: V, edges: seq<Edge<V>>, depth: int, log: seq<DfsEvent<V>>)
    requires Good(colors, log) && Open(log) == Some(Verts(todo) + [u]) && Stacked(todo) && depth == |todo|
    requires edges != [] && !(edges[0].target in colors && colors[edges[0].target] == White)
    ensures Ends(c, Explore(c, colors, todo, u, edges, depth, log))
    decreases |Whites(colors)|, Pending(todo) + |edges| + 1, 0
  {
    var e := edges[0];
    var v := e.target;
    if v in colors && colors[v] == Gray {
      GoodBack(colors, log, e);
      if c.backEdgeError.None? {
        ExploreGood(c, colors, todo, u, edges[1..], depth, log + [ExamineEdge(e)] + [BackEdge(e)]);
      }
    } else if v in colors && colors[v] == Black {
      GoodForwardOrCross(colors, log, e);
      ExploreGood(c, colors, todo, u, edges[1..], depth, log + [ExamineEdge(e)] + [ForwardOrCrossEdge(e)]);
    } else {
      GoodExamine(colors, log, e);
      ExploreGood(c, colors, todo, u, edges[1..], depth, log + [ExamineEdge(e)]);
    }
  }

  // ------------------------------------------------------------ colors only darken

  /** No vertex is painted White again, no Black vertex changes color, and
      none leaves the map. */
  ghost predicate Grows<V>(before: map<V, GraphColor>, after: map<V, GraphColor>) {
    forall v | v in before ::
      && v in after
      && (before[v] != White ==> after[v] != White)
      && (before[v] == Black ==> after[v] == Black)
  }

  lemma GrowsTrans<V>(a: map<V, GraphColor>, b: map<V, GraphColor>, c: map<V, GraphColor>)
    requires Grows(a, b) && Grows(b, c)
    ensures Grows(a, c)
  {
  }

  lemma {:induction false} FramesDarken<V>(c: Config<V>, colors: map<V, GraphColor>, todo: seq<Frame<V>>, log: seq<DfsEvent<V>>)
    ensures Grows(colors, Frames(c, colors, todo, log).colors)
    decreases |Whites(colors)|, Pending(todo), 1
  {
    if todo != [] {
      var f := todo[|todo| - 1];
      if TooDeep(f.depth, c.maxDepth) {
        Painted(colors, f.vertex, Black);
        FramesDarken(c, colors[f.vertex := Black], todo[..|todo| - 1], log + [FinishVertex(f.vertex)]);
        GrowsTrans(colors, colors[f.vertex := Black], Frames(c, colors, todo, log).colors);
      } else {
        ExploreDarken(c, colors, todo[..|todo| - 1], f.vertex, f.edges, f.depth, log);
      }
    }
  }

  lemma {:induction false} ExploreDarken<V>(c: Config<V>, colors: map<V, GraphColor>, todo: seq<Frame<V>>, u: V, edges: seq<Edge<V>>, depth: int, log: seq<DfsEvent<V>>)
    ensures Grows(colors, Explore(c, colors, todo, u, edges, depth, log).colors)
    decreases |Whites(colors)|, Pending(todo) + |edges| + 1, 0
  {
    var s := Explore(c, colors, todo, u, edges, depth, log);
    if edges == [] {
      Painted(colors, u, Black);
      FramesDarken(c, colors[u := Black], todo, log + [FinishVertex(u)]);
      GrowsTrans(colors, colors[u := Black], s.colors);
    } else {
      var e := edges[0];
      var v := e.target;
      var examined := log + [ExamineEdge(e)];
      if v in colors && colors[v] == White {
        Painted(colors, v, Gray);
        assert Pending(todo + [Frame(u, edges[1..], depth)]) == Pending(todo) + |edges|;
        ExploreDarken(c, colors[v := Gray], todo + [Frame(u, edges[1..], depth)], v, OutEdges(c, v), depth + 1,
          examined + [TreeEdge(e)] + [DiscoverVertex(v)]);
        GrowsTrans(colors, colors[v := Gray], s.colors);
      } else if v in colors && colors[v] == Gray {
        if c.backEdgeError.None? {
          ExploreDarken(c, colors, todo, u, edges[1..], depth, examined + [BackEdge(e)]);
        }
      } else if v in colors && colors[v] == Black {
        ExploreDarken(c, colors, todo, u, edges[1..], depth, examined + [ForwardOrCrossEdge(e)]);
      } else {
        ExploreDarken(c, colors, todo, u, edges[1..], depth, examined);
      }
    }
  }

  // ------------------------------------------------------------ visit, sweep, compute

  /** Once nothing is open, every discovered vertex is Black and no vertex
      is Gray. */
  lemma NothingOpen<V>(colors: map<V, GraphColor>, log: seq<DfsEvent<V>>)
    requires Coherent(colors, log) && Open(log) == Some([])
    ensures forall v | v in Discovered(log) :: v in colors && colors[v] == Black
    ensures forall v | v in colors :: colors[v] != Gray
  {
  }

  /** `visit(root)` from a state with nothing open, at a root that is White
      or uncolored: it keeps the invariant, and a normal return leaves
      nothing open and the root Black. */
  lemma VisitGood<V>(c: Config<V>, colors: map<V, GraphColor>, root: V, log: seq<DfsEvent<V>>)
    requires Good(colors, log) && Open(log) == Some([])
    requires root !in colors || colors[root] == White
    ensures var s := Visit(c, colors, root, log);
      && Ends(c, s) && Grows(colors, s.colors)
      && (s.result.Success? ==> root in s.colors && s.colors[root] == Black)
  {
    var colors' := colors[root := Gray];
    var todo := [Frame(root, OutEdges(c, root), 0)];
    var s := Visit(c, colors, root, log);
    GoodDiscover(colors, log, root);
    assert Verts(todo) == [root] by {
      assert todo[..0] == [];
    }
    FramesGood(c, colors', todo, log + [DiscoverVertex(root)]);
    FramesDarken(c, colors', todo, log + [DiscoverVertex(root)]);
    GrowsTrans(colors, colors', s.colors);
    if s.result.Success? {
      NothingOpen(s.colors, s.log);
    }
  }

  /** The rootless sweep keeps the invariant and leaves no vertex it
      passed over White. */
  lemma {:induction false} SweepGood<V>(c: Config<V>, colors: map<V, GraphColor>, vs: seq<V>, log: seq<DfsEvent<V>>)
    requires Good(colors, log) && Open(log) == Some([])
    ensures var s := Sweep(c, colors, vs, log);
      && Ends(c, s) && Grows(colors, s.colors)
      && (s.result.Success? ==> forall v | v in vs && v in colors :: s.colors[v] != White)
    decreases |vs|
  {
    var s := Sweep(c, colors, vs, log);
    if vs == [] {
    } else if vs[0] in colors && colors[vs[0]] == White {
      var start := log + [StartVertex(vs[0])];
      EdgeEvent(log, StartVertex(vs[0]));
      ClassifiedSnoc(log, StartVertex(vs[0]));
      VisitGood(c, colors, vs[0], start);
      var t := Visit(c, colors, vs[0], start);
      if t.result.Success? {
        SweepGood(c, t.colors, vs[1..], t.log);
        GrowsTrans(colors, t.colors, s.colors);
        if s.result.Success? {
          SweepStep(colors, t.colors, s.colors, vs);
        }
      }
    } else {
      SweepGood(c, colors, vs[1..], log);
      if s.result.Success? {
        SweepStep(colors, colors, s.colors, vs);
      }
    }
  }

  /** The step of `SweepGood` from the rest of the vertices to all of them. */
  lemma SweepStep<V>(colors: map<V, GraphColor>, mid: map<V, GraphColor>, after: map<V, GraphColor>, vs: seq<V>)
    requires vs != [] && Grows(colors, mid) && Grows(mid, after)
    requires vs[0] in colors ==> mid[vs[0]] != White
    requires forall v | v in vs[1..] && v in mid :: after[v] != White
    ensures forall v | v in vs && v in colors :: after[v] != White
  {
    forall v | v in vs && v in colors ensures after[v] != White {
      if v != vs[0] {
        assert v in vs[1..];
      }
    }
  }

  /** A rootless `internalCompute` that returns normally leaves every vertex
      it swept Black, and every discovered vertex too. */
  lemma SweepBlack<V>(c: Config<V>, colors: map<V, GraphColor>, vs: seq<V>, log: seq<DfsEvent<V>>)
    requires Good(colors, log) && Open(log) == Some([])
    ensures var s := Sweep(c, colors, vs, log);
      && Grows(colors, s.colors)
      && (s.result.Success? ==>
        && Open(s.log) == Some([])
        && (forall v | v in vs && v in colors :: s.colors[v] == Black)
        && (forall v | v in Discovered(s.log) :: v in s.colors && s.colors[v] == Black))
  {
    SweepGood(c, colors, vs, log);
    var s := Sweep(c, colors, vs, log);
    if s.result.Success? {
      NothingOpen(s.colors, s.log);
    }
  }

  // ------------------------------------------------------------ from `initialize`

  /** `initialize` fires only `initializeVertex`: nothing is discovered,
      finished, open or classified. */
  lemma {:induction false} InitsQuiet<V>(vs: seq<V>)
    ensures Discovered(Inits(vs)) == [] && Finished(Inits(vs)) == []
    ensures Open(Inits(vs)) == Some([]) && Classified(Inits(vs))
    decreases |vs|
  {
    if vs != [] {
      var front := vs[..|vs| - 1];
      var x := InitializeVertex(vs[|vs| - 1]);
      InitsQuiet(front);
      assert Inits(vs) == Inits(front) + [x];
      EdgeEvent(Inits(front), x);
      ClassifiedSnoc(Inits(front), x);
    }
  }

  /** Every notification of `initialize` is an `initializeVertex`, of the
      vertices in order. */
  lemma {:induction false} InitsAre<V>(vs: seq<V>)
    ensures forall i | 0 <= i < |vs| :: Inits(vs)[i] == InitializeVertex(vs[i])
    decreases |vs|
  {
    if vs != [] {
      var front := vs[..|vs| - 1];
      InitsAre(front);
      assert Inits(vs) == Inits(front) + [InitializeVertex(vs[|vs| - 1])];
      forall i | 0 <= i < |vs| ensures Inits(vs)[i] == InitializeVertex(vs[i]) {
        if i < |front| {
          assert Inits(vs)[i] == Inits(front)[i];
        }
      }
    }
  }

  /** The state `initialize` leaves satisfies the invariant with nothing
      open. */
  lemma InitializedGood<V>(vs: seq<V>)
    ensures Good(Initialized(vs), Inits(vs)) && Open(Inits(vs)) == Some([])
  {
    InitsQuiet(vs);
  }

  /** A whole `compute()` after `initialize`, as `internalCompute` runs it:
      the invariant holds at the end, so discoveries and finishes nest, no
      vertex is discovered twice and every edge is classified by its
      target's color; the only exception is the `backEdge` subscriber's;
      a normal return leaves nothing open and every discovered vertex
      Black, the root Black when there is one, and every vertex of the
      graph Black when there is none. */
  lemma RunGood<V>(c: Config<V>, vs: seq<V>, root: Option<V>)
    ensures var s := Run(c, Initialized(vs), root, vs, Inits(vs));
      && Good(s.colors, s.log)
      && Grows(Initialized(vs), s.colors)
      && (s.result.Failure? ==> c.backEdgeError.Some? && s.result.error == c.backEdgeError.value)
      && (s.result.Success? ==>
        && Open(s.log) == Some([])
        && (forall v | v in Discovered(s.log) :: v in s.colors && s.colors[v] == Black)
        && (root.Some? ==> root.value in s.colors && s.colors[root.value] == Black)
        && (root.None? ==> forall v | v in vs :: v in s.colors && s.colors[v] == Black))
  {
    InitializedGood(vs);
    if root.Some? {
      StartGood(c, Initialized(vs), root.value, Inits(vs));
    } else {
      SweepGood(c, Initialized(vs), vs, Inits(vs));
      SweepBlack(c, Initialized(vs), vs, Inits(vs));
    }
  }

  /** The rooted branch of `internalCompute`: `startVertex(root)`, then
      `visit(root)`. */
  lemma StartGood<V>(c: Config<V>, colors: map<V, GraphColor>, root: V, log: seq<DfsEvent<V>>)
    requires Good(colors, log) && Open(log) == Some([])
    requires root !in colors || colors[root] == White
    ensures var s := Visit(c, colors, root, log + [StartVertex(root)]);
      && Ends(c, s) && Grows(colors, s.colors)
      && (s.result.Success? ==>
        && Open(s.log) == Some([])
        && (forall v | v in Discovered(s.log) :: v in s.colors && s.colors[v] == Black)
        && root in s.colors && s.colors[root] == Black)
  {
    EdgeEvent(log, StartVertex(root));
    ClassifiedSnoc(log, StartVertex(root));
    VisitGood(c, colors, root, log + [StartVertex(root)]);
    var s := Visit(c, colors, root, log + [StartVertex(root)]);
    if s.result.Success? {
      NothingOpen(s.colors, s.log);
    }
  }

  // ------------------------------------------------------------ maxDepth

  /** With a negative `maxDepth` the root's frame is already too deep when
      it is popped: the root is discovered and finished at once and none of
      its edges is examined. */
  lemma VisitTooDeep<V>(c: Config<V>, colors: map<V, GraphColor>, root: V, log: seq<DfsEvent<V>>)
    requires c.maxDepth.Some? && c.maxDepth.value < 0
    ensures Visit(c, colors, root, log)
      == Search(colors[root := Black], log + [DiscoverVertex(root), FinishVertex(root)], Success(()))
  {
    var todo := [Frame(root, OutEdges(c, root), 0)];
    assert todo[..0] == [];
    Painted(colors[root := Gray], root, Black);
    assert colors[root := Gray][root := Black] == colors[root := Black];
    assert log + [DiscoverVertex(root)] + [FinishVertex(root)] == log + [DiscoverVertex(root), FinishVertex(root)];
    assert Frames(c, colors[root := Black], [], log + [DiscoverVertex(root), FinishVertex(root)])
      == Search(colors[root := Black], log + [DiscoverVertex(root), FinishVertex(root)], Success(()));
  }

  /** `maxDepth` is compared only when a frame is popped, so a descent along
      tree edges is not cut short: with `maxDepth` 0 on the graph 1 -> 2,
      2 -> 3, 2 -> 4 searched from 1, vertex 3 at depth 2 is still
      discovered, and only the frame of 2, popped at depth 1, is finished
      without examining its remaining edge 2 -> 4, so 4 stays White. */
  lemma DepthZeroExample(identity: seq<Edge<int>> -> seq<Edge<int>>)
    requires forall es :: identity(es) == es
    ensures var e12, e23, e24 := Edge(1, 2), Edge(2, 3), Edge(2, 4);
      var g := OrderedMap([1, 2, 3, 4], map[1 := [e12], 2 := [e23, e24], 3 := [], 4 := []]);
      var c := Config(g, identity, Some(0), None);
      var s := Visit(c, Initialized([1, 2, 3, 4]), 1, []);
      && s.log == [DiscoverVertex(1), ExamineEdge(e12), TreeEdge(e12), DiscoverVertex(2),
                   ExamineEdge(e23), TreeEdge(e23), DiscoverVertex(3), FinishVertex(3),
                   FinishVertex(2), FinishVertex(1)]
      && s.colors == map[1 := Black, 2 := Black, 3 := Black, 4 := White]
      && s.result == Success(())
  {
    var e12, e23, e24 := Edge(1, 2), Edge(2, 3), Edge(2, 4);
    var g := OrderedMap([1, 2, 3, 4], map[1 := [e12], 2 := [e23, e24], 3 := [], 4 := []]);
    var c := Config(g, identity, Some(0), None);
    var w := Initialized([1, 2, 3, 4]);
    assert w[1 := Gray] == map[1 := Gray, 2 := White, 3 := White, 4 := White];
    assert OutEdges(c, 1) == [e12];
    assert [] + [DiscoverVertex(1)] == [DiscoverVertex(1)];
    DepthZeroFromOne(c);
  }

  /** The example from the root's frame. */
  lemma DepthZeroFromOne(c: Config<int>)
    requires c.maxDepth == Some(0) && forall es :: c.enumerate(es) == es
    requires c.graph.values == map[1 := [Edge(1, 2)], 2 := [Edge(2, 3), Edge(2, 4)], 3 := [], 4 := []]
    ensures Frames(c, map[1 := Gray, 2 := White, 3 := White, 4 := White], [Frame(1, [Edge(1, 2)], 0)], [DiscoverVertex(1)])
      == Search(map[1 := Black, 2 := Black, 3 := Black, 4 := White],
                [DiscoverVertex(1), ExamineEdge(Edge(1, 2)), TreeEdge(Edge(1, 2)), DiscoverVertex(2),
                 ExamineEdge(Edge(2, 3)), TreeEdge(Edge(2, 3)), DiscoverVertex(3), FinishVertex(3),
                 FinishVertex(2), FinishVertex(1)],
                Success(()))
  {
    var e12, e23, e24 := Edge(1, 2), Edge(2, 3), Edge(2, 4);
    var c1 := map[1 := Gray, 2 := White, 3 := White, 4 := White];
    var l1 := [DiscoverVertex(1)];
    var l2 := l1 + [ExamineEdge(e12)] + [TreeEdge(e12)] + [DiscoverVertex(2)];
    var f1 := Frame(1, [], 0);
    assert OutEdges(c, 2) == [e23, e24];
    DepthZeroFromTwo(c, l2);
    assert c1[2 := Gray] == map[1 := Gray, 2 := Gray, 3 := White, 4 := White];
    assert [e12][1..] == [];
    assert [] + [f1] == [f1];
    assert Explore(c, c1, [], 1, [e12], 0, l1) == Explore(c, c1[2 := Gray], [f1], 2, [e23, e24], 1, l2);
    assert l2 + [ExamineEdge(e23), TreeEdge(e23), DiscoverVertex(3), FinishVertex(3), FinishVertex(2), FinishVertex(1)]
      == [DiscoverVertex(1), ExamineEdge(e12), TreeEdge(e12), DiscoverVertex(2),
          ExamineEdge(e23), TreeEdge(e23), DiscoverVertex(3), FinishVertex(3), FinishVertex(2), FinishVertex(1)];
  }

  /** The example from the tree edge 1 -> 2 on. */
  lemma DepthZeroFromTwo(c: Config<int>, log: seq<DfsEvent<int>>)
    requires c.maxDepth == Some(0) && forall es :: c.enumerate(es) == es
    requires c.graph.values == map[1 := [Edge(1, 2)], 2 := [Edge(2, 3), Edge(2, 4)], 3 := [], 4 := []]
    ensures Explore(c, map[1 := Gray, 2 := Gray, 3 := White, 4 := White], [Frame(1, [], 0)], 2, [Edge(2, 3), Edge(2, 4)], 1, log)
      == Search(map[1 := Black, 2 := Black, 3 := Black, 4 := White],
                log + [ExamineEdge(Edge(2, 3)), TreeEdge(Edge(2, 3)), DiscoverVertex(3), FinishVertex(3), FinishVertex(2), FinishVertex(1)],
                Success(()))
  {
    var e23, e24 := Edge(2, 3), Edge(2, 4);
    var c2 := map[1 := Gray, 2 := Gray, 3 := White, 4 := White];
    var c3 := c2[3 := Gray];
    var c4 := c3[3 := Black];
    var c5 := c4[2 := Black];
    var c6 := c5[1 := Black];
    var l3 := log + [ExamineEdge(e23)] + [TreeEdge(e23)] + [DiscoverVertex(3)];
    var l4 := l3 + [FinishVertex(3)];
    var l5 := l4 + [FinishVertex(2)];
    var l6 := l5 + [FinishVertex(1)];
    var f1 := Frame(1, [], 0);
    var f2 := Frame(2, [e24], 1);
    assert OutEdges(c, 3) == [];
    assert Explore(c, c5, [], 1, [], 0, l5) == Frames(c, c6, [], l6);
    assert Frames(c, c5, [f1], l5) == Explore(c, c5, [], 1, [], 0, l5);
    assert [f1, f2][..1] == [f1];
    assert Frames(c, c4, [f1, f2], l4) == Frames(c, c5, [f1], l5);
    assert Explore(c, c3, [f1, f2], 3, [], 2, l3) == Frames(c, c4, [f1, f2], l4);
    assert [e23, e24][1..] == [e24];
    assert [f1] + [f2] == [f1, f2];
    assert Explore(c, c2, [f1], 2, [e23, e24], 1, log) == Explore(c, c3, [f1, f2], 3, [], 2, l3);
    assert l6 == log + [ExamineEdge(e23), TreeEdge(e23), DiscoverVertex(3), FinishVertex(3), FinishVertex(2), FinishVertex(1)];
    assert c6 == map[1 := Black, 2 := Black, 3 := Black, 4 := White];
  }

  // ------------------------------------------------------------ the colored vertices

  /** The search colors no vertex that had no color, beyond the root it is
      started from: the colored vertices stay the same. */
  lemma {:induction false} FramesKeys<V>(c: Config<V>, colors: map<V, GraphColor>, todo: seq<Frame<V>>, log: seq<DfsEvent<V>>)
    requires forall i | 0 <= i < |todo| :: todo[i].vertex in colors
    ensures Frames(c, colors, todo, log).colors.Keys == colors.Keys
    decreases |Whites(colors)|, Pending(todo), 1
  {
    if todo != [] {
      var f := todo[|todo| - 1];
      var rest := todo[..|todo| - 1];
      assert forall i | 0 <= i < |rest| :: rest[i] == todo[i];
      if TooDeep(f.depth, c.maxDepth) {
        Painted(colors, f.vertex, Black);
        FramesKeys(c, colors[f.vertex := Black], rest, log + [FinishVertex(f.vertex)]);
      } else {
        ExploreKeys(c, colors, rest, f.vertex, f.edges, f.depth, log);
      }
    }
  }

  lemma {:induction false} ExploreKeys<V>(c: Config<V>, colors: map<V, GraphColor>, todo: seq<Frame<V>>, u: V, edges: seq<Edge<V>>, depth: int, log: seq<DfsEvent<V>>)
    requires u in colors && forall i | 0 <= i < |todo| :: todo[i].vertex in colors
    ensures Explore(c, colors, todo, u, edges, depth, log).colors.Keys == colors.Keys
    decreases |Whites(colors)|, Pending(todo) + |edges| + 1, 0
  {
    if edges == [] {
      Painted(colors, u, Black);
      FramesKeys(c, colors[u := Black], todo, log + [FinishVertex(u)]);
    } else {
      var e := edges[0];
      var v := e.target;
      var examined := log + [ExamineEdge(e)];
      if v in colors && colors[v] == White {
        Painted(colors, v, Gray);
        var pushed := todo + [Frame(u, edges[1..], depth)];
        assert Pending(pushed) == Pending(todo) + |edges|;
        assert forall i | 0 <= i < |pushed| :: pushed[i].vertex in colors[v := Gray] by {
          assert forall i | 0 <= i < |todo| :: pushed[i] == todo[i];
        }
        ExploreKeys(c, colors[v := Gray], pushed, v, OutEdges(c, v), depth + 1, examined + [TreeEdge(e)] + [DiscoverVertex(v)]);
      } else if v in colors && colors[v] == Gray {
        if c.backEdgeError.None? {
          ExploreKeys(c, colors, todo, u, edges[1..], depth, examined + [BackEdge(e)]);
        }
      } else if v in colors && colors[v] == Black {
        ExploreKeys(c, colors, todo, u, edges[1..], depth, examined + [ForwardOrCrossEdge(e)]);
      } else {
        ExploreKeys(c, colors, todo, u, edges[1..], depth, examined);
      }
    }
  }

  /** A sweep over colored vertices colors no new vertex. */
  lemma {:induction false} SweepKeys<V>(c: Config<V>, colors: map<V, GraphColor>, vs: seq<V>, log: seq<DfsEvent<V>>)
    ensures Sweep(c, colors, vs, log).colors.Keys == colors.Keys
    decreases |vs|
  {
    if vs != [] {
      if vs[0] in colors && colors[vs[0]] == White {
        var s := Visit(c, colors, vs[0], log + [StartVertex(vs[0])]);
        assert colors[vs[0] := Gray].Keys == colors.Keys;
        FramesKeys(c, colors[vs[0] := Gray], [Frame(vs[0], OutEdges(c, vs[0]), 0)], log + [StartVertex(vs[0])] + [DiscoverVertex(vs[0])]);
        if s.result.Success? {
          SweepKeys(c, s.colors, vs[1..], s.log);
        }
      } else {
        SweepKeys(c, colors, vs[1..], log);
      }
    }
  }

  /** `internalCompute` from `initialize`'s colors: the colored vertices are
      the vertices and the root, if one is set. */
  lemma RunKeys<V>(c: Config<V>, vs: seq<V>, root: Option<V>)
    ensures var s := Run(c, Initialized(vs), root, vs, Inits(vs));
      s.colors.Keys == (set v | v in vs) + (if root.Some? then {root.value} else {})
  {
    if root.Some? {
      var r := root.value;
      FramesKeys(c, Initialized(vs)[r := Gray], [Frame(r, OutEdges(c, r), 0)], Inits(vs) + [StartVertex(r)] + [DiscoverVertex(r)]);
    } else {
      SweepKeys(c, Initialized(vs), vs, Inits(vs));
    }
  }
}
