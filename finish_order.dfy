/**
  The order in which the depth-first search of dfs_spec.dfy finishes
  vertices, which the topological sort reverses: when a sweep with no depth
  limit and a throwing `backEdge` subscriber returns normally, every vertex
  is finished once, and only after every vertex it has an edge to.
 */
module DfsFinishOrder {
  import opened Wrappers
  import opened Edges
  import opened GraphColors
  import opened Dictionaries
  import opened DfsSpec
  import opened DfsProperties

  /** The vertices of `K` that `x` has an edge to are all finished before
      `x` is, and no vertex is finished twice. */
  ghost predicate FinishOrdered<V>(c: Config<V>, K: set<V>, f: seq<V>) {
    && Distinct(f)
    && forall j | 0 <= j < |f| :: forall e | e in OutEdges(c, f[j]) && e.target in K :: e.target in f[..j]
  }

  /** The frame of `x` with remaining edges `r`: `r` is what is left of the
      out-edges of `x`, and every edge examined before it leads out of `K`,
      to a Black vertex, or to `child`, the vertex the search descended
      into from `x`. */
  ghost predicate Done<V>(c: Config<V>, K: set<V>, colors: map<V, GraphColor>, x: V, r: seq<Edge<V>>, child: Option<V>) {
    var o := OutEdges(c, x);
    && |r| <= |o| && o[|o| - |r|..] == r
    && forall i | 0 <= i < |o| - |r| :: o[i].target in K ==>
         (o[i].target in colors && colors[o[i].target] == Black) || child == Some(o[i].target)
  }

  /** The vertex of the frame above frame `i`, or `top` above the top one. */
  function Above<V>(todo: seq<Frame<V>>, i: int, top: Option<V>): Option<V>
    requires 0 <= i
  {
    if i + 1 < |todo| then Some(todo[i + 1].vertex) else top
  }

  /** Every frame on the stack is `Done`, each with the vertex of the frame
      above it as its child, the top one with `top`. */
  ghost predicate StackDone<V>(c: Config<V>, K: set<V>, colors: map<V, GraphColor>, todo: seq<Frame<V>>, top: Option<V>) {
    forall i | 0 <= i < |todo| :: Done(c, K, colors, todo[i].vertex, todo[i].edges, Above(todo, i, top))
  }

  /** Black vertices stay Black. */
  ghost predicate BlackKept<V>(before: map<V, GraphColor>, after: map<V, GraphColor>) {
    forall v | v in before && before[v] == Black :: v in after && after[v] == Black
  }

  lemma DoneKept<V>(c: Config<V>, K: set<V>, colors: map<V, GraphColor>, after: map<V, GraphColor>, x: V, r: seq<Edge<V>>, child: Option<V>)
    requires Done(c, K, colors, x, r, child) && BlackKept(colors, after)
    ensures Done(c, K, after, x, r, child)
  {
  }

  lemma StackKept<V>(c: Config<V>, K: set<V>, colors: map<V, GraphColor>, after: map<V, GraphColor>, todo: seq<Frame<V>>, top: Option<V>)
    requires StackDone(c, K, colors, todo, top) && BlackKept(colors, after)
    ensures StackDone(c, K, after, todo, top)
  {
    forall i | 0 <= i < |todo| ensures Done(c, K, after, todo[i].vertex, todo[i].edges, Above(todo, i, top)) {
      DoneKept(c, K, colors, after, todo[i].vertex, todo[i].edges, Above(todo, i, top));
    }
  }

  /** Finishing a Gray vertex all of whose edges into `K` lead to Black
      vertices keeps the finishes ordered. */
  lemma FinishOrderedSnoc<V>(c: Config<V>, K: set<V>, colors: map<V, GraphColor>, log: seq<DfsEvent<V>>, u: V)
    requires Coherent(colors, log) && FinishOrdered(c, K, Finished(log))
    requires u in colors && colors[u] == Gray && Done(c, K, colors, u, [], None)
    ensures FinishOrdered(c, K, Finished(log + [FinishVertex(u)]))
  {
    var f := Finished(log);
    var log' := log + [FinishVertex(u)];
    Snoc(log, FinishVertex(u));
    assert Finished(log') == f + [u];
    assert u !in f;
    DistinctSnoc(f, u);
    var f' := f + [u];
    forall j | 0 <= j < |f'|
      ensures forall e | e in OutEdges(c, f'[j]) && e.target in K :: e.target in f'[..j]
    {
      if j < |f| {
        assert f'[..j] == f[..j] && f'[j] == f[j];
      } else {
        assert f'[..j] == f;
        var o := OutEdges(c, u);
        forall e | e in o && e.target in K ensures e.target in f {
          var i :| 0 <= i < |o| && o[i] == e;
        }
      }
    }
  }

  // ------------------------------------------------------------ the loops

  /** What holds whenever the outer loop pops a frame. */
  ghost predicate AtFrames<V>(c: Config<V>, K: set<V>, colors: map<V, GraphColor>, todo: seq<Frame<V>>, log: seq<DfsEvent<V>>) {
    && c.maxDepth.None? && c.backEdgeError.Some?
    && Good(colors, log) && Open(log) == Some(Verts(todo))
    && K <= colors.Keys && StackDone(c, K, colors, todo, None) && FinishOrdered(c, K, Finished(log))
  }

  /** What holds whenever the inner loop takes the next edge of `u`. */
  ghost predicate AtExplore<V>(c: Config<V>, K: set<V>, colors: map<V, GraphColor>, todo: seq<Frame<V>>, u: V, edges: seq<Edge<V>>, log: seq<DfsEvent<V>>) {
    && c.maxDepth.None? && c.backEdgeError.Some?
    && Good(colors, log) && Open(log) == Some(Verts(todo) + [u])
    && K <= colors.Keys && StackDone(c, K, colors, todo, Some(u)) && Done(c, K, colors, u, edges, None)
    && FinishOrdered(c, K, Finished(log))
  }

  /** The outer loop keeps the finishes ordered. */
  lemma {:induction false} FramesOrdered<V>(c: Config<V>, K: set<V>, colors: map<V, GraphColor>, todo: seq<Frame<V>>, log: seq<DfsEvent<V>>)
    requires AtFrames(c, K, colors, todo, log)
    ensures Frames(c, colors, todo, log).result.Success? ==> FinishOrdered(c, K, Finished(Frames(c, colors, todo, log).log))
    decreases |Whites(colors)|, Pending(todo), 2
  {
    if todo != [] {
      var f := todo[|todo| - 1];
      PopStep(c, K, colors, todo, log);
      ExploreOrdered(c, K, colors, todo[..|todo| - 1], f.vertex, f.edges, f.depth, log);
    }
  }

  /** The inner loop keeps the finishes ordered; a back edge throws. */
  lemma {:induction false} ExploreOrdered<V>(c: Config<V>, K: set<V>, colors: map<V, GraphColor>, todo: seq<Frame<V>>, u: V, edges: seq<Edge<V>>, depth: int, log: seq<DfsEvent<V>>)
    requires AtExplore(c, K, colors, todo, u, edges, log)
    ensures var s := Explore(c, colors, todo, u, edges, depth, log);
      s.result.Success? ==> FinishOrdered(c, K, Finished(s.log))
    decreases |Whites(colors)|, Pending(todo) + |edges| + 1, 1
  {
    if edges == [] {
      FinishOrderedCase(c, K, colors, todo, u, log);
    } else if edges[0].target in colors && colors[edges[0].target] == White {
      TreeOrderedCase(c, K, colors, todo, u, edges, depth, log);
    } else if !(edges[0].target in colors && colors[edges[0].target] == Gray) {
      SkipOrderedCase(c, K, colors, todo, u, edges, depth, log);
    }
  }

  lemma {:induction false} FinishOrderedCase<V>(c: Config<V>, K: set<V>, colors: map<V, GraphColor>, todo: seq<Frame<V>>, u: V, log: seq<DfsEvent<V>>)
    requires AtExplore(c, K, colors, todo, u, [], log)
    ensures var s := Frames(c, colors[u := Black], todo, log + [FinishVertex(u)]);
      s.result.Success? ==> FinishOrdered(c, K, Finished(s.log))
    decreases |Whites(colors)|, Pending(todo) + 1, 0
  {
    Painted(colors, u, Black);
    FinishInv(c, K, colors, todo, u, log);
    FramesOrdered(c, K, colors[u := Black], todo, log + [FinishVertex(u)]);
  }

  lemma {:induction false} TreeOrderedCase<V>(c: Config<V>, K: set<V>, colors: map<V, GraphColor>, todo: seq<Frame<V>>, u: V, edges: seq<Edge<V>>, depth: int, log: seq<DfsEvent<V>>)
    requires AtExplore(c, K, colors, todo, u, edges, log)
    requires edges != [] && edges[0].target in colors && colors[edges[0].target] == White
    ensures var s := Explore(c, colors, todo, u, edges, depth, log);
      s.result.Success? ==> FinishOrdered(c, K, Finished(s.log))
    decreases |Whites(colors)|, Pending(todo) + |edges| + 1, 0
  {
    var e := edges[0];
    var v := e.target;
    Painted(colors, v, Gray);
    assert Pending(todo + [Frame(u, edges[1..], depth)]) == Pending(todo) + |edges|;
    TreeInv(c, K, colors, todo, u, edges, depth, log);
    ExploreOrdered(c, K, colors[v := Gray], todo + [Frame(u, edges[1..], depth)], v, OutEdges(c, v), depth + 1,
      log + [ExamineEdge(e)] + [TreeEdge(e)] + [DiscoverVertex(v)]);
  }

  lemma {:induction false} SkipOrderedCase<V>(c: Config<V>, K: set<V>, colors: map<V, GraphColor>, todo: seq<Frame<V>>, u: V, edges: seq<Edge<V>>, depth: int, log: seq<DfsEvent<V>>)
    requires AtExplore(c, K, colors, todo, u, edges, log)
    requires edges != [] && (edges[0].target !in colors || colors[edges[0].target] == Black)
    ensures var s := Explore(c, colors, todo, u, edges, depth, log);
      s.result.Success? ==> FinishOrdered(c, K, Finished(s.log))
    decreases |Whites(colors)|, Pending(todo) + |edges| + 1, 0
  {
    var e := edges[0];
    SkipInv(c, K, colors, todo, u, edges, log);
    if e.target in colors {
      ExploreOrdered(c, K, colors, todo, u, edges[1..], depth, log + [ExamineEdge(e)] + [ForwardOrCrossEdge(e)]);
    } else {
      ExploreOrdered(c, K, colors, todo, u, edges[1..], depth, log + [ExamineEdge(e)]);
    }
  }

  /** Popping a frame resumes its own edges with the frame below as its
      parent. */
  lemma PopStep<V>(c: Config<V>, K: set<V>, colors: map<V, GraphColor>, todo: seq<Frame<V>>, log: seq<DfsEvent<V>>)
    requires AtFrames(c, K, colors, todo, log) && todo != []
    ensures var f := todo[|todo| - 1];
      AtExplore(c, K, colors, todo[..|todo| - 1], f.vertex, f.edges, log)
  {
    var f := todo[|todo| - 1];
    var rest := todo[..|todo| - 1];
    assert Verts(todo) == Verts(rest) + [f.vertex];
    assert StackDone(c, K, colors, rest, Some(f.vertex)) by {
      forall i | 0 <= i < |rest| ensures Done(c, K, colors, rest[i].vertex, rest[i].edges, Above(rest, i, Some(f.vertex))) {
        assert rest[i] == todo[i] && Above(rest, i, Some(f.vertex)) == Above(todo, i, None);
      }
    }
    assert Above(todo, |todo| - 1, None) == None;
  }

  /** Finishing the current vertex, all of whose edges are examined,
      resumes the outer loop. */
  lemma FinishInv<V>(c: Config<V>, K: set<V>, colors: map<V, GraphColor>, todo: seq<Frame<V>>, u: V, log: seq<DfsEvent<V>>)
    requires AtExplore(c, K, colors, todo, u, [], log)
    ensures AtFrames(c, K, colors[u := Black], todo, log + [FinishVertex(u)])
  {
    var colors' := colors[u := Black];
    assert u in Open(log).value;
    FinishOrderedSnoc(c, K, colors, log, u);
    GoodFinish(colors, log, u);
    StackKept(c, K, colors, colors', todo, Some(u));
    StackFinished(c, K, colors', todo, u);
  }

  /** Once the top frame's child is Black, the child no longer matters. */
  lemma StackFinished<V>(c: Config<V>, K: set<V>, colors: map<V, GraphColor>, todo: seq<Frame<V>>, u: V)
    requires StackDone(c, K, colors, todo, Some(u)) && u in colors && colors[u] == Black
    ensures StackDone(c, K, colors, todo, None)
  {
    forall i | 0 <= i < |todo| ensures Done(c, K, colors, todo[i].vertex, todo[i].edges, Above(todo, i, None)) {
      assert Done(c, K, colors, todo[i].vertex, todo[i].edges, Above(todo, i, Some(u)));
    }
  }

  /** A tree edge pushes the current frame with its target as its child and
      goes on at the target. */
  lemma TreeInv<V>(c: Config<V>, K: set<V>, colors: map<V, GraphColor>, todo: seq<Frame<V>>, u: V, edges: seq<Edge<V>>, depth: int, log: seq<DfsEvent<V>>)
    requires AtExplore(c, K, colors, todo, u, edges, log)
    requires edges != [] && edges[0].target in colors && colors[edges[0].target] == White
    ensures var e := edges[0];
      AtExplore(c, K, colors[e.target := Gray], todo + [Frame(u, edges[1..], depth)], e.target, OutEdges(c, e.target),
        log + [ExamineEdge(e)] + [TreeEdge(e)] + [DiscoverVertex(e.target)])
  {
    TreeLog(c, K, colors, todo, u, edges, depth, log);
    TreeStack(c, K, colors, todo, u, edges, depth);
  }

  /** The log after a tree edge: the invariant, the stack's vertices and
      the target open, and the same finishes. */
  lemma TreeLog<V>(c: Config<V>, K: set<V>, colors: map<V, GraphColor>, todo: seq<Frame<V>>, u: V, edges: seq<Edge<V>>, depth: int, log: seq<DfsEvent<V>>)
    requires Good(colors, log) && Open(log) == Some(Verts(todo) + [u]) && FinishOrdered(c, K, Finished(log))
    requires edges != [] && edges[0].target in colors && colors[edges[0].target] == White
    ensures var e := edges[0];
      var log' := log + [ExamineEdge(e)] + [TreeEdge(e)] + [DiscoverVertex(e.target)];
      && Good(colors[e.target := Gray], log')
      && Open(log') == Some(Verts(todo + [Frame(u, edges[1..], depth)]) + [e.target])
      && FinishOrdered(c, K, Finished(log'))
  {
    var e := edges[0];
    var v := e.target;
    var todo' := todo + [Frame(u, edges[1..], depth)];
    var log' := log + [ExamineEdge(e)] + [TreeEdge(e)] + [DiscoverVertex(v)];
    assert todo'[..|todo|] == todo;
    assert Verts(todo') == Verts(todo) + [u];
    GoodTree(colors, log, e);
    EdgeEvent(log, ExamineEdge(e));
    EdgeEvent(log + [ExamineEdge(e)], TreeEdge(e));
    Snoc(log + [ExamineEdge(e)] + [TreeEdge(e)], DiscoverVertex(v));
    assert Finished(log') == Finished(log);
  }

  /** The stack after a tree edge: the pushed frame has the target as its
      child, and the target starts with all its edges to go. */
  lemma TreeStack<V>(c: Config<V>, K: set<V>, colors: map<V, GraphColor>, todo: seq<Frame<V>>, u: V, edges: seq<Edge<V>>, depth: int)
    requires StackDone(c, K, colors, todo, Some(u)) && Done(c, K, colors, u, edges, None)
    requires edges != [] && edges[0].target in colors && colors[edges[0].target] == White
    ensures var v := edges[0].target;
      && StackDone(c, K, colors[v := Gray], todo + [Frame(u, edges[1..], depth)], Some(v))
      && Done(c, K, colors[v := Gray], v, OutEdges(c, v), None)
  {
    var v := edges[0].target;
    var colors' := colors[v := Gray];
    StackKept(c, K, colors, colors', todo, Some(u));
    TreeDone(c, K, colors, u, edges);
    PushDone(c, K, colors', todo, u, edges, depth);
    var o := OutEdges(c, v);
    assert o[0..] == o;
  }

  /** An edge to a Black vertex or to one without a color is classified or
      only examined, and the frame stays `Done`. */
  lemma SkipInv<V>(c: Config<V>, K: set<V>, colors: map<V, GraphColor>, todo: seq<Frame<V>>, u: V, edges: seq<Edge<V>>, log: seq<DfsEvent<V>>)
    requires AtExplore(c, K, colors, todo, u, edges, log)
    requires edges != [] && (edges[0].target !in colors || colors[edges[0].target] == Black)
    ensures var e := edges[0];
      AtExplore(c, K, colors, todo, u, edges[1..],
        if e.target in colors then log + [ExamineEdge(e)] + [ForwardOrCrossEdge(e)] else log + [ExamineEdge(e)])
  {
    var e := edges[0];
    var v := e.target;
    EdgeEvent(log, ExamineEdge(e));
    if v in colors {
      GoodForwardOrCross(colors, log, e);
      EdgeEvent(log + [ExamineEdge(e)], ForwardOrCrossEdge(e));
    } else {
      GoodExamine(colors, log, e);
    }
    SkipDone(c, K, colors, u, edges);
  }

  /** After an edge to a Black vertex or to one without a color the frame
      stays `Done`. */
  lemma SkipDone<V>(c: Config<V>, K: set<V>, colors: map<V, GraphColor>, u: V, edges: seq<Edge<V>>)
    requires Done(c, K, colors, u, edges, None) && K <= colors.Keys
    requires edges != [] && (edges[0].target !in colors || colors[edges[0].target] == Black)
    ensures Done(c, K, colors, u, edges[1..], None)
  {
    var o := OutEdges(c, u);
    assert o[|o| - |edges|..] == edges;
    assert o[|o| - |edges| + 1..] == edges[1..];
    forall i | 0 <= i < |o| - |edges[1..]| && o[i].target in K
      ensures o[i].target in colors && colors[o[i].target] == Black
    {
      if i == |o| - |edges| {
        assert o[i] == edges[0];
      }
    }
  }

  /** After a tree edge the current frame is `Done` with its target as its
      child. */
  lemma TreeDone<V>(c: Config<V>, K: set<V>, colors: map<V, GraphColor>, u: V, edges: seq<Edge<V>>)
    requires Done(c, K, colors, u, edges, None)
    requires edges != [] && edges[0].target in colors && colors[edges[0].target] == White
    ensures Done(c, K, colors[edges[0].target := Gray], u, edges[1..], Some(edges[0].target))
  {
    var v := edges[0].target;
    var colors' := colors[v := Gray];
    var o := OutEdges(c, u);
    assert o[|o| - |edges|..] == edges;
    assert o[|o| - |edges| + 1..] == edges[1..];
    forall i | 0 <= i < |o| - |edges[1..]| && o[i].target in K
      ensures (o[i].target in colors' && colors'[o[i].target] == Black) || Some(v) == Some(o[i].target)
    {
      if i == |o| - |edges| {
        assert o[i] == edges[0];
      }
    }
  }

  /** Pushing the current frame with its target as its child keeps the
      stack `Done`. */
  lemma PushDone<V>(c: Config<V>, K: set<V>, colors: map<V, GraphColor>, todo: seq<Frame<V>>, u: V, edges: seq<Edge<V>>, depth: int)
    requires StackDone(c, K, colors, todo, Some(u))
    requires edges != [] && Done(c, K, colors, u, edges[1..], Some(edges[0].target))
    ensures StackDone(c, K, colors, todo + [Frame(u, edges[1..], depth)], Some(edges[0].target))
  {
    var todo' := todo + [Frame(u, edges[1..], depth)];
    var v := edges[0].target;
    forall i | 0 <= i < |todo'| ensures Done(c, K, colors, todo'[i].vertex, todo'[i].edges, Above(todo', i, Some(v))) {
      if i < |todo| {
        assert todo'[i] == todo[i] && Above(todo', i, Some(v)) == Above(todo, i, Some(u));
      }
    }
  }

  // ------------------------------------------------------------ visit and sweep

  /** `visit(root)` from a state with nothing open keeps the finishes
      ordered. */
  lemma VisitOrdered<V>(c: Config<V>, K: set<V>, colors: map<V, GraphColor>, root: V, log: seq<DfsEvent<V>>)
    requires c.maxDepth.None? && c.backEdgeError.Some?
    requires Good(colors, log) && Open(log) == Some([])
    requires root !in colors || colors[root] == White
    requires K <= colors.Keys && FinishOrdered(c, K, Finished(log))
    ensures var s := Visit(c, colors, root, log);
      s.result.Success? ==> FinishOrdered(c, K, Finished(s.log))
  {
    var todo := [Frame(root, OutEdges(c, root), 0)];
    var log' := log + [DiscoverVertex(root)];
    GoodDiscover(colors, log, root);
    Snoc(log, DiscoverVertex(root));
    assert Finished(log') == Finished(log);
    assert Verts(todo) == [root] by {
      assert todo[..0] == [];
    }
    assert StackDone(c, K, colors[root := Gray], todo, None) by {
      var o := OutEdges(c, root);
      assert o[0..] == o;
      assert Done(c, K, colors[root := Gray], root, o, None);
    }
    assert AtFrames(c, K, colors[root := Gray], todo, log');
    FramesOrdered(c, K, colors[root := Gray], todo, log');
  }

  /** The rootless sweep keeps the finishes ordered. */
  lemma {:induction false} SweepOrdered<V>(c: Config<V>, K: set<V>, colors: map<V, GraphColor>, vs: seq<V>, log: seq<DfsEvent<V>>)
    requires c.maxDepth.None? && c.backEdgeError.Some?
    requires Good(colors, log) && Open(log) == Some([])
    requires K <= colors.Keys && FinishOrdered(c, K, Finished(log))
    ensures var s := Sweep(c, colors, vs, log);
      s.result.Success? ==> FinishOrdered(c, K, Finished(s.log))
    decreases |vs|
  {
    if vs == [] {
    } else if vs[0] in colors && colors[vs[0]] == White {
      var start := log + [StartVertex(vs[0])];
      EdgeEvent(log, StartVertex(vs[0]));
      ClassifiedSnoc(log, StartVertex(vs[0]));
      VisitOrdered(c, K, colors, vs[0], start);
      VisitGood(c, colors, vs[0], start);
      var t := Visit(c, colors, vs[0], start);
      if t.result.Success? {
        SweepOrdered(c, K, t.colors, vs[1..], t.log);
      }
    } else {
      SweepOrdered(c, K, colors, vs[1..], log);
    }
  }

  /** A rootless `compute()` with no depth limit and a throwing `backEdge`
      subscriber that returns normally has finished every vertex exactly
      once, each after every vertex it has an edge to. */
  lemma RunOrdered<V>(c: Config<V>, vs: seq<V>)
    requires c.maxDepth.None? && c.backEdgeError.Some?
    ensures var s := Run(c, Initialized(vs), None, vs, Inits(vs));
      s.result.Success? ==>
        && FinishOrdered(c, (set v | v in vs), Finished(s.log))
        && forall v | v in vs :: v in Finished(s.log)
  {
    var K := set v | v in vs;
    InitializedGood(vs);
    InitsQuiet(vs);
    assert FinishOrdered(c, K, Finished(Inits(vs)));
    SweepOrdered(c, K, Initialized(vs), vs, Inits(vs));
    RunGood(c, vs, None);
  }
}
