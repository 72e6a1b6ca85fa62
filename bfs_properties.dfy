/**
  What the breadth-first search of breadth_first_search.dfy guarantees,
  proved about `BfsSpec`: the Gray vertices are exactly the queued ones, no
  Black vertex has an edge to a White one, every colored vertex is reachable
  from the root, and so a search from a root paints Black exactly the
  vertices reachable from it and leaves all others White.
 */
module BfsProperties {
  import opened Wrappers
  import opened Edges
  import opened GraphColors
  import opened Dictionaries
  import opened BfsSpec

  // ------------------------------------------------------------ reachability

  /** `b` is the target of an out-edge of `a`. */
  ghost predicate HasEdge<V>(c: BfsConfig<V>, a: V, b: V) {
    exists e | e in OutEdges(c, a) :: e.target == b
  }

  /** A nonempty walk along out-edges that stays inside `K`. */
  ghost predicate Path<V>(c: BfsConfig<V>, K: set<V>, p: seq<V>) {
    && |p| > 0
    && (forall i | 0 <= i < |p| :: p[i] in K)
    && (forall i | 0 <= i < |p| - 1 :: HasEdge(c, p[i], p[i + 1]))
  }

  /** Some walk inside `K` leads from `r` to `v`. */
  ghost predicate Reachable<V(!new)>(c: BfsConfig<V>, K: set<V>, r: V, v: V) {
    exists p :: Path(c, K, p) && p[0] == r && p[|p| - 1] == v
  }

  /** A walk to `u` extends by an out-edge of `u` into `K`. */
  lemma PathSnoc<V>(c: BfsConfig<V>, K: set<V>, p: seq<V>, e: Edge<V>)
    requires Path(c, K, p) && e in OutEdges(c, p[|p| - 1]) && e.target in K
    ensures Path(c, K, p + [e.target])
  {
    var q := p + [e.target];
    forall i | 0 <= i < |q| - 1
      ensures HasEdge(c, q[i], q[i + 1])
    {
      if i == |p| - 1 {
        assert q[i] == p[|p| - 1] && q[i + 1] == e.target;
      } else {
        assert q[i] == p[i] && q[i + 1] == p[i + 1];
      }
    }
  }

  // ------------------------------------------------------------ invariants

  /** No Black vertex has an out-edge to a White vertex. */
  ghost predicate Closed<V>(c: BfsConfig<V>, colors: map<V, GraphColor>) {
    forall x | x in colors && colors[x] == Black ::
      forall e | e in OutEdges(c, x) && e.target in colors :: colors[e.target] != White
  }

  /** Every colored vertex that is not White is reachable from `r`. */
  ghost predicate Reached<V(!new)>(c: BfsConfig<V>, K: set<V>, r: V, colors: map<V, GraphColor>) {
    forall v | v in colors && colors[v] != White :: Reachable(c, K, r, v)
  }

  /** What holds whenever the `while` loop tests the queue. */
  ghost predicate FlushInv<V(!new)>(c: BfsConfig<V>, K: set<V>, r: V, colors: map<V, GraphColor>, queue: seq<V>) {
    && colors.Keys == K
    && Distinct(queue)
    && (forall v | v in queue :: v in colors && colors[v] == Gray)
    && (forall v | v in colors && colors[v] == Gray :: v in queue)
    && Closed(c, colors)
    && Reached(c, K, r, colors)
  }

  /** The out-edges of `u` examined so far, all that precede `edges`, lead to
      no White vertex. */
  ghost predicate Examined<V>(c: BfsConfig<V>, colors: map<V, GraphColor>, u: V, edges: seq<Edge<V>>) {
    var o := OutEdges(c, u);
    && |edges| <= |o| && o[|o| - |edges|..] == edges
    && forall i | 0 <= i < |o| - |edges| :: o[i].target in colors ==> colors[o[i].target] != White
  }

  /** What holds whenever the `for` loop takes the next edge of `u`, the
      vertex just dequeued. */
  ghost predicate ScanInv<V(!new)>(c: BfsConfig<V>, K: set<V>, r: V, colors: map<V, GraphColor>, queue: seq<V>, u: V, edges: seq<Edge<V>>) {
    && colors.Keys == K
    && Distinct(queue)
    && u in colors && colors[u] == Gray && u !in queue
    && (forall v | v in queue :: v in colors && colors[v] == Gray && v != u)
    && (forall v | v in colors && colors[v] == Gray && v != u :: v in queue)
    && Closed(c, colors)
    && Reached(c, K, r, colors)
    && Examined(c, colors, u, edges)
  }

  // ------------------------------------------------------------ steps

  /** Dequeuing the head starts the scan of all its out-edges. */
  lemma DequeueStep<V(!new)>(c: BfsConfig<V>, K: set<V>, r: V, colors: map<V, GraphColor>, queue: seq<V>)
    requires FlushInv(c, K, r, colors, queue) && queue != []
    ensures ScanInv(c, K, r, colors, queue[1..], queue[0], OutEdges(c, queue[0]))
  {
    var u := queue[0];
    assert queue == [u] + queue[1..];
    var o := OutEdges(c, u);
    assert o[|o| - |o|..] == o;
  }

  /** Once the edges run out, `u` turns Black and the loop is back at the
      queue. */
  lemma FinishStep<V(!new)>(c: BfsConfig<V>, K: set<V>, r: V, colors: map<V, GraphColor>, queue: seq<V>, u: V)
    requires ScanInv(c, K, r, colors, queue, u, [])
    ensures FlushInv(c, K, r, colors[u := Black], queue)
  {
    var after := colors[u := Black];
    var o := OutEdges(c, u);
    forall x | x in after && after[x] == Black
      ensures forall e | e in OutEdges(c, x) && e.target in after :: after[e.target] != White
    {
      forall e | e in OutEdges(c, x) && e.target in after
        ensures after[e.target] != White
      {
        if x == u {
          var i :| 0 <= i < |o| && o[i] == e;
          assert colors[o[i].target] != White;
        } else {
          assert colors[x] == Black;
        }
      }
    }
  }

  /** A White target is colored Gray and enqueued. */
  lemma TreeStep<V(!new)>(c: BfsConfig<V>, K: set<V>, r: V, colors: map<V, GraphColor>, queue: seq<V>, u: V, edges: seq<Edge<V>>)
    requires ScanInv(c, K, r, colors, queue, u, edges)
    requires edges != [] && edges[0].target in colors && colors[edges[0].target] == White
    ensures var v := edges[0].target;
      ScanInv(c, K, r, colors[v := Gray], queue + [v], u, edges[1..])
  {
    var e := edges[0];
    var v := e.target;
    var after := colors[v := Gray];
    var o := OutEdges(c, u);
    var n := |o| - |edges|;
    assert o[n] == e by {
      assert o[n..][0] == o[n];
    }
    assert o[|o| - |edges[1..]|..] == edges[1..] by {
      assert o[n + 1..] == o[n..][1..];
    }
    DistinctSnoc(queue, v);
    assert Reachable(c, K, r, v) by {
      var p :| Path(c, K, p) && p[0] == r && p[|p| - 1] == u;
      PathSnoc(c, K, p, e);
      assert (p + [v])[0] == r && (p + [v])[|p + [v]| - 1] == v;
    }
    ExaminedGray(c, colors, u, edges, v);
  }

  /** The examined edges still lead to no White vertex once one more vertex
      is Gray, including the edge just examined. */
  lemma ExaminedGray<V>(c: BfsConfig<V>, colors: map<V, GraphColor>, u: V, edges: seq<Edge<V>>, v: V)
    requires Examined(c, colors, u, edges) && edges != [] && edges[0].target == v && v in colors
    requires OutEdges(c, u)[|OutEdges(c, u)| - |edges|] == edges[0]
    requires OutEdges(c, u)[|OutEdges(c, u)| - |edges[1..]|..] == edges[1..]
    ensures Examined(c, colors[v := Gray], u, edges[1..])
  {
  }

  /** Any other target leaves the colors and the queue as they are. */
  lemma SkipStep<V(!new)>(c: BfsConfig<V>, K: set<V>, r: V, colors: map<V, GraphColor>, queue: seq<V>, u: V, edges: seq<Edge<V>>)
    requires ScanInv(c, K, r, colors, queue, u, edges)
    requires edges != [] && !(edges[0].target in colors && colors[edges[0].target] == White)
    ensures ScanInv(c, K, r, colors, queue, u, edges[1..])
  {
    var o := OutEdges(c, u);
    var n := |o| - |edges|;
    assert o[n] == edges[0] by {
      assert o[n..][0] == o[n];
    }
    assert o[|o| - |edges[1..]|..] == edges[1..] by {
      assert o[n + 1..] == o[n..][1..];
    }
  }

  // ------------------------------------------------------------ the loops

  /** The outer loop keeps the invariant and ends with the queue empty. */
  lemma {:induction false} FlushKeeps<V(!new)>(c: BfsConfig<V>, K: set<V>, r: V, colors: map<V, GraphColor>, queue: seq<V>, log: seq<BfsEvent<V>>)
    requires FlushInv(c, K, r, colors, queue)
    ensures var s := Flush(c, colors, queue, log); s.queue == [] && FlushInv(c, K, r, s.colors, [])
    decreases |Whites(colors)|, |queue|, 1, 0
  {
    if queue != [] {
      DequeueStep(c, K, r, colors, queue);
      ScanKeeps(c, K, r, colors, queue[1..], queue[0], OutEdges(c, queue[0]), log + [ExamineVertex(queue[0])]);
    }
  }

  /** The inner loop keeps the invariant and hands over to the outer one. */
  lemma {:induction false} ScanKeeps<V(!new)>(c: BfsConfig<V>, K: set<V>, r: V, colors: map<V, GraphColor>, queue: seq<V>, u: V, edges: seq<Edge<V>>, log: seq<BfsEvent<V>>)
    requires ScanInv(c, K, r, colors, queue, u, edges)
    ensures var s := Scan(c, colors, queue, u, edges, log); s.queue == [] && FlushInv(c, K, r, s.colors, [])
    decreases |Whites(colors)|, |queue| + 1, 0, |edges|
  {
    if edges == [] {
      FinishStep(c, K, r, colors, queue, u);
      Painted(colors, u, Black);
      FlushKeeps(c, K, r, colors[u := Black], queue, log + [FinishVertex(u)]);
    } else {
      var e := edges[0];
      var v := e.target;
      if v in colors && colors[v] == White {
        TreeStep(c, K, r, colors, queue, u, edges);
        Painted(colors, v, Gray);
        ScanKeeps(c, K, r, colors[v := Gray], queue + [v], u, edges[1..], log + [ExamineEdge(e)] + [TreeEdge(e)] + [DiscoverVertex(v)]);
      } else {
        SkipStep(c, K, r, colors, queue, u, edges);
        if v in colors && colors[v] == Gray {
          ScanKeeps(c, K, r, colors, queue, u, edges[1..], log + [ExamineEdge(e)] + [NonTreeEdge(e)] + [GrayTarget(e)]);
        } else {
          ScanKeeps(c, K, r, colors, queue, u, edges[1..], log + [ExamineEdge(e)] + [NonTreeEdge(e)] + [BlackTarget(e)]);
        }
      }
    }
  }

  // ------------------------------------------------------------ the theorem

  /** With nothing Gray and no Black-to-White edge, a walk from a Black
      vertex stays Black. */
  lemma {:induction false} WalkStaysBlack<V>(c: BfsConfig<V>, colors: map<V, GraphColor>, p: seq<V>)
    requires Path(c, colors.Keys, p) && colors[p[0]] == Black
    requires Closed(c, colors) && forall v | v in colors :: colors[v] != Gray
    ensures colors[p[|p| - 1]] == Black
    decreases |p|
  {
    if |p| > 1 {
      var q := p[..|p| - 1];
      assert Path(c, colors.Keys, q) by {
        forall i | 0 <= i < |q| - 1
          ensures HasEdge(c, q[i], q[i + 1])
        {
          assert q[i] == p[i] && q[i + 1] == p[i + 1];
        }
      }
      WalkStaysBlack(c, colors, q);
      assert HasEdge(c, p[|p| - 2], p[|p| - 1]);
      var e :| e in OutEdges(c, p[|p| - 2]) && e.target == p[|p| - 1];
    }
  }

  /** `compute(r)` on a graph with vertices `vs` and an empty queue: the
      queue ends empty, the colored vertices are the vertices and the root,
      and a vertex ends Black exactly when some walk leads to it from the
      root, White otherwise. On a graph without vertices nothing happens,
      not even at the root. */
  lemma RunFromRoot<V(!new)>(c: BfsConfig<V>, vs: seq<V>, r: V)
    ensures var s := Run(c, Initialized(vs), Some(r), |vs|, [], Inits(vs));
      var K := (set v | v in vs) + {r};
      && (vs == [] ==> s == Bfs(map[], [], []))
      && (vs != [] ==>
        && s.queue == [] && s.colors.Keys == K
        && (forall v | v in K :: s.colors[v] == Black <==> Reachable(c, K, r, v))
        && (forall v | v in K :: s.colors[v] == White <==> !Reachable(c, K, r, v)))
  {
    if vs != [] {
      var K := (set v | v in vs) + {r};
      var start := EnqueueRoot(Initialized(vs), r, [], Inits(vs));
      RootStarts(c, vs, r);
      FlushKeeps(c, K, r, start.colors, start.queue, start.log);
      ColoredStaysColored(c, start.colors, start.queue, start.log, r);
      var s := Flush(c, start.colors, start.queue, start.log);
      BlackIffReachable(c, K, r, s.colors);
    }
  }

  /** The root enqueued on freshly initialized colors satisfies the
      invariant of the `while` loop. */
  lemma RootStarts<V(!new)>(c: BfsConfig<V>, vs: seq<V>, r: V)
    ensures var K := (set v | v in vs) + {r};
      FlushInv(c, K, r, Initialized(vs)[r := Gray], [r])
  {
    var K := (set v | v in vs) + {r};
    var colors := Initialized(vs)[r := Gray];
    assert Path(c, K, [r]) && [r][0] == r && [r][|[r]| - 1] == r;
    assert Reachable(c, K, r, r);
    assert colors.Keys == K;
    assert forall v | v in colors && colors[v] != White :: v == r;
    assert Distinct([r]) by {
      assert [r][1..] == [];
    }
  }

  /** When the queue is empty and the root is colored, the invariant says
      that Black means reachable and White means unreachable. */
  lemma BlackIffReachable<V(!new)>(c: BfsConfig<V>, K: set<V>, r: V, colors: map<V, GraphColor>)
    requires FlushInv(c, K, r, colors, []) && r in colors && colors[r] != White
    ensures forall v | v in K :: colors[v] == Black <==> Reachable(c, K, r, v)
    ensures forall v | v in K :: colors[v] == White <==> !Reachable(c, K, r, v)
  {
    forall v | v in K && Reachable(c, K, r, v)
      ensures colors[v] == Black
    {
      var p :| Path(c, K, p) && p[0] == r && p[|p| - 1] == v;
      WalkStaysBlack(c, colors, p);
    }
  }

  /** A vertex that is not White never becomes White again. */
  lemma {:induction false} ColoredStaysColored<V>(c: BfsConfig<V>, colors: map<V, GraphColor>, queue: seq<V>, log: seq<BfsEvent<V>>, x: V)
    requires x in colors && colors[x] != White
    ensures var s := Flush(c, colors, queue, log); x in s.colors && s.colors[x] != White
    decreases |Whites(colors)|, |queue|, 1, 0
  {
    if queue != [] {
      ScanColored(c, colors, queue[1..], queue[0], OutEdges(c, queue[0]), log + [ExamineVertex(queue[0])], x);
    }
  }

  lemma {:induction false} ScanColored<V>(c: BfsConfig<V>, colors: map<V, GraphColor>, queue: seq<V>, u: V, edges: seq<Edge<V>>, log: seq<BfsEvent<V>>, x: V)
    requires x in colors && colors[x] != White
    ensures var s := Scan(c, colors, queue, u, edges, log); x in s.colors && s.colors[x] != White
    decreases |Whites(colors)|, |queue| + 1, 0, |edges|
  {
    if edges == [] {
      Painted(colors, u, Black);
      ColoredStaysColored(c, colors[u := Black], queue, log + [FinishVertex(u)], x);
    } else {
      var e := edges[0];
      var v := e.target;
      if v in colors && colors[v] == White {
        Painted(colors, v, Gray);
        ScanColored(c, colors[v := Gray], queue + [v], u, edges[1..], log + [ExamineEdge(e)] + [TreeEdge(e)] + [DiscoverVertex(v)], x);
      } else if v in colors && colors[v] == Gray {
        ScanColored(c, colors, queue, u, edges[1..], log + [ExamineEdge(e)] + [NonTreeEdge(e)] + [GrayTarget(e)], x);
      } else {
        ScanColored(c, colors, queue, u, edges[1..], log + [ExamineEdge(e)] + [NonTreeEdge(e)] + [BlackTarget(e)], x);
      }
    }
  }

  /** `compute()` without a root and with an empty queue visits nothing: the
      colors stay as `initialize` left them. */
  lemma RunWithoutRoot<V>(c: BfsConfig<V>, vs: seq<V>)
    ensures Run(c, Initialized(vs), None, |vs|, [], Inits(vs)) == Bfs(Initialized(vs), [], Inits(vs))
  {
  }

  /** Every notification of `initialize` is an `initializeVertex`, of the
      vertices in order. */
  lemma {:induction false} InitsAre<V>(vs: seq<V>)
    ensures forall i | 0 <= i < |vs| :: Inits(vs)[i] == InitializeVertex(vs[i])
    decreases |vs|
  {
    if vs != [] {
      var front := vs[..|vs| - 1];
      InitsAre(front);
      assert Inits(vs) == Inits(front) + [InitializeVertex(vs[|vs| - 1])];
      forall i | 0 <= i < |vs| ensures Inits(vs)[i] == InitializeVertex(vs[i]) {
        if i < |front| {
          assert Inits(vs)[i] == Inits(front)[i];
        }
      }
    }
  }
}
