/**
  The example of src/lib/algorithms/topological-sort/topological-sort.spec.ts
  (lines 17-30): the vertices A to E, added in that order, and the edges
  A -> B, A -> C and B -> D sort to E, A, C, B, D.
 */
module TopologicalSortExample {
  import opened Wrappers
  import opened Edges
  import opened GraphColors
  import opened GraphSpec
  import opened Dictionaries
  import opened DfsSpec
  import opened DfsProperties
  import opened TopologicalSort
  import Graphs
  import GraphProperties

  /** The out-edge index of the test's graph. */
  function Letters(): Index<char> {
    OrderedMap(['A', 'B', 'C', 'D', 'E'],
      map['A' := [Edge('A', 'B'), Edge('A', 'C')], 'B' := [Edge('B', 'D')], 'C' := [], 'D' := [], 'E' := []])
  }

  /** The finishes of a log, read front to back. */
  function FinishedForward<V>(log: seq<DfsEvent<V>>): seq<V> {
    if log == [] then [] else (if log[0].FinishVertex? then [log[0].vertex] else []) + FinishedForward(log[1..])
  }

  lemma {:induction false} FinishedAppend<V>(a: seq<DfsEvent<V>>, b: seq<DfsEvent<V>>)
    ensures Finished(a + b) == Finished(a) + Finished(b)
    decreases |b|
  {
    if b == [] {
      assert a + b == a;
    } else {
      var front, x := b[..|b| - 1], b[|b| - 1];
      assert a + b == (a + front) + [x];
      assert b == front + [x];
      Snoc(a + front, x);
      Snoc(front, x);
      FinishedAppend(a, front);
    }
  }

  lemma {:induction false} FinishedIsForward<V>(log: seq<DfsEvent<V>>)
    ensures Finished(log) == FinishedForward(log)
    decreases |log|
  {
    if log != [] {
      assert log == [log[0]] + log[1..];
      FinishedAppend([log[0]], log[1..]);
      assert [log[0]][..0] == [];
      FinishedIsForward(log[1..]);
    }
  }

  /** What the sort's search reads of the test's graph. */
  ghost predicate Sorting(c: Config<char>) {
    && c.graph.values == map['A' := [Edge('A', 'B'), Edge('A', 'C')], 'B' := [Edge('B', 'D')], 'C' := [], 'D' := [], 'E' := []]
    && c.enumerate == Identity && c.maxDepth == None && c.backEdgeError == Some(NonAcyclicGraph)
  }

  /** The search from A: B, D, C and A finish in that order and E stays White. */
  lemma FromA(c: Config<char>, log: seq<DfsEvent<char>>)
    requires Sorting(c)
    ensures Visit(c, map['A' := White, 'B' := White, 'C' := White, 'D' := White, 'E' := White], 'A', log)
      == Search(map['A' := Black, 'B' := Black, 'C' := Black, 'D' := Black, 'E' := White],
                log + [DiscoverVertex('A'),
                       ExamineEdge(Edge('A', 'B')), TreeEdge(Edge('A', 'B')), DiscoverVertex('B'),
                       ExamineEdge(Edge('B', 'D')), TreeEdge(Edge('B', 'D')), DiscoverVertex('D'),
                       FinishVertex('D'), FinishVertex('B'),
                       ExamineEdge(Edge('A', 'C')), TreeEdge(Edge('A', 'C')), DiscoverVertex('C'),
                       FinishVertex('C'), FinishVertex('A')],
                Success(()))
  {
    var ab, ac := Edge('A', 'B'), Edge('A', 'C');
    var w := map['A' := White, 'B' := White, 'C' := White, 'D' := White, 'E' := White];
    var c1 := map['A' := Gray, 'B' := White, 'C' := White, 'D' := White, 'E' := White];
    var c2 := map['A' := Gray, 'B' := Gray, 'C' := White, 'D' := White, 'E' := White];
    var l1 := log + [DiscoverVertex('A')];
    var l2 := l1 + [ExamineEdge(ab)] + [TreeEdge(ab)] + [DiscoverVertex('B')];
    var fa := Frame('A', [ac], 0);
    assert OutEdges(c, 'A') == [ab, ac];
    assert w['A' := Gray] == c1 && c1['B' := Gray] == c2;
    assert [Frame('A', [ab, ac], 0)][..0] == [];
    assert [ab, ac][1..] == [ac] && [] + [fa] == [fa];
    FromB(c, l2);
    assert Explore(c, c1, [], 'A', [ab, ac], 0, l1) == Explore(c, c2, [fa], 'B', [Edge('B', 'D')], 1, l2);
  }

  /** The subtree of B: D and B finish. */
  lemma FromB(c: Config<char>, log: seq<DfsEvent<char>>)
    requires Sorting(c)
    ensures Explore(c, map['A' := Gray, 'B' := Gray, 'C' := White, 'D' := White, 'E' := White], [Frame('A', [Edge('A', 'C')], 0)], 'B', [Edge('B', 'D')], 1, log)
      == Search(map['A' := Black, 'B' := Black, 'C' := Black, 'D' := Black, 'E' := White],
                log + [ExamineEdge(Edge('B', 'D')), TreeEdge(Edge('B', 'D')), DiscoverVertex('D'),
                       FinishVertex('D'), FinishVertex('B'),
                       ExamineEdge(Edge('A', 'C')), TreeEdge(Edge('A', 'C')), DiscoverVertex('C'),
                       FinishVertex('C'), FinishVertex('A')],
                Success(()))
  {
    var bd := Edge('B', 'D');
    var c2 := map['A' := Gray, 'B' := Gray, 'C' := White, 'D' := White, 'E' := White];
    var c3 := map['A' := Gray, 'B' := Gray, 'C' := White, 'D' := Gray, 'E' := White];
    var c4 := map['A' := Gray, 'B' := Gray, 'C' := White, 'D' := Black, 'E' := White];
    var c5 := map['A' := Gray, 'B' := Black, 'C' := White, 'D' := Black, 'E' := White];
    var l3 := log + [ExamineEdge(bd)] + [TreeEdge(bd)] + [DiscoverVertex('D')];
    var l4 := l3 + [FinishVertex('D')];
    var l5 := l4 + [FinishVertex('B')];
    var fa, fb := Frame('A', [Edge('A', 'C')], 0), Frame('B', [], 1);
    assert OutEdges(c, 'D') == [];
    assert c2['D' := Gray] == c3 && c3['D' := Black] == c4 && c4['B' := Black] == c5;
    assert [bd][1..] == [] && [fa] + [fb] == [fa, fb] && [fa, fb][..1] == [fa] && [fa][..0] == [];
    FromC(c, l5);
    assert Explore(c, c4, [fa], 'B', [], 1, l4) == Frames(c, c5, [fa], l5);
    assert Frames(c, c4, [fa, fb], l4) == Explore(c, c4, [fa], 'B', [], 1, l4);
    assert Explore(c, c3, [fa, fb], 'D', [], 2, l3) == Frames(c, c4, [fa, fb], l4);
    assert Explore(c, c2, [fa], 'B', [bd], 1, log) == Explore(c, c3, [fa, fb], 'D', [], 2, l3);
  }

  /** Back at A: C and then A finish. */
  lemma FromC(c: Config<char>, log: seq<DfsEvent<char>>)
    requires Sorting(c)
    ensures Frames(c, map['A' := Gray, 'B' := Black, 'C' := White, 'D' := Black, 'E' := White], [Frame('A', [Edge('A', 'C')], 0)], log)
      == Search(map['A' := Black, 'B' := Black, 'C' := Black, 'D' := Black, 'E' := White],
                log + [ExamineEdge(Edge('A', 'C')), TreeEdge(Edge('A', 'C')), DiscoverVertex('C'),
                       FinishVertex('C'), FinishVertex('A')],
                Success(()))
  {
    var ac := Edge('A', 'C');
    var c5 := map['A' := Gray, 'B' := Black, 'C' := White, 'D' := Black, 'E' := White];
    var c6 := map['A' := Gray, 'B' := Black, 'C' := Gray, 'D' := Black, 'E' := White];
    var c7 := map['A' := Gray, 'B' := Black, 'C' := Black, 'D' := Black, 'E' := White];
    var c8 := map['A' := Black, 'B' := Black, 'C' := Black, 'D' := Black, 'E' := White];
    var l6 := log + [ExamineEdge(ac)] + [TreeEdge(ac)] + [DiscoverVertex('C')];
    var l7 := l6 + [FinishVertex('C')];
    var l8 := l7 + [FinishVertex('A')];
    var fa, fa' := Frame('A', [ac], 0), Frame('A', [], 0);
    assert OutEdges(c, 'C') == [];
    assert c5['C' := Gray] == c6 && c6['C' := Black] == c7 && c7['A' := Black] == c8;
    assert [ac][1..] == [] && [] + [fa'] == [fa'] && [fa'][..0] == [] && [fa][..0] == [];
    assert Explore(c, c7, [], 'A', [], 0, l7) == Frames(c, c8, [], l8);
    assert Frames(c, c7, [fa'], l7) == Explore(c, c7, [], 'A', [], 0, l7);
    assert Explore(c, c6, [fa'], 'C', [], 1, l6) == Frames(c, c7, [fa'], l7);
    assert Explore(c, c5, [], 'A', [ac], 0, log) == Explore(c, c6, [fa'], 'C', [], 1, l6);
    assert Frames(c, c5, [fa], log) == Explore(c, c5, [], 'A', [ac], 0, log);
  }

  /** E is still White: it is discovered and finished at once. */
  lemma FromE(c: Config<char>, log: seq<DfsEvent<char>>)
    requires Sorting(c)
    ensures Visit(c, map['A' := Black, 'B' := Black, 'C' := Black, 'D' := Black, 'E' := White], 'E', log)
      == Search(map['A' := Black, 'B' := Black, 'C' := Black, 'D' := Black, 'E' := Black],
                log + [DiscoverVertex('E'), FinishVertex('E')], Success(()))
  {
    var c8 := map['A' := Black, 'B' := Black, 'C' := Black, 'D' := Black, 'E' := White];
    var c9 := map['A' := Black, 'B' := Black, 'C' := Black, 'D' := Black, 'E' := Gray];
    var c10 := map['A' := Black, 'B' := Black, 'C' := Black, 'D' := Black, 'E' := Black];
    var fe := Frame('E', [], 0);
    assert OutEdges(c, 'E') == [];
    assert c8['E' := Gray] == c9 && c9['E' := Black] == c10 && [fe][..0] == [];
    assert Explore(c, c9, [], 'E', [], 0, log + [DiscoverVertex('E')])
      == Frames(c, c10, [], log + [DiscoverVertex('E')] + [FinishVertex('E')]);
    assert Frames(c, c9, [fe], log + [DiscoverVertex('E')]) == Explore(c, c9, [], 'E', [], 0, log + [DiscoverVertex('E')]);
  }

  /** The notifications of the test's search after `initialize`. */
  function Fired(): seq<DfsEvent<char>> {
    [StartVertex('A'), DiscoverVertex('A'),
     ExamineEdge(Edge('A', 'B')), TreeEdge(Edge('A', 'B')), DiscoverVertex('B'),
     ExamineEdge(Edge('B', 'D')), TreeEdge(Edge('B', 'D')), DiscoverVertex('D'),
     FinishVertex('D'), FinishVertex('B'),
     ExamineEdge(Edge('A', 'C')), TreeEdge(Edge('A', 'C')), DiscoverVertex('C'),
     FinishVertex('C'), FinishVertex('A'),
     StartVertex('E'), DiscoverVertex('E'), FinishVertex('E')]
  }

  /** The sweep over A to E: a tree from A, then one from E. */
  lemma Sweeping(c: Config<char>, log: seq<DfsEvent<char>>)
    requires Sorting(c)
    ensures Sweep(c, map['A' := White, 'B' := White, 'C' := White, 'D' := White, 'E' := White], ['A', 'B', 'C', 'D', 'E'], log)
      == Search(map['A' := Black, 'B' := Black, 'C' := Black, 'D' := Black, 'E' := Black], log + Fired(), Success(()))
  {
    var c8 := map['A' := Black, 'B' := Black, 'C' := Black, 'D' := Black, 'E' := White];
    var c10 := map['A' := Black, 'B' := Black, 'C' := Black, 'D' := Black, 'E' := Black];
    var la := log + [StartVertex('A')];
    FromA(c, la);
    var l1 := la + [DiscoverVertex('A'),
                    ExamineEdge(Edge('A', 'B')), TreeEdge(Edge('A', 'B')), DiscoverVertex('B'),
                    ExamineEdge(Edge('B', 'D')), TreeEdge(Edge('B', 'D')), DiscoverVertex('D'),
                    FinishVertex('D'), FinishVertex('B'),
                    ExamineEdge(Edge('A', 'C')), TreeEdge(Edge('A', 'C')), DiscoverVertex('C'),
                    FinishVertex('C'), FinishVertex('A')];
    SweepAfterA(c, l1);
    assert ['A', 'B', 'C', 'D', 'E'][1..] == ['B', 'C', 'D', 'E'];
  }

  /** The rest of the sweep: B, C and D are Black, E starts a tree. */
  lemma SweepAfterA(c: Config<char>, log: seq<DfsEvent<char>>)
    requires Sorting(c)
    ensures Sweep(c, map['A' := Black, 'B' := Black, 'C' := Black, 'D' := Black, 'E' := White], ['B', 'C', 'D', 'E'], log)
      == Search(map['A' := Black, 'B' := Black, 'C' := Black, 'D' := Black, 'E' := Black],
                log + [StartVertex('E'), DiscoverVertex('E'), FinishVertex('E')], Success(()))
  {
    var c8 := map['A' := Black, 'B' := Black, 'C' := Black, 'D' := Black, 'E' := White];
    var c10 := map['A' := Black, 'B' := Black, 'C' := Black, 'D' := Black, 'E' := Black];
    FromE(c, log + [StartVertex('E')]);
    var vs := ['B', 'C', 'D', 'E'];
    assert vs[1..] == ['C', 'D', 'E'] && vs[1..][1..] == ['D', 'E'] && vs[1..][1..][1..] == ['E'] && ['E'][1..] == [];
    assert Sweep(c, c8, ['E'], log) == Sweep(c, c10, [], log + [StartVertex('E')] + [DiscoverVertex('E'), FinishVertex('E')]);
  }

  /** The sort's search on the test's graph. */
  lemma LettersSearch(g: Index<char>, vs: seq<char>)
    requires g == Letters() && vs == ['A', 'B', 'C', 'D', 'E']
    ensures SortSearch(g, vs) == Search(map['A' := Black, 'B' := Black, 'C' := Black, 'D' := Black, 'E' := Black], Inits(vs) + Fired(), Success(()))
  {
    assert Initialized(vs) == map['A' := White, 'B' := White, 'C' := White, 'D' := White, 'E' := White];
    Sweeping(SortConfig(g), Inits(vs));
  }

  /** The order in which the test's search finishes its vertices, six
      notifications at a time. */
  lemma LettersFinish(log: seq<DfsEvent<char>>)
    requires Finished(log) == []
    ensures Finished(log + Fired()) == ['D', 'B', 'C', 'A', 'E']
  {
    var p1, p2, p3 := Fired()[..6], Fired()[6..12], Fired()[12..];
    assert Fired() == p1 + p2 + p3;
    assert log + Fired() == ((log + p1) + p2) + p3;
    FinishedAppend(log, p1);
    FinishedAppend(log + p1, p2);
    FinishedAppend((log + p1) + p2, p3);
    FirstPart(p1);
    SecondPart(p2);
    ThirdPart(p3);
  }

  lemma FirstPart(p: seq<DfsEvent<char>>)
    requires p == Fired()[..6]
    ensures Finished(p) == []
  {
    assert p == [StartVertex('A'), DiscoverVertex('A'), ExamineEdge(Edge('A', 'B')), TreeEdge(Edge('A', 'B')), DiscoverVertex('B'), ExamineEdge(Edge('B', 'D'))];
    assert FinishedForward([StartVertex('A'), DiscoverVertex('A'), ExamineEdge(Edge('A', 'B')), TreeEdge(Edge('A', 'B')), DiscoverVertex('B'), ExamineEdge(Edge('B', 'D'))]) == [];
    FinishedIsForward(p);
  }

  lemma SecondPart(p: seq<DfsEvent<char>>)
    requires p == Fired()[6..12]
    ensures Finished(p) == ['D', 'B']
  {
    assert p == [TreeEdge(Edge('B', 'D')), DiscoverVertex('D'), FinishVertex('D'), FinishVertex('B'), ExamineEdge(Edge('A', 'C')), TreeEdge(Edge('A', 'C'))];
    assert FinishedForward([TreeEdge(Edge('B', 'D')), DiscoverVertex('D'), FinishVertex('D'), FinishVertex('B'), ExamineEdge(Edge('A', 'C')), TreeEdge(Edge('A', 'C'))]) == ['D', 'B'];
    FinishedIsForward(p);
  }

  lemma ThirdPart(p: seq<DfsEvent<char>>)
    requires p == Fired()[12..]
    ensures Finished(p) == ['C', 'A', 'E']
  {
    assert p == [DiscoverVertex('C'), FinishVertex('C'), FinishVertex('A'), StartVertex('E'), DiscoverVertex('E'), FinishVertex('E')];
    assert FinishedForward([DiscoverVertex('C'), FinishVertex('C'), FinishVertex('A'), StartVertex('E'), DiscoverVertex('E'), FinishVertex('E')]) == ['C', 'A', 'E'];
    FinishedIsForward(p);
  }

  lemma ReverseLetters(f: seq<char>)
    requires f == ['D', 'B', 'C', 'A', 'E']
    ensures Reverse(f) == ['E', 'A', 'C', 'B', 'D']
  {
    var r := Reverse(f);
    assert r[0] == 'E' && r[1] == 'A' && r[2] == 'C' && r[3] == 'B' && r[4] == 'D';
  }

  /** The test's expectation: the search returns, and the sorted vertices
      are E, A, C, B, D. */
  lemma SortsLetters(g: Index<char>, vs: seq<char>)
    requires g == Letters() && vs == ['A', 'B', 'C', 'D', 'E']
    ensures SortSearch(g, vs).result == Success(())
    ensures Reverse(Finished(SortSearch(g, vs).log)) == ['E', 'A', 'C', 'B', 'D']
  {
    LettersSearch(g, vs);
    InitsQuiet(vs);
    LettersFinish(Inits(vs));
    ReverseLetters(Finished(SortSearch(g, vs).log));
  }

  /** Lines 27-29 of the test: a sort of a graph whose out-edge index is the
      test's returns with E, A, C, B, D. */
  method SortTestGraph(g: Graphs.BidirectionalGraph<char>) returns (sorted: seq<char>, r: Result<()>)
    requires g.vertexOutEdges.Valid() && g.vertexOutEdges.entries == Letters()
    ensures r == Success(()) && sorted == ['E', 'A', 'C', 'B', 'D']
  {
    var sort := new TopologicalSortAlgorithm(g, None);
    r := sort.Compute(None);
    sorted := sort.SortedVertices();
    SortsLetters(g.vertexOutEdges.entries, g.Vertices());
  }

  /** One `addEdge` of the test on a graph whose out-lists are `before`:
      an edge between two vertices, whose source has no edge to that target
      yet, is accepted and appended to the source's out-list. */
  lemma AddTestEdge(s: GraphState<char>, before: map<char, seq<Edge<char>>>, e: Edge<char>, after: seq<Edge<char>>)
      returns (t: GraphState<char>)
    requires s.Valid() && s.outIndex.values == before && e.source in before && e.target in s.inIndex.values
    requires after == before[e.source] + [e]
    requires forall i | 0 <= i < |before[e.source]| :: before[e.source][i].target != e.target
    ensures AddEdgeStep(s, false, e) == Outcome(t, [EdgeAdded(e)], Success(true))
    ensures t.Valid() && t.inIndex.values.Keys == s.inIndex.values.Keys
    ensures t.outIndex.keys == s.outIndex.keys && t.outIndex.values == before[e.source := after]
  {
    t := AddEdgeStep(s, false, e).after;
  }

  /** The first two `addEdge` calls of the test (lines 23-24) on the
      `beforeEach` graph are accepted and give A its two out-edges. */
  lemma EdgesFromA(s0: GraphState<char>, ab: Edge<char>, ac: Edge<char>) returns (s1: GraphState<char>, s2: GraphState<char>)
    requires s0.Valid() && s0.outIndex.values == Graphs.NoEdges && s0.inIndex.values == Graphs.NoEdges
    requires ab == Edge('A', 'B') && ac == Edge('A', 'C')
    ensures AddEdgeStep(s0, false, ab) == Outcome(s1, [EdgeAdded(ab)], Success(true))
    ensures AddEdgeStep(s1, false, ac) == Outcome(s2, [EdgeAdded(ac)], Success(true))
    ensures s2.Valid() && s2.inIndex.values.Keys == Graphs.NoEdges.Keys && s2.outIndex.keys == s0.outIndex.keys
    ensures s2.outIndex.values == Graphs.NoEdges['A' := [ab, ac]]
  {
    assert Graphs.NoEdges['A'] + [ab] == [ab];
    s1 := AddTestEdge(s0, Graphs.NoEdges, ab, [ab]);
    assert [ab] + [ac] == [ab, ac];
    s2 := AddTestEdge(s1, Graphs.NoEdges['A' := [ab]], ac, [ab, ac]);
  }

  /** The test's out-lists are the empty ones with A's and B's edges added. */
  lemma LettersFromNoEdges()
    ensures Graphs.NoEdges['A' := [Edge('A', 'B'), Edge('A', 'C')]]['B' := [Edge('B', 'D')]] == Letters().values
  {
  }

  /** The third `addEdge` call of the test (line 25) is accepted and leaves
      the test's out-edge index. */
  lemma EdgeFromB(s2: GraphState<char>, bd: Edge<char>) returns (s3: GraphState<char>)
    requires s2.Valid() && s2.inIndex.values.Keys == Graphs.NoEdges.Keys && s2.outIndex.keys == ['A', 'B', 'C', 'D', 'E']
    requires s2.outIndex.values == Graphs.NoEdges['A' := [Edge('A', 'B'), Edge('A', 'C')]]
    requires bd == Edge('B', 'D')
    ensures AddEdgeStep(s2, false, bd) == Outcome(s3, [EdgeAdded(bd)], Success(true))
    ensures s3.outIndex == Letters()
  {
    var m2 := Graphs.NoEdges['A' := [Edge('A', 'B'), Edge('A', 'C')]];
    assert m2['B'] + [bd] == [bd];
    s3 := AddTestEdge(s2, m2, bd, [bd]);
    LettersFromNoEdges();
  }

  /** The whole test: the `beforeEach` graph of A to E (lines 17-20), the
      three `addEdge` calls (lines 23-25), each accepted, and the sort (lines
      27-29), which returns with E, A, C, B, D. */
  method SortTest() returns (added: seq<Result<bool>>, sorted: seq<char>, r: Result<()>)
    ensures added == [Success(true), Success(true), Success(true)]
    ensures r == Success(()) && sorted == ['E', 'A', 'C', 'B', 'D']
  {
    var g := Graphs.FiveVertices();
    ghost var s1, s2 := EdgesFromA(g.State(), Edge('A', 'B'), Edge('A', 'C'));
    ghost var s3 := EdgeFromB(s2, Edge('B', 'D'));
    var added1 := g.AddEdge(Edge('A', 'B'));
    var added2 := g.AddEdge(Edge('A', 'C'));
    var added3 := g.AddEdge(Edge('B', 'D'));
    added := [added1, added2, added3];
    sorted, r := SortTestGraph(g);
  }
}
