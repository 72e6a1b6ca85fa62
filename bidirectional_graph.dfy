/**
  `BidirectionalGraph<TVertex, TEdge>` (src/lib/bidirectional-graph.ts): a
  directed graph that keeps, for every vertex, the list of its out-edges and
  the list of its in-edges, in two `VertexEdgeDictionary` objects, and a
  running `_edgeCount`. The subjects it notifies are one ghost event log.

  Every mutator is proved to produce exactly the outcome that `GraphSpec`
  defines for it (new state, events, result or exception); `GraphProperties`
  proves what those outcomes keep.
 */
module Graphs {
  import opened Wrappers
  import opened Edges
  import opened Dictionaries
  import opened GraphSpec
  import GraphProperties
  import EdgeLists
  import Lists
  import EqualityComparers

  class BidirectionalGraph<V(==)> {
    const isDirected: bool
    const allowParallelEdges: bool
    /** Only the default of -1 is modelled: new edge lists are then empty. */
    const edgeCapacity: int
    const vertexComparer: EqualityComparers.EqualityComparer
    const vertexOutEdges: VertexEdgeDictionary<V, seq<Edge<V>>>
    const vertexInEdges: VertexEdgeDictionary<V, seq<Edge<V>>>
    var edgeCount: int
    /** Everything `vertexAdded`, `vertexRemoved`, `edgeAdded`, `edgeRemoved`
        and `cleared` have emitted, oldest first. */
    ghost var events: seq<GraphEvent<V>>

    ghost predicate Valid()
      reads this, vertexOutEdges, vertexInEdges
    {
      && vertexOutEdges != vertexInEdges
      && vertexOutEdges.Valid() && vertexInEdges.Valid()
      && isDirected && edgeCapacity == -1
    }

    function State(): (s: GraphState<V>)
      reads this, vertexOutEdges, vertexInEdges
    {
      GraphState(vertexOutEdges.entries, vertexInEdges.entries, edgeCount)
    }

    constructor (allowParallelEdges: bool, vertexCapacity: int)
      ensures Valid() && fresh(vertexOutEdges) && fresh(vertexInEdges)
      ensures this.allowParallelEdges == allowParallelEdges
      ensures State() == GraphState(Empty(), Empty(), 0) && events == []
      ensures GraphProperties.Consistent(State()) && GraphProperties.Closed(State())
    {
      isDirected := true;
      this.allowParallelEdges := allowParallelEdges;
      vertexComparer := EqualityComparers.EqualityComparer;
      vertexInEdges := new VertexEdgeDictionary(vertexCapacity);
      vertexOutEdges := new VertexEdgeDictionary(vertexCapacity);
      edgeCapacity := -1;
      edgeCount := 0;
      events := [];
    }

    // ------------------------------------------------------------ queries

    function ContainsVertex(v: V): (b: bool)
      reads this, vertexOutEdges
      ensures b <==> v in vertexOutEdges.entries.values
    {
      vertexOutEdges.ContainsKey(v)
    }

    /** `vertices`: the vertices in insertion order, each once. */
    function Vertices(): (r: seq<V>)
      reads this, vertexOutEdges
      requires vertexOutEdges.Valid()
      ensures Distinct(r)
      ensures forall v | v in r :: ContainsVertex(v)
      ensures forall v | v in vertexOutEdges.entries.values :: v in r
    {
      vertexOutEdges.entries.keys
    }

    function VertexCount(): (n: nat)
      reads this, vertexOutEdges
      requires vertexOutEdges.Valid()
      ensures n == |Vertices()|
    {
      SizeIsKeyCount(vertexOutEdges.entries);
      vertexOutEdges.Count()
    }

    function IsVerticesEmpty(): (b: bool)
      reads this, vertexOutEdges
      requires vertexOutEdges.Valid()
      ensures b <==> Vertices() == []
    {
      VertexCount() == 0
    }

    /** `isEdgesEmpty` compares `edgeCount` with 0; on a consistent graph
        that is the same as having no edge at all. */
    function IsEdgesEmpty(): (b: bool)
      reads this, vertexOutEdges, vertexInEdges
      requires Valid()
      ensures GraphProperties.Consistent(State()) ==>
        (b <==> Flatten(vertexOutEdges.entries.keys, vertexOutEdges.entries.values) == [])
    {
      assert GraphProperties.Consistent(State()) ==>
          |Flatten(vertexOutEdges.entries.keys, vertexOutEdges.entries.values)| == edgeCount by {
        if GraphProperties.Consistent(State()) {
          GraphProperties.EdgesMatchCount(State());
        }
      }
      edgeCount == 0
    }

    /** `outEdges(v)`: the out-list of `v`, empty for an absent vertex. */
    function OutEdges(v: V): (es: seq<Edge<V>>)
      reads this, vertexOutEdges
      ensures ContainsVertex(v) ==> es == vertexOutEdges.entries.values[v]
      ensures !ContainsVertex(v) ==> es == []
    {
      match vertexOutEdges.TryGetValue(v)
      case Some(l) => l
      case None => []
    }

    /** `inEdges(v)`: the in-list of `v`, empty for an absent vertex. */
    function InEdges(v: V): (es: seq<Edge<V>>)
      reads this, vertexInEdges
      ensures v in vertexInEdges.entries.values ==> es == vertexInEdges.entries.values[v]
      ensures v !in vertexInEdges.entries.values ==> es == []
    {
      match vertexInEdges.TryGetValue(v)
      case Some(l) => l
      case None => []
    }

    function OutDegree(v: V): (n: nat)
      reads this, vertexOutEdges
      ensures n == |Lookup(vertexOutEdges.entries, v)|
    {
      |OutEdges(v)|
    }

    function InDegree(v: V): (n: nat)
      reads this, vertexInEdges
      ensures n == |Lookup(vertexInEdges.entries, v)|
    {
      |InEdges(v)|
    }

    /** `degree`: in-degree plus out-degree; 0 for a vertex not in a shaped
        graph. */
    function Degree(v: V): (n: nat)
      reads this, vertexOutEdges, vertexInEdges
      ensures n == |Lookup(vertexInEdges.entries, v)| + |Lookup(vertexOutEdges.entries, v)|
      ensures GraphProperties.Shaped(State()) && !ContainsVertex(v) ==> n == 0
    {
      InDegree(v) + OutDegree(v)
    }

    /** `isOutEdgesEmpty`: true for an absent vertex, since its out-degree is 0. */
    function IsOutEdgesEmpty(v: V): (b: bool)
      reads this, vertexOutEdges
      ensures b <==> !ContainsVertex(v) || vertexOutEdges.entries.values[v] == []
    {
      OutDegree(v) == 0
    }

    /** `isInEdgesEmpty`: `undefined === 0` makes it false for an absent vertex. */
    function IsInEdgesEmpty(v: V): (b: bool)
      reads this, vertexInEdges
      ensures b <==> v in vertexInEdges.entries.values && vertexInEdges.entries.values[v] == []
    {
      match vertexInEdges.TryGetValue(v)
      case Some(l) => |l| == 0
      case None => false
    }

    function TryGetOutEdges(v: V): (r: Option<seq<Edge<V>>>)
      reads this, vertexOutEdges
      ensures r.Some? <==> ContainsVertex(v)
      ensures r.Some? ==> r.value == vertexOutEdges.entries.values[v]
    {
      vertexOutEdges.TryGetValue(v)
    }

    function TryGetInEdges(v: V): (r: Option<seq<Edge<V>>>)
      reads this, vertexInEdges
      ensures r.Some? <==> v in vertexInEdges.entries.values
      ensures r.Some? ==> r.value == vertexInEdges.entries.values[v]
    {
      vertexInEdges.TryGetValue(v)
    }

    /** `outEdge(v, i)`: the `i`-th out-edge, `undefined` out of range. */
    function OutEdge(v: V, index: int): (r: Option<Edge<V>>)
      reads this, vertexOutEdges
      ensures r.Some? <==> 0 <= index < OutDegree(v)
      ensures r.Some? ==> r.value == vertexOutEdges.entries.values[v][index]
    {
      var es := OutEdges(v);
      if 0 <= index < |es| then Some(es[index]) else None
    }

    /** `inEdge(v, i)`: the `i`-th in-edge, `undefined` out of range. */
    function InEdge(v: V, index: int): (r: Option<Edge<V>>)
      reads this, vertexInEdges
      ensures r.Some? <==> 0 <= index < InDegree(v)
      ensures r.Some? ==> r.value == vertexInEdges.entries.values[v][index]
    {
      var es := InEdges(v);
      if 0 <= index < |es| then Some(es[index]) else None
    }

    /** `containsEdge`: the edge is in its source's out-list (`List.contains`). */
    function ContainsEdge(e: Edge<V>): (b: bool)
      reads this, vertexOutEdges
      ensures b <==> ContainsVertex(e.source) && e in vertexOutEdges.entries.values[e.source]
    {
      match TryGetOutEdges(e.source)
      case Some(l) => Lists.IndexOf(l, e) > -1
      case None => false
    }

    /** `containsVertexEdge`: a linear scan of the source's out-list. */
    method ContainsVertexEdge(source: V, target: V) returns (b: bool)
      requires Valid()
      ensures b == HasVertexEdge(State().outIndex, source, target)
    {
      var result := TryGetOutEdges(source);
      if result.None? {
        return false;
      }
      var es := result.value;
      for i := 0 to |es|
        invariant forall k | 0 <= k < i :: es[k].target != target
      {
        if vertexComparer.Equals(es[i].target, target) {
          return true;
        }
      }
      return false;
    }

    /** `tryGetVertexEdge`: the first out-edge of `source` that ends at
        `target`; failure for an absent source or when there is none. */
    method TryGetVertexEdge(source: V, target: V) returns (r: Option<Edge<V>>)
      requires Valid()
      ensures r == if ContainsVertex(source) then FirstTo(vertexOutEdges.entries.values[source], target) else None
    {
      var result := TryGetOutEdges(source);
      if result.Some? {
        var es := result.value;
        for i := 0 to |es|
          invariant forall k | 0 <= k < i :: es[k].target != target
        {
          if vertexComparer.Equals(es[i].target, target) {
            ghost var f := FirstTo(es, target);
            assert f.Some?;
            ghost var j :| 0 <= j < |es| && es[j] == f.value && f.value.target == target
              && forall k | 0 <= k < j :: es[k].target != target;
            assert j == i;
            return Some(es[i]);
          }
        }
      }
      return None;
    }

    /** `tryGetVertexEdges`: all out-edges of `source` that end at `target`,
        in order; failure only for an absent source. */
    method TryGetVertexEdges(source: V, target: V) returns (r: Option<seq<Edge<V>>>)
      requires Valid()
      ensures r.Some? <==> ContainsVertex(source)
      ensures r.Some? ==> r.value == EdgesTo(vertexOutEdges.entries.values[source], target)
      ensures r.Some? ==> forall i | 0 <= i < |r.value| ::
        r.value[i].target == target && r.value[i] in vertexOutEdges.entries.values[source]
    {
      var result := TryGetOutEdges(source);
      if result.None? {
        return None;
      }
      var es := result.value;
      var lst: seq<Edge<V>> := [];
      for i := 0 to |es|
        invariant lst == EdgesTo(es[..i], target)
      {
        FilterSnoc(es[..i], es[i], (e: Edge<V>) => e.target == target);
        assert es[..i + 1] == es[..i] + [es[i]];
        if vertexComparer.Equals(es[i].target, target) {
          lst := lst + [es[i]];
        }
      }
      assert es[..|es|] == es;
      return Some(lst);
    }

    /** `edges`: every out-list, in vertex order, concatenated. */
    method Edges() returns (lst: seq<Edge<V>>)
      requires Valid()
      ensures lst == Flatten(vertexOutEdges.entries.keys, vertexOutEdges.entries.values)
    {
      lst := [];
      var keys := vertexOutEdges.entries.keys;
      var values := vertexOutEdges.entries.values;
      assert keys[0..] == keys;
      Appended([], [], Flatten(keys, values));
      for i := 0 to |keys|
        invariant lst + Flatten(keys[i..], values) == Flatten(keys, values)
      {
        assert keys[i..][1..] == keys[i + 1..];
        var es := values[keys[i]];
        ghost var rest := Flatten(keys[i + 1..], values);
        assert es[0..] == es;
        Appended(lst, es, rest);
        for j := 0 to |es|
          invariant lst + (es[j..] + rest) == Flatten(keys, values)
        {
          assert es[j..] == [es[j]] + es[j + 1..];
          Appended(lst, [es[j]], es[j + 1..] + rest);
          Appended([es[j]], es[j + 1..], rest);
          lst := lst + [es[j]];
        }
        assert es[|es|..] == [];
        Appended(lst, [], rest);
      }
      assert keys[|keys|..] == [];
      Appended(lst, [], []);
    }

    // ------------------------------------------------------------ mutators

    /** A new, empty edge list: `new EdgeList(this._edgeCapacity)`. */
    function NewEdgeList(): (l: seq<Edge<V>>)
      reads this
      requires edgeCapacity < 0
      ensures l == []
    {
      EdgeLists.ConstructBranches<Edge<V>>(EdgeLists.Capacity(edgeCapacity));
      EdgeLists.Present(EdgeLists.Construct(EdgeLists.Capacity(edgeCapacity)))
    }

    method AddVertex(v: V) returns (added: bool)
      requires Valid()
      modifies this, vertexOutEdges, vertexInEdges
      ensures Valid()
      ensures var o := AddVertexStep(old(State()), v);
        State() == o.after && events == old(events) + o.fired && Success(added) == o.result
    {
      if ContainsVertex(v) {
        return false;
      }
      var outAdded := vertexOutEdges.Add(v, NewEdgeList());
      var inAdded := vertexInEdges.Add(v, NewEdgeList());
      events := events + [VertexAdded(v)];
      return true;
    }

    method AddVertexRange(vs: seq<V>) returns (count: int)
      requires Valid()
      modifies this, vertexOutEdges, vertexInEdges
      ensures Valid()
      ensures var o := AddVertexRangeStep(old(State()), vs);
        State() == o.after && events == old(events) + o.fired && Success(count) == o.result
    {
      ghost var s0 := State();
      count := 0;
      ghost var fired: seq<GraphEvent<V>> := [];
      assert vs[0..] == vs;
      Appended(old(events), [], AddVertexRangeStep(s0, vs).fired);
      for i := 0 to |vs|
        invariant Valid()
        invariant events == old(events) + fired
        invariant AddVertexRangeStep(s0, vs) == ResumeCount(count, fired, AddVertexRangeStep(State(), vs[i..]))
      {
        ghost var s := State();
        ghost var first := AddVertexStep(s, vs[i]);
        ghost var rest := AddVertexRangeStep(first.after, vs[i + 1..]);
        assert vs[i..][1..] == vs[i + 1..];
        assert AddVertexRangeStep(s, vs[i..]) == Counted(first, rest);
        ResumeCounted(count, fired, first, rest);
        Appended(old(events), fired, first.fired);
        var added := AddVertex(vs[i]);
        fired := fired + first.fired;
        if added {
          count := count + 1;
        }
      }
      assert vs[|vs|..] == [];
      Appended(old(events), fired, []);
    }

    /** `addEdge`; see `AddEdgeStep` for the order of its effects. */
    method AddEdge(e: Edge<V>) returns (r: Result<bool>)
      requires Valid()
      modifies this, vertexOutEdges, vertexInEdges
      ensures Valid()
      ensures var o := AddEdgeStep(old(State()), allowParallelEdges, e);
        State() == o.after && events == old(events) + o.fired && r == o.result
    {
      if !allowParallelEdges {
        var found := ContainsVertexEdge(e.source, e.target);
        if found {
          return Success(false);
        }
      }
      var outs := vertexOutEdges.TryGetValue(e.source);
      if outs.None? {
        return Failure(NullDereference);
      }
      vertexOutEdges.Set(e.source, outs.value + [e]);
      var ins := vertexInEdges.TryGetValue(e.target);
      if ins.None? {
        return Failure(NullDereference);
      }
      vertexInEdges.Set(e.target, ins.value + [e]);
      edgeCount := edgeCount + 1;
      events := events + [EdgeAdded(e)];
      return Success(true);
    }

    method AddEdgeRange(es: seq<Edge<V>>) returns (r: Result<int>)
      requires Valid()
      modifies this, vertexOutEdges, vertexInEdges
      ensures Valid()
      ensures var o := AddEdgeRangeStep(old(State()), allowParallelEdges, es);
        State() == o.after && events == old(events) + o.fired && r == o.result
    {
      ghost var s0 := State();
      var count := 0;
      ghost var fired: seq<GraphEvent<V>> := [];
      assert es[0..] == es;
      Appended(old(events), [], AddEdgeRangeStep(s0, allowParallelEdges, es).fired);
      for i := 0 to |es|
        invariant Valid()
        invariant events == old(events) + fired
        invariant AddEdgeRangeStep(s0, allowParallelEdges, es)
          == ResumeCount(count, fired, AddEdgeRangeStep(State(), allowParallelEdges, es[i..]))
      {
        ghost var s := State();
        ghost var first := AddEdgeStep(s, allowParallelEdges, es[i]);
        ghost var rest := AddEdgeRangeStep(first.after, allowParallelEdges, es[i + 1..]);
        assert es[i..][1..] == es[i + 1..];
        assert AddEdgeRangeStep(s, allowParallelEdges, es[i..]) == Counted(first, rest);
        ResumeCounted(count, fired, first, rest);
        Appended(old(events), fired, first.fired);
        var added := AddEdge(es[i]);
        fired := fired + first.fired;
        if added.Failure? {
          return Failure(added.error);
        }
        if added.value {
          count := count + 1;
        }
      }
      assert es[|es|..] == [];
      Appended(old(events), fired, []);
      return Success(count);
    }

    method AddVerticesAndEdge(e: Edge<V>) returns (r: Result<bool>)
      requires Valid()
      modifies this, vertexOutEdges, vertexInEdges
      ensures Valid()
      ensures var o := AddVerticesAndEdgeStep(old(State()), allowParallelEdges, e);
        State() == o.after && events == old(events) + o.fired && r == o.result
    {
      ghost var a := AddVertexStep(State(), e.source);
      ghost var b := AddVertexStep(a.after, e.target);
      ghost var c := AddEdgeStep(b.after, allowParallelEdges, e);
      Appended(old(events), a.fired, b.fired);
      Appended(old(events), a.fired + b.fired, c.fired);
      var added := AddVertex(e.source);
      added := AddVertex(e.target);
      r := AddEdge(e);
    }

    method AddVerticesAndEdgeRange(es: seq<Edge<V>>) returns (r: Result<int>)
      requires Valid()
      modifies this, vertexOutEdges, vertexInEdges
      ensures Valid()
      ensures var o := AddVerticesAndEdgeRangeStep(old(State()), allowParallelEdges, es);
        State() == o.after && events == old(events) + o.fired && r == o.result
    {
      ghost var s0 := State();
      var count := 0;
      ghost var fired: seq<GraphEvent<V>> := [];
      assert es[0..] == es;
      Appended(old(events), [], AddVerticesAndEdgeRangeStep(s0, allowParallelEdges, es).fired);
      for i := 0 to |es|
        invariant Valid()
        invariant events == old(events) + fired
        invariant AddVerticesAndEdgeRangeStep(s0, allowParallelEdges, es)
          == ResumeCount(count, fired, AddVerticesAndEdgeRangeStep(State(), allowParallelEdges, es[i..]))
      {
        ghost var s := State();
        ghost var first := AddVerticesAndEdgeStep(s, allowParallelEdges, es[i]);
        ghost var rest := AddVerticesAndEdgeRangeStep(first.after, allowParallelEdges, es[i + 1..]);
        assert es[i..][1..] == es[i + 1..];
        assert AddVerticesAndEdgeRangeStep(s, allowParallelEdges, es[i..]) == Counted(first, rest);
        ResumeCounted(count, fired, first, rest);
        Appended(old(events), fired, first.fired);
        var added := AddVerticesAndEdge(es[i]);
        fired := fired + first.fired;
        if added.Failure? {
          return Failure(added.error);
        }
        if added.value {
          count := count + 1;
        }
      }
      assert es[|es|..] == [];
      Appended(old(events), fired, []);
      return Success(count);
    }

    /** The first two loops of `removeVertex`: the in-list of every
        out-edge's target and the out-list of every in-edge's source are
        looked up (a `TypeError` if one is missing; `List.remove` changes
        nothing and answers false), and the out-edges are collected. */
    method EdgesToRemove(v: V) returns (r: Result<seq<Edge<V>>>)
      requires Valid() && ContainsVertex(v)
      ensures var s := State();
        r == if AllTargetsIn(s.outIndex.values[v], s.inIndex) && AllSourcesIn(Lookup(s.inIndex, v), s.outIndex)
             then Success(s.outIndex.values[v]) else Failure(NullDereference)
    {
      var outs := OutEdges(v);
      var edgesToRemove: seq<Edge<V>> := [];
      for i := 0 to |outs|
        invariant edgesToRemove == outs[..i]
        invariant forall k | 0 <= k < i :: outs[k].target in vertexInEdges.entries.values
      {
        if !vertexInEdges.ContainsKey(outs[i].target) {
          return Failure(NullDereference);
        }
        assert outs[..i + 1] == outs[..i] + [outs[i]];
        edgesToRemove := edgesToRemove + [outs[i]];
      }
      var ins := InEdges(v);
      for i := 0 to |ins|
        invariant forall k | 0 <= k < i :: ins[k].source in vertexOutEdges.entries.values
      {
        if !vertexOutEdges.ContainsKey(ins[i].source) {
          return Failure(NullDereference);
        }
      }
      assert outs[..|outs|] == outs;
      return Success(edgesToRemove);
    }

    /** The end of `removeVertex`: the collected edges and then the vertex
        are reported, `v` leaves both indices and `edgeCount` drops by the
        number of collected edges. */
    method DropVertex(v: V, edgesToRemove: seq<Edge<V>>)
      requires Valid()
      modifies this, vertexOutEdges, vertexInEdges
      ensures Valid()
      ensures State() == GraphState(Delete(old(State()).outIndex, v), Delete(old(State()).inIndex, v),
                                    old(edgeCount) - |edgesToRemove|)
      ensures events == old(events) + (EdgesRemoved(edgesToRemove) + [VertexRemoved(v)])
    {
      var outRemoved := vertexOutEdges.Remove(v);
      var inRemoved := vertexInEdges.Remove(v);
      edgeCount := edgeCount - |edgesToRemove|;
      events := events + (EdgesRemoved(edgesToRemove) + [VertexRemoved(v)]);
    }

    /** `removeVertex`: false for an absent vertex; otherwise `EdgesToRemove`
        and, if that did not throw, `DropVertex`. */
    method RemoveVertex(v: V) returns (r: Result<bool>)
      requires Valid()
      modifies this, vertexOutEdges, vertexInEdges
      ensures Valid()
      ensures var o := RemoveVertexStep(old(State()), v);
        State() == o.after && events == old(events) + o.fired && r == o.result
    {
      if !ContainsVertex(v) {
        r := Success(false);
      } else {
        var collected := EdgesToRemove(v);
        if collected.Failure? {
          r := Failure(collected.error);
        } else {
          DropVertex(v, collected.value);
          r := Success(true);
        }
      }
    }

    /** `removeVertexIf`: collects the matching vertices first, then removes
        them one by one; answers how many were collected. */
    method RemoveVertexIf(p: V -> bool) returns (r: Result<int>)
      requires Valid()
      modifies this, vertexOutEdges, vertexInEdges
      ensures Valid()
      ensures var o := RemoveVertexIfStep(old(State()), p);
        State() == o.after && events == old(events) + o.fired && r == o.result
    {
      var vertices := CollectIf(Vertices(), p);
      ghost var s0 := State();
      ghost var fired: seq<GraphEvent<V>> := [];
      assert vertices[0..] == vertices;
      Appended(old(events), [], RemoveVerticesStep(s0, vertices).fired);
      for i := 0 to |vertices|
        invariant Valid()
        invariant events == old(events) + fired
        invariant RemoveVerticesStep(s0, vertices) == Resume(fired, RemoveVerticesStep(State(), vertices[i..]))
      {
        ghost var s := State();
        ghost var first := RemoveVertexStep(s, vertices[i]);
        ghost var rest := RemoveVerticesStep(first.after, vertices[i + 1..]);
        assert vertices[i..][1..] == vertices[i + 1..];
        assert RemoveVerticesStep(s, vertices[i..]) == Then(first, rest);
        ResumeThen(fired, first, rest);
        Appended(old(events), fired, first.fired);
        var removed := RemoveVertex(vertices[i]);
        fired := fired + first.fired;
        if removed.Failure? {
          return Failure(removed.error);
        }
      }
      assert vertices[|vertices|..] == [];
      Appended(old(events), fired, []);
      return Success(|vertices|);
    }

    /** `removeEdge`: `List.remove` answers false, so it changes nothing; it
        throws for an absent source and answers false otherwise. */
    method RemoveEdge(e: Edge<V>) returns (r: Result<bool>)
      requires Valid()
      ensures r == RemoveEdgeStep(State(), e).result
      ensures r.Failure? <==> !ContainsVertex(e.source)
      ensures r.Success? ==> !r.value
    {
      var outs := vertexOutEdges.TryGetValue(e.source);
      if outs.None? {
        return Failure(NullDereference);
      }
      return Success(false);
    }

    /** `removeEdge` on each of `es`, stopping at the first exception. */
    method RemoveEdges(es: seq<Edge<V>>) returns (r: Result<()>)
      requires Valid()
      ensures r == RemoveEdgesStep(State(), es).result
    {
      GraphProperties.RemoveEdgesChangeNothing(State(), es);
      for i := 0 to |es|
        invariant forall k | 0 <= k < i :: es[k].source in vertexOutEdges.entries.values
      {
        var removed := RemoveEdge(es[i]);
        if removed.Failure? {
          return Failure(removed.error);
        }
      }
      assert forall k | 0 <= k < |es| :: es[k].source in State().outIndex.values;
      return Success(());
    }

    /** `removeOutEdgeIf`: collects the matching out-edges of `v`, removes each
        and answers how many were collected. */
    method RemoveOutEdgeIf(v: V, p: Edge<V> -> bool) returns (r: Result<int>)
      requires Valid()
      ensures r == RemoveOutEdgeIfStep(State(), v, p).result
    {
      var edges := CollectIf(OutEdges(v), p);
      var removed := RemoveEdges(edges);
      if removed.Failure? {
        return Failure(removed.error);
      }
      return Success(|edges|);
    }

    /** `removeEdgeIf`: the same over all edges. */
    method RemoveEdgeIf(p: Edge<V> -> bool) returns (r: Result<int>)
      requires Valid()
      ensures r == RemoveEdgeIfStep(State(), p).result
    {
      var all := Edges();
      var edges := CollectIf(all, p);
      var removed := RemoveEdges(edges);
      if removed.Failure? {
        return Failure(removed.error);
      }
      return Success(|edges|);
    }

    /** `removeInEdgeIf` as written: it collects from `outEdges(v)`, so it
        does what `removeOutEdgeIf` does. */
    method RemoveInEdgeIf(v: V, p: Edge<V> -> bool) returns (r: Result<int>)
      requires Valid()
      ensures r == RemoveOutEdgeIfStep(State(), v, p).result
    {
      var edges := CollectIf(OutEdges(v), p);
      var removed := RemoveEdges(edges);
      if removed.Failure? {
        return Failure(removed.error);
      }
      return Success(|edges|);
    }

    /** The collecting loop of the `*If` removals. */
    static method CollectIf<T>(s: seq<T>, p: T -> bool) returns (r: seq<T>)
      ensures r == Filter(s, p)
    {
      r := [];
      for i := 0 to |s|
        invariant r == Filter(s[..i], p)
      {
        FilterSnoc(s[..i], s[i], p);
        assert s[..i + 1] == s[..i] + [s[i]];
        if p(s[i]) {
          r := r + [s[i]];
        }
      }
      assert s[..|s|] == s;
    }

    /** `clearOutEdges`: looks up the in-list of every target, then lowers
        `edgeCount` by the out-degree; `List.clear` keeps the list. */
    method ClearOutEdges(v: V) returns (r: Result<()>)
      requires Valid()
      modifies this
      ensures Valid()
      ensures var o := ClearOutEdgesStep(old(State()), v);
        State() == o.after && events == old(events) + o.fired && r == o.result
    {
      var outs := vertexOutEdges.TryGetValue(v);
      if outs.None? {
        return Failure(NullDereference);
      }
      var es := outs.value;
      for i := 0 to |es|
        invariant forall k | 0 <= k < i :: es[k].target in vertexInEdges.entries.values
      {
        if !vertexInEdges.ContainsKey(es[i].target) {
          return Failure(NullDereference);
        }
      }
      edgeCount := edgeCount - |es|;
      return Success(());
    }

    /** `clearInEdges`: reports every in-edge once its source's out-list has
        been looked up, then lowers `edgeCount` by the in-degree. */
    method ClearInEdges(v: V) returns (r: Result<()>)
      requires Valid()
      modifies this
      ensures Valid()
      ensures var o := ClearInEdgesStep(old(State()), v);
        State() == o.after && events == old(events) + o.fired && r == o.result
    {
      var ins := vertexInEdges.TryGetValue(v);
      if ins.None? {
        return Failure(NullDereference);
      }
      var es := ins.value;
      for i := 0 to |es|
        invariant State() == old(State())
        invariant events == old(events) + EdgesRemoved(es[..i])
        invariant forall k | 0 <= k < i :: es[k].source in vertexOutEdges.entries.values
      {
        if !vertexOutEdges.ContainsKey(es[i].source) {
          assert SourcesPresent(es, vertexOutEdges.entries) == i;
          return Failure(NullDereference);
        }
        assert es[..i + 1] == es[..i] + [es[i]];
        assert EdgesRemoved(es[..i + 1]) == EdgesRemoved(es[..i]) + [EdgeRemoved(es[i])];
        Appended(old(events), EdgesRemoved(es[..i]), [EdgeRemoved(es[i])]);
        events := events + [EdgeRemoved(es[i])];
      }
      assert es[..|es|] == es;
      edgeCount := edgeCount - |es|;
      return Success(());
    }

    method ClearEdges(v: V) returns (r: Result<()>)
      requires Valid()
      modifies this
      ensures Valid()
      ensures var o := ClearEdgesStep(old(State()), v);
        State() == o.after && events == old(events) + o.fired && r == o.result
    {
      r := ClearOutEdges(v);
      if r.Failure? {
        return;
      }
      r := ClearInEdges(v);
    }

    method Clear()
      requires Valid()
      modifies this, vertexOutEdges, vertexInEdges
      ensures Valid()
      ensures var o := ClearStep(old(State()));
        State() == o.after && events == old(events) + o.fired
    {
      vertexOutEdges.Clear();
      vertexInEdges.Clear();
      edgeCount := 0;
      events := events + [Cleared];
    }
  }

  /** The test's vertices `'A'` to `'E'` are distinct. */
  lemma FiveDistinct()
    ensures Distinct(['A', 'B', 'C', 'D', 'E'])
  {
    var vs := ['A', 'B', 'C', 'D', 'E'];
    assert vs[1..] == ['B', 'C', 'D', 'E'] && vs[1..][1..] == ['C', 'D', 'E'];
    assert vs[1..][1..][1..] == ['D', 'E'] && vs[1..][1..][1..][1..] == ['E'];
    assert vs[1..][1..][1..][1..][1..] == [];
  }

  /** The empty lists of the five vertices, as a map. */
  const NoEdges: map<char, seq<Edge<char>>> := map['A' := [], 'B' := [], 'C' := [], 'D' := [], 'E' := []]

  /** A graph with the vertices A to E in that order, all of whose lists are
      empty, holds exactly `NoEdges` in both indices. */
  lemma FiveLists(s: GraphState<char>)
    requires s.Valid() && s.outIndex.keys == ['A', 'B', 'C', 'D', 'E'] && s.inIndex.keys == s.outIndex.keys
    requires forall v | v in s.outIndex.values :: s.outIndex.values[v] == []
    requires forall v | v in s.inIndex.values :: s.inIndex.values[v] == []
    ensures s.outIndex.values == NoEdges && s.inIndex.values == NoEdges
  {
    var ks := s.outIndex.keys;
    assert ks[0] == 'A' && ks[1] == 'B' && ks[2] == 'C' && ks[3] == 'D' && ks[4] == 'E';
    assert s.outIndex.values.Keys == NoEdges.Keys;
    assert s.inIndex.values.Keys == NoEdges.Keys;
  }

  /** A graph of the vertices A to E, as the library's tests build it: five
      vertices, no edges, and two empty lists per vertex. */
  method FiveVertices() returns (g: BidirectionalGraph<char>)
    ensures g.Valid() && fresh(g.vertexOutEdges) && fresh(g.vertexInEdges) && !g.allowParallelEdges
    ensures GraphProperties.Consistent(g.State()) && GraphProperties.Closed(g.State())
    ensures g.Vertices() == ['A', 'B', 'C', 'D', 'E'] && g.edgeCount == 0
    ensures g.State().outIndex.values == NoEdges && g.State().inIndex.values == NoEdges
  {
    g := new BidirectionalGraph<char>(false, -1);
    var vs := ['A', 'B', 'C', 'D', 'E'];
    ghost var s0 := g.State();
    var n := g.AddVertexRange(vs);
    FiveDistinct();
    GraphProperties.AddVertexRangeFresh(s0, vs);
    GraphProperties.AddVertexRangeAppends(s0, vs);
    GraphProperties.AddVertexRangeKeepsConsistent(s0, vs);
    FiveLists(g.State());
  }
}
