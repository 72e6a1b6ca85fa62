/**
  The effect of every `BidirectionalGraph` operation
  (src/lib/bidirectional-graph.ts) as a function of the graph's state: the
  two vertex-to-edge-list indices and `_edgeCount`. Each operation yields an
  `Outcome`: the state afterwards, the events it fired, and its result or the
  exception it threw.

  Two things in the library shape these definitions:
  - `List.remove` always answers false and `List.clear` does nothing, so no
    operation ever takes an edge out of a list;
  - `get(x)!.f(...)` on an absent key dereferences `undefined`: a `TypeError`,
    here `Failure(NullDereference)`, possibly after earlier effects.
 */
module GraphSpec {
  import opened Wrappers
  import opened Edges
  import opened Dictionaries

  /** A vertex-to-edge-list index. */
  type Index<V> = OrderedMap<V, seq<Edge<V>>>

  datatype GraphEvent<V> =
    | VertexAdded(vertex: V)
    | VertexRemoved(vertex: V)
    | EdgeAdded(edge: Edge<V>)
    | EdgeRemoved(edge: Edge<V>)
    | Cleared

  datatype GraphState<V> = GraphState(outIndex: Index<V>, inIndex: Index<V>, edgeCount: int) {
    ghost predicate Valid() {
      outIndex.Valid() && inIndex.Valid()
    }
  }

  datatype Outcome<V, R> = Outcome(after: GraphState<V>, fired: seq<GraphEvent<V>>, result: Result<R>)

  // ---------------------------------------------------------------- helpers

  /** `get(v)?.values() ?? []`: the list of `v`, empty for an absent vertex. */
  function Lookup<V(==)>(m: Index<V>, v: V): (l: seq<Edge<V>>)
  {
    if v in m.values then m.values[v] else []
  }

  /** One `edgeRemoved` per edge, in order. */
  function EdgesRemoved<V>(es: seq<Edge<V>>): (r: seq<GraphEvent<V>>)
    ensures |r| == |es|
    ensures forall i | 0 <= i < |es| :: r[i] == EdgeRemoved(es[i])
  {
    seq(|es|, i requires 0 <= i < |es| => EdgeRemoved(es[i]))
  }

  /** The elements of `s` that satisfy `p`, in order. */
  function Filter<T>(s: seq<T>, p: T -> bool): (r: seq<T>)
    ensures |r| <= |s|
    ensures forall i | 0 <= i < |r| :: p(r[i]) && r[i] in s
    ensures forall i | 0 <= i < |s| && p(s[i]) :: s[i] in r
  {
    if s == [] then [] else (if p(s[0]) then [s[0]] else []) + Filter(s[1..], p)
  }

  lemma {:induction false} FilterSnoc<T>(s: seq<T>, x: T, p: T -> bool)
    ensures Filter(s + [x], p) == Filter(s, p) + (if p(x) then [x] else [])
  {
    if s != [] {
      assert (s + [x])[1..] == s[1..] + [x];
      FilterSnoc(s[1..], x, p);
    }
  }

  predicate AllTargetsIn<V(==)>(es: seq<Edge<V>>, m: Index<V>) {
    forall i | 0 <= i < |es| :: es[i].target in m.values
  }

  predicate AllSourcesIn<V(==)>(es: seq<Edge<V>>, m: Index<V>) {
    forall i | 0 <= i < |es| :: es[i].source in m.values
  }

  /** The length of the longest prefix of `es` whose sources are in `m`. */
  function SourcesPresent<V(==)>(es: seq<Edge<V>>, m: Index<V>): (n: nat)
    ensures n <= |es|
    ensures forall i | 0 <= i < n :: es[i].source in m.values
    ensures n < |es| ==> es[n].source !in m.values
  {
    if es == [] || es[0].source !in m.values then 0
    else 1 + SourcesPresent(es[1..], m)
  }

  /** `containsVertexEdge`: `source` is a vertex with an out-edge to `target`,
      which is when `FirstTo` finds one in its list. */
  function HasVertexEdge<V(==)>(m: Index<V>, source: V, target: V): (b: bool)
    ensures b <==> source in m.values && FirstTo(m.values[source], target).Some?
  {
    source in m.values && exists i | 0 <= i < |m.values[source]| :: m.values[source][i].target == target
  }

  /** The edges of `es` that end at `target`, in order. */
  function EdgesTo<V(==)>(es: seq<Edge<V>>, target: V): (r: seq<Edge<V>>)
    ensures |r| <= |es|
    ensures forall i | 0 <= i < |r| :: r[i].target == target && r[i] in es
    ensures forall i | 0 <= i < |es| && es[i].target == target :: es[i] in r
  {
    Filter(es, (e: Edge<V>) => e.target == target)
  }

  /** The first edge of `es` that ends at `target`. */
  function FirstTo<V(==)>(es: seq<Edge<V>>, target: V): (r: Option<Edge<V>>)
    ensures r.None? <==> forall i | 0 <= i < |es| :: es[i].target != target
    ensures r.Some? ==> exists i | 0 <= i < |es| ::
      (es[i] == r.value && r.value.target == target && forall j | 0 <= j < i :: es[j].target != target)
  {
    if es == [] then None
    else if es[0].target == target then Some(es[0])
    else
      var r := FirstTo(es[1..], target);
      assert r.Some? ==> exists i | 0 <= i < |es| ::
        (es[i] == r.value && r.value.target == target && forall j | 0 <= j < i :: es[j].target != target) by {
        if r.Some? {
          var i :| 0 <= i < |es[1..]| && es[1..][i] == r.value && r.value.target == target &&
            forall j | 0 <= j < i :: es[1..][j].target != target;
          assert es[i + 1] == r.value;
          assert forall j | 0 <= j < i + 1 :: es[j].target != target by {
            forall j | 0 <= j < i + 1 ensures es[j].target != target {
              if j > 0 { assert es[j] == es[1..][j - 1]; }
            }
          }
        }
      }
      r
  }

  /** The out-edges of all vertices, vertex by vertex in key order. */
  function Flatten<V>(keys: seq<V>, values: map<V, seq<Edge<V>>>): (r: seq<Edge<V>>)
    requires forall i | 0 <= i < |keys| :: keys[i] in values
    ensures |r| == SumLengths(keys, values)
  {
    if keys == [] then [] else values[keys[0]] + Flatten(keys[1..], values)
  }

  /** The total length of the lists of `keys`. */
  function SumLengths<V>(keys: seq<V>, values: map<V, seq<Edge<V>>>): (n: nat)
    requires forall i | 0 <= i < |keys| :: keys[i] in values
  {
    if keys == [] then 0 else |values[keys[0]]| + SumLengths(keys[1..], values)
  }

  function TotalLength<V>(m: Index<V>): (n: nat)
    requires m.Valid()
  {
    SumLengths(m.keys, m.values)
  }

  // ---------------------------------------------------------------- mutators

  /** `addVertex` (lines 108-117). */
  function AddVertexStep<V(==)>(s: GraphState<V>, v: V): (r: Outcome<V, bool>)
    requires s.Valid()
    ensures r.after.Valid() && r.result.Success?
  {
    if v in s.outIndex.values then Outcome(s, [], Success(false))
    else
      Outcome(GraphState(AddEntry(s.outIndex, v, []), AddEntry(s.inIndex, v, []), s.edgeCount),
              [VertexAdded(v)], Success(true))
  }

  /** `addEdge` (lines 211-222). The edge is appended to the source's list
      before the target's list is looked up. */
  function AddEdgeStep<V(==)>(s: GraphState<V>, allowParallelEdges: bool, e: Edge<V>): (r: Outcome<V, bool>)
    requires s.Valid()
    ensures r.after.Valid()
  {
    if !allowParallelEdges && HasVertexEdge(s.outIndex, e.source, e.target) then
      Outcome(s, [], Success(false))
    else if e.source !in s.outIndex.values then
      Outcome(s, [], Failure(NullDereference))
    else
      var outIndex := Insert(s.outIndex, e.source, s.outIndex.values[e.source] + [e]);
      if e.target !in s.inIndex.values then
        Outcome(s.(outIndex := outIndex), [], Failure(NullDereference))
      else
        Outcome(GraphState(outIndex, Insert(s.inIndex, e.target, s.inIndex.values[e.target] + [e]), s.edgeCount + 1),
                [EdgeAdded(e)], Success(true))
  }

  /** `removeVertex` (lines 137-161). Only out-edges are collected, since
      `List.remove` answers false for every in-edge. */
  function RemoveVertexStep<V(==)>(s: GraphState<V>, v: V): (r: Outcome<V, bool>)
    requires s.Valid()
    ensures r.after.Valid()
  {
    if v !in s.outIndex.values then Outcome(s, [], Success(false))
    else
      var outs := s.outIndex.values[v];
      if !AllTargetsIn(outs, s.inIndex) || !AllSourcesIn(Lookup(s.inIndex, v), s.outIndex) then
        Outcome(s, [], Failure(NullDereference))
      else
        Outcome(GraphState(Delete(s.outIndex, v), Delete(s.inIndex, v), s.edgeCount - |outs|),
                EdgesRemoved(outs) + [VertexRemoved(v)], Success(true))
  }

  /** `removeEdge` (lines 240-248): `List.remove` answers false, so it either
      throws (absent source) or answers false, changing nothing. */
  function RemoveEdgeStep<V(==)>(s: GraphState<V>, e: Edge<V>): (r: Outcome<V, bool>)
    requires s.Valid()
    ensures r.after.Valid()
  {
    if e.source !in s.outIndex.values then Outcome(s, [], Failure(NullDereference))
    else Outcome(s, [], Success(false))
  }

  /** `clearOutEdges` (lines 198-205). */
  function ClearOutEdgesStep<V(==)>(s: GraphState<V>, v: V): (r: Outcome<V, ()>)
    requires s.Valid()
    ensures r.after.Valid()
  {
    if v !in s.outIndex.values then Outcome(s, [], Failure(NullDereference))
    else
      var outs := s.outIndex.values[v];
      if !AllTargetsIn(outs, s.inIndex) then Outcome(s, [], Failure(NullDereference))
      else Outcome(s.(edgeCount := s.edgeCount - |outs|), [], Success(()))
  }

  /** `clearInEdges` (lines 418-427): an `edgeRemoved` per in-edge, fired
      before the next source is looked up. */
  function ClearInEdgesStep<V(==)>(s: GraphState<V>, v: V): (r: Outcome<V, ()>)
    requires s.Valid()
    ensures r.after.Valid()
  {
    if v !in s.inIndex.values then Outcome(s, [], Failure(NullDereference))
    else
      var ins := s.inIndex.values[v];
      var n := SourcesPresent(ins, s.outIndex);
      if n < |ins| then Outcome(s, EdgesRemoved(ins[..n]), Failure(NullDereference))
      else Outcome(s.(edgeCount := s.edgeCount - |ins|), EdgesRemoved(ins), Success(()))
  }

  /** `clearEdges` (lines 413-416). */
  function ClearEdgesStep<V(==)>(s: GraphState<V>, v: V): (r: Outcome<V, ()>)
    requires s.Valid()
    ensures r.after.Valid()
  {
    var o := ClearOutEdgesStep(s, v);
    if o.result.Failure? then o
    else
      var p := ClearInEdgesStep(o.after, v);
      Outcome(p.after, o.fired + p.fired, p.result)
  }

  /** `clear` (lines 257-262). */
  function ClearStep<V>(s: GraphState<V>): (r: Outcome<V, ()>)
    ensures r.after.Valid()
  {
    Outcome(GraphState(Empty(), Empty(), 0), [Cleared], Success(()))
  }

  /** `addVerticesAndEdge` (lines 397-401). */
  function AddVerticesAndEdgeStep<V(==)>(s: GraphState<V>, allowParallelEdges: bool, e: Edge<V>): (r: Outcome<V, bool>)
    requires s.Valid()
    ensures r.after.Valid()
  {
    var a := AddVertexStep(s, e.source);
    var b := AddVertexStep(a.after, e.target);
    var c := AddEdgeStep(b.after, allowParallelEdges, e);
    Outcome(c.after, a.fired + b.fired + c.fired, c.result)
  }

  // ---------------------------------------------------------------- batches

  /** Runs `first` and then, unless it threw, `rest` from its state; the
      count grows by one when `first` answered true. */
  function Counted<V>(first: Outcome<V, bool>, rest: Outcome<V, int>): (r: Outcome<V, int>)
  {
    if first.result.Failure? then Outcome(first.after, first.fired, Failure(first.result.error))
    else Outcome(rest.after, first.fired + rest.fired,
                 if rest.result.Failure? then rest.result
                 else Success(rest.result.value + if first.result.value then 1 else 0))
  }

  /** Runs `first` and then, unless it threw, `rest` from its state. */
  function Then<V, R>(first: Outcome<V, R>, rest: Outcome<V, ()>): (r: Outcome<V, ()>)
  {
    if first.result.Failure? then Outcome(first.after, first.fired, Failure(first.result.error))
    else Outcome(rest.after, first.fired + rest.fired, rest.result)
  }

  /** The outcome of a batch whose earlier calls fired `fired` and whose
      remaining calls have outcome `o`. */
  function Resume<V>(fired: seq<GraphEvent<V>>, o: Outcome<V, ()>): (r: Outcome<V, ()>)
  {
    Outcome(o.after, fired + o.fired, o.result)
  }

  /** The same for a counting batch whose earlier calls counted `count`. */
  function ResumeCount<V>(count: int, fired: seq<GraphEvent<V>>, o: Outcome<V, int>): (r: Outcome<V, int>)
  {
    Outcome(o.after, fired + o.fired, if o.result.Failure? then o.result else Success(count + o.result.value))
  }

  /** Bookkeeping for event logs that grow call by call. */
  lemma Appended<T>(log: seq<T>, fired: seq<T>, more: seq<T>)
    ensures log + fired + more == log + (fired + more)
    ensures fired + [] == fired && [] + more == more
  {
  }

  /** A non-empty sequence is its head followed by its tail. */
  lemma Uncons<T>(s: seq<T>)
    requires s != []
    ensures [s[0]] + s[1..] == s
  {
  }

  /** One more call of a counting batch, seen from its continuation. */
  lemma ResumeCounted<V>(count: int, fired: seq<GraphEvent<V>>, first: Outcome<V, bool>, rest: Outcome<V, int>)
    ensures first.result.Success? ==>
      ResumeCount(count, fired, Counted(first, rest))
        == ResumeCount(count + if first.result.value then 1 else 0, fired + first.fired, rest)
    ensures first.result.Failure? ==>
      ResumeCount(count, fired, Counted(first, rest))
        == Outcome(first.after, fired + first.fired, Failure(first.result.error))
  {
    assert fired + (first.fired + rest.fired) == fired + first.fired + rest.fired;
  }

  /** One more call of a batch, seen from its continuation. */
  lemma ResumeThen<V, R>(fired: seq<GraphEvent<V>>, first: Outcome<V, R>, rest: Outcome<V, ()>)
    ensures first.result.Success? ==> Resume(fired, Then(first, rest)) == Resume(fired + first.fired, rest)
    ensures first.result.Failure? ==>
      Resume(fired, Then(first, rest)) == Outcome(first.after, fired + first.fired, Failure(first.result.error))
  {
    assert fired + (first.fired + rest.fired) == fired + first.fired + rest.fired;
  }

  /** `addVertexRange` (lines 127-135): the number of vertices added. */
  function AddVertexRangeStep<V(==)>(s: GraphState<V>, vs: seq<V>): (r: Outcome<V, int>)
    requires s.Valid()
    ensures r.after.Valid()
    decreases |vs|
  {
    if vs == [] then Outcome(s, [], Success(0))
    else
      var first := AddVertexStep(s, vs[0]);
      Counted(first, AddVertexRangeStep(first.after, vs[1..]))
  }

  /** `addEdgeRange` (lines 230-238): the number of edges added. */
  function AddEdgeRangeStep<V(==)>(s: GraphState<V>, allowParallelEdges: bool, es: seq<Edge<V>>): (r: Outcome<V, int>)
    requires s.Valid()
    ensures r.after.Valid()
    decreases |es|
  {
    if es == [] then Outcome(s, [], Success(0))
    else
      var first := AddEdgeStep(s, allowParallelEdges, es[0]);
      Counted(first, AddEdgeRangeStep(first.after, allowParallelEdges, es[1..]))
  }

  /** `addVerticesAndEdgeRange` (lines 403-411). */
  function AddVerticesAndEdgeRangeStep<V(==)>(s: GraphState<V>, allowParallelEdges: bool, es: seq<Edge<V>>): (r: Outcome<V, int>)
    requires s.Valid()
    ensures r.after.Valid()
    decreases |es|
  {
    if es == [] then Outcome(s, [], Success(0))
    else
      var first := AddVerticesAndEdgeStep(s, allowParallelEdges, es[0]);
      Counted(first, AddVerticesAndEdgeRangeStep(first.after, allowParallelEdges, es[1..]))
  }

  /** `removeVertex` on each of `vs` in turn, stopping at an exception. */
  function RemoveVerticesStep<V(==)>(s: GraphState<V>, vs: seq<V>): (r: Outcome<V, ()>)
    requires s.Valid()
    ensures r.after.Valid()
    decreases |vs|
  {
    if vs == [] then Outcome(s, [], Success(()))
    else
      var first := RemoveVertexStep(s, vs[0]);
      Then(first, RemoveVerticesStep(first.after, vs[1..]))
  }

  /** `removeEdge` on each of `es` in turn, stopping at an exception. */
  function RemoveEdgesStep<V(==)>(s: GraphState<V>, es: seq<Edge<V>>): (r: Outcome<V, ()>)
    requires s.Valid()
    ensures r.after.Valid()
    decreases |es|
  {
    if es == [] then Outcome(s, [], Success(()))
    else
      var first := RemoveEdgeStep(s, es[0]);
      Then(first, RemoveEdgesStep(first.after, es[1..]))
  }

  /** The `*If` removals answer the number of candidates they collected. */
  function Answering<V>(o: Outcome<V, ()>, n: int): (r: Outcome<V, int>)
  {
    Outcome(o.after, o.fired, if o.result.Failure? then Failure(o.result.error) else Success(n))
  }

  /** `removeVertexIf` (lines 171-182). */
  function RemoveVertexIfStep<V(==)>(s: GraphState<V>, p: V -> bool): (r: Outcome<V, int>)
    requires s.Valid()
    ensures r.after.Valid()
  {
    var vs := Filter(s.outIndex.keys, p);
    Answering(RemoveVerticesStep(s, vs), |vs|)
  }

  /** `removeOutEdgeIf` (lines 184-196). */
  function RemoveOutEdgeIfStep<V(==)>(s: GraphState<V>, v: V, p: Edge<V> -> bool): (r: Outcome<V, int>)
    requires s.Valid()
    ensures r.after.Valid()
  {
    var es := Filter(Lookup(s.outIndex, v), p);
    Answering(RemoveEdgesStep(s, es), |es|)
  }

  /** `removeEdgeIf` (lines 429-440). */
  function RemoveEdgeIfStep<V(==)>(s: GraphState<V>, p: Edge<V> -> bool): (r: Outcome<V, int>)
    requires s.Valid()
    ensures r.after.Valid()
  {
    var es := Filter(Flatten(s.outIndex.keys, s.outIndex.values), p);
    Answering(RemoveEdgesStep(s, es), |es|)
  }

  /** `removeInEdgeIf` as its name and interface promise: the candidates are
      drawn from `inEdges(v)`. */
  function RemoveInEdgeIfStep<V(==)>(s: GraphState<V>, v: V, p: Edge<V> -> bool): (r: Outcome<V, int>)
    requires s.Valid()
    ensures r.after.Valid()
  {
    var es := Filter(Lookup(s.inIndex, v), p);
    Answering(RemoveEdgesStep(s, es), |es|)
  }
}
