/**
  What the `BidirectionalGraph` operations keep and what they break
  (src/lib/bidirectional-graph.ts), proved about the outcome functions of
  `GraphSpec`.

  - `Shaped`: both indices are valid ordered maps with the same key order,
    and every list holds only edges of its own vertex (out-lists: edges
    leaving it, in-lists: edges entering it). Every operation keeps it, even
    when it throws.
  - `Consistent`: `Shaped`, and `_edgeCount` is the total length of the
    out-lists. `addVertex`, `addEdge`, `removeVertex`, `clear` and the
    batches built from them keep it; the `clear*Edges` family, whose list
    clearing is a stub, and an `addEdge` that throws on an absent target
    break it.
  - `Closed`: no edge mentions a vertex that is not in the graph.
    `removeVertex` breaks it, because the edges of other vertices that
    point at the removed one stay in their lists.
 */
module GraphProperties {
  import opened Wrappers
  import opened Edges
  import opened Dictionaries
  import opened GraphSpec

  ghost predicate KeysAgree<V>(s: GraphState<V>) {
    s.outIndex.keys == s.inIndex.keys
  }

  ghost predicate Attached<V>(s: GraphState<V>) {
    && (forall k | k in s.outIndex.values :: forall e | e in s.outIndex.values[k] :: e.source == k)
    && (forall k | k in s.inIndex.values :: forall e | e in s.inIndex.values[k] :: e.target == k)
  }

  ghost predicate Shaped<V>(s: GraphState<V>) {
    s.Valid() && KeysAgree(s) && Attached(s)
  }

  ghost predicate Consistent<V>(s: GraphState<V>) {
    Shaped(s) && s.edgeCount == TotalLength(s.outIndex)
  }

  ghost predicate Closed<V>(s: GraphState<V>) {
    && (forall k | k in s.outIndex.values :: forall e | e in s.outIndex.values[k] :: e.target in s.inIndex.values)
    && (forall k | k in s.inIndex.values :: forall e | e in s.inIndex.values[k] :: e.source in s.outIndex.values)
  }

  // ------------------------------------------------------- list-length sums

  lemma {:induction false} DistinctTail<K>(s: seq<K>)
    requires Distinct(s) && s != []
    ensures Distinct(s[1..]) && s[0] !in s[1..]
  {
  }

  lemma {:induction false} SumLengthsAgree<V>(keys: seq<V>, a: map<V, seq<Edge<V>>>, b: map<V, seq<Edge<V>>>)
    requires forall i | 0 <= i < |keys| :: keys[i] in a && keys[i] in b && a[keys[i]] == b[keys[i]]
    ensures SumLengths(keys, a) == SumLengths(keys, b)
  {
    if keys != [] {
      SumLengthsAgree(keys[1..], a, b);
    }
  }

  lemma {:induction false} SumLengthsSnoc<V>(keys: seq<V>, k: V, values: map<V, seq<Edge<V>>>)
    requires forall i | 0 <= i < |keys| :: keys[i] in values
    requires k in values
    ensures SumLengths(keys + [k], values) == SumLengths(keys, values) + |values[k]|
  {
    if keys == [] {
      assert keys + [k] == [k];
    } else {
      assert (keys + [k])[1..] == keys[1..] + [k];
      SumLengthsSnoc(keys[1..], k, values);
    }
  }

  lemma {:induction false} SumLengthsUpdate<V>(keys: seq<V>, values: map<V, seq<Edge<V>>>, k: V, l: seq<Edge<V>>)
    requires Distinct(keys) && k in keys
    requires forall i | 0 <= i < |keys| :: keys[i] in values
    ensures SumLengths(keys, values[k := l]) == SumLengths(keys, values) - |values[k]| + |l|
  {
    DistinctTail(keys);
    if keys[0] == k {
      SumLengthsAgree(keys[1..], values[k := l], values);
    } else {
      SumLengthsUpdate(keys[1..], values, k, l);
    }
  }

  lemma {:induction false} SumLengthsWithout<V>(keys: seq<V>, values: map<V, seq<Edge<V>>>, k: V)
    requires Distinct(keys) && k in keys
    requires forall i | 0 <= i < |keys| :: keys[i] in values
    ensures forall i | 0 <= i < |Without(keys, k)| :: Without(keys, k)[i] in values - {k}
    ensures SumLengths(Without(keys, k), values - {k}) == SumLengths(keys, values) - |values[k]|
  {
    DistinctTail(keys);
    WithoutDistinct(keys[1..], k);
    if keys[0] == k {
      assert Without(keys, k) == keys[1..];
      SumLengthsAgree(keys[1..], values - {k}, values);
    } else {
      SumLengthsWithout(keys[1..], values, k);
      var w := Without(keys, k);
      assert w == [keys[0]] + Without(keys[1..], k);
      assert w[0] == keys[0] && w[1..] == Without(keys[1..], k);
    }
  }

  /** `edges` holds exactly the edges of the out-lists. */
  lemma {:induction false} FlattenHas<V>(keys: seq<V>, values: map<V, seq<Edge<V>>>, e: Edge<V>)
    requires forall i | 0 <= i < |keys| :: keys[i] in values
    ensures e in Flatten(keys, values) <==> exists i | 0 <= i < |keys| :: e in values[keys[i]]
  {
    if keys != [] {
      FlattenHas(keys[1..], values, e);
      if e in Flatten(keys[1..], values) {
        var i :| 0 <= i < |keys[1..]| && e in values[keys[1..][i]];
        assert e in values[keys[i + 1]];
      }
      if exists i | 0 <= i < |keys| :: e in values[keys[i]] {
        var i :| 0 <= i < |keys| && e in values[keys[i]];
        if i > 0 {
          assert keys[1..][i - 1] == keys[i];
        }
      }
    }
  }

  /** On a consistent graph `edges` has `edgeCount` edges, each of them in
      the out-list of its own source. */
  lemma EdgesMatchCount<V>(s: GraphState<V>)
    requires Consistent(s)
    ensures |Flatten(s.outIndex.keys, s.outIndex.values)| == s.edgeCount
    ensures forall e | e in Flatten(s.outIndex.keys, s.outIndex.values) ::
      e.source in s.outIndex.values && e in s.outIndex.values[e.source]
  {
    forall e | e in Flatten(s.outIndex.keys, s.outIndex.values)
      ensures e.source in s.outIndex.values && e in s.outIndex.values[e.source]
    {
      FlattenHas(s.outIndex.keys, s.outIndex.values, e);
    }
  }

  // ------------------------------------------------------- single operations

  /** `addVertex` keeps a consistent graph consistent (and closed), adds `v`
      exactly when it was absent, and changes nothing otherwise. */
  lemma AddVertexKeepsConsistent<V>(s: GraphState<V>, v: V)
    requires Consistent(s)
    ensures var o := AddVertexStep(s, v);
      && Consistent(o.after)
      && (Closed(s) ==> Closed(o.after))
      && (o.result == Success(true) <==> v !in s.outIndex.values)
      && o.after.outIndex.keys == (if v in s.outIndex.values then s.outIndex.keys else s.outIndex.keys + [v])
      && v in o.after.outIndex.values && v in o.after.inIndex.values
      && (v in s.outIndex.values ==> o.after == s && o.fired == [])
  {
    if v !in s.outIndex.values {
      assert v !in s.inIndex.values;
      var m := s.outIndex;
      SumLengthsSnoc(m.keys, v, m.values[v := []]);
      SumLengthsAgree(m.keys, m.values[v := []], m.values);
    }
  }

  /** `addEdge` on a consistent graph throws exactly when the edge is not
      refused as parallel and an endpoint is missing; a refused edge changes
      nothing. */
  lemma AddEdgeOutcome<V>(s: GraphState<V>, allowParallelEdges: bool, e: Edge<V>)
    requires Consistent(s)
    ensures var o := AddEdgeStep(s, allowParallelEdges, e);
      var refused := !allowParallelEdges && HasVertexEdge(s.outIndex, e.source, e.target);
      && (o.result.Failure? <==> !refused && (e.source !in s.outIndex.values || e.target !in s.outIndex.values))
      && (refused ==> o.after == s && o.fired == [] && o.result == Success(false))
  {
  }

  /** An `addEdge` that is not refused, between two vertices of a consistent
      graph, keeps it consistent and closed, with one more edge, appended to
      the source's out-list and the target's in-list. */
  lemma AddEdgeKeepsConsistent<V>(s: GraphState<V>, allowParallelEdges: bool, e: Edge<V>)
    requires Consistent(s)
    requires allowParallelEdges || !HasVertexEdge(s.outIndex, e.source, e.target)
    requires e.source in s.outIndex.values && e.target in s.outIndex.values
    ensures var o := AddEdgeStep(s, allowParallelEdges, e);
      && Consistent(o.after)
      && (Closed(s) ==> Closed(o.after))
      && o.result == Success(true) && o.fired == [EdgeAdded(e)]
      && o.after.edgeCount == s.edgeCount + 1
      && o.after.outIndex.keys == s.outIndex.keys && o.after.inIndex.keys == s.inIndex.keys
      && o.after.outIndex.values == s.outIndex.values[e.source := s.outIndex.values[e.source] + [e]]
      && o.after.inIndex.values == s.inIndex.values[e.target := s.inIndex.values[e.target] + [e]]
  {
    var m, n := s.outIndex, s.inIndex;
    SumLengthsUpdate(m.keys, m.values, e.source, m.values[e.source] + [e]);
    var o := AddEdgeStep(s, allowParallelEdges, e);
    assert o.after.outIndex.values == m.values[e.source := m.values[e.source] + [e]];
    assert o.after.inIndex.values == n.values[e.target := n.values[e.target] + [e]];
    AppendKeepsEnds(m.values, e.source, e, true);
    AppendKeepsEnds(n.values, e.target, e, false);
    if Closed(s) {
      AppendKeepsOtherEnds(m.values, e.source, e, true, n.values.Keys);
      AppendKeepsOtherEnds(n.values, e.target, e, false, m.values.Keys);
    }
  }

  /** The end of an edge that names the list it is filed under. */
  function End<V>(e: Edge<V>, bySource: bool): V {
    if bySource then e.source else e.target
  }

  /** Appending an edge to the list of its own end keeps every list attached. */
  lemma AppendKeepsEnds<V>(vals: map<V, seq<Edge<V>>>, k: V, e: Edge<V>, bySource: bool)
    requires k in vals && End(e, bySource) == k
    requires forall j | j in vals :: forall x | x in vals[j] :: End(x, bySource) == j
    ensures var w := vals[k := vals[k] + [e]];
      forall j | j in w :: forall x | x in w[j] :: End(x, bySource) == j
  {
  }

  /** Appending an edge whose other end lies in `dom` keeps every other end in
      `dom`. */
  lemma AppendKeepsOtherEnds<V>(vals: map<V, seq<Edge<V>>>, k: V, e: Edge<V>, bySource: bool, dom: set<V>)
    requires k in vals && End(e, !bySource) in dom
    requires forall j | j in vals :: forall x | x in vals[j] :: End(x, !bySource) in dom
    ensures var w := vals[k := vals[k] + [e]];
      forall j | j in w :: forall x | x in w[j] :: End(x, !bySource) in dom
  {
  }

  /** `addEdge` to an absent target of a closed graph throws after growing
      the source's out-list, so `edgeCount` no longer matches the lists. */
  lemma AddEdgeToAbsentTargetBreaksCount<V>(s: GraphState<V>, allowParallelEdges: bool, e: Edge<V>)
    requires Consistent(s) && Closed(s)
    requires e.source in s.outIndex.values && e.target !in s.outIndex.values
    ensures var o := AddEdgeStep(s, allowParallelEdges, e);
      && o.result == Failure(NullDereference) && o.fired == []
      && o.after.outIndex.values[e.source] == s.outIndex.values[e.source] + [e]
      && TotalLength(o.after.outIndex) == o.after.edgeCount + 1
  {
    assert !HasVertexEdge(s.outIndex, e.source, e.target) by {
      forall i | 0 <= i < |s.outIndex.values[e.source]|
        ensures s.outIndex.values[e.source][i].target != e.target
      {
        assert s.outIndex.values[e.source][i] in s.outIndex.values[e.source];
      }
    }
    var m := s.outIndex;
    SumLengthsUpdate(m.keys, m.values, e.source, m.values[e.source] + [e]);
  }

  /** A successful `removeVertex` keeps a consistent graph consistent: `v`
      leaves both indices and `edgeCount` drops by its out-degree, one
      `edgeRemoved` per out-edge then `vertexRemoved`. A `false` answer or
      an exception changes nothing. */
  lemma RemoveVertexKeepsConsistent<V>(s: GraphState<V>, v: V)
    requires Consistent(s)
    ensures var o := RemoveVertexStep(s, v);
      && Consistent(o.after)
      && (o.result == Success(false) <==> v !in s.outIndex.values)
      && (o.result != Success(true) ==> o.after == s && o.fired == [])
      && (o.result == Success(true) ==>
            && v !in o.after.outIndex.values && v !in o.after.inIndex.values
            && o.after.outIndex.values == s.outIndex.values - {v}
            && o.after.edgeCount == s.edgeCount - |s.outIndex.values[v]|
            && o.fired == EdgesRemoved(s.outIndex.values[v]) + [VertexRemoved(v)])
  {
    var o := RemoveVertexStep(s, v);
    if o.result == Success(true) {
      SumLengthsWithout(s.outIndex.keys, s.outIndex.values, v);
    }
  }

  /** On a closed graph `removeVertex` of a present vertex never throws. */
  lemma RemoveVertexSucceedsWhenClosed<V>(s: GraphState<V>, v: V)
    requires Consistent(s) && Closed(s) && v in s.outIndex.values
    ensures RemoveVertexStep(s, v).result == Success(true)
  {
    var outs := s.outIndex.values[v];
    assert AllTargetsIn(outs, s.inIndex) by {
      forall i | 0 <= i < |outs| ensures outs[i].target in s.inIndex.values {
        assert outs[i] in outs;
      }
    }
    var ins := Lookup(s.inIndex, v);
    assert AllSourcesIn(ins, s.outIndex) by {
      forall i | 0 <= i < |ins| ensures ins[i].source in s.outIndex.values {
        assert ins[i] in ins;
      }
    }
  }

  /** `removeEdge` never changes the graph: it throws for an edge whose
      source is absent and answers false otherwise. Hence so does a run of
      `removeEdge`s, which throws exactly when one of the sources is absent. */
  lemma {:induction false} RemoveEdgesChangeNothing<V>(s: GraphState<V>, es: seq<Edge<V>>)
    requires s.Valid()
    ensures var o := RemoveEdgesStep(s, es);
      && o.after == s && o.fired == []
      && o.result == if exists i | 0 <= i < |es| :: es[i].source !in s.outIndex.values
                     then Failure(NullDereference) else Success(())
  {
    if es != [] {
      RemoveEdgesChangeNothing(s, es[1..]);
      if exists i | 0 <= i < |es[1..]| :: es[1..][i].source !in s.outIndex.values {
        var i :| 0 <= i < |es[1..]| && es[1..][i].source !in s.outIndex.values;
        assert es[i + 1].source !in s.outIndex.values;
      }
      if exists i | 0 <= i < |es| :: es[i].source !in s.outIndex.values {
        var i :| 0 <= i < |es| && es[i].source !in s.outIndex.values;
        if i > 0 {
          assert es[1..][i - 1] == es[i];
        }
      }
    }
  }

  /** `removeOutEdgeIf` on a shaped graph changes nothing and answers how
      many out-edges of `v` satisfy the predicate. */
  lemma RemoveOutEdgeIfCountsMatches<V>(s: GraphState<V>, v: V, p: Edge<V> -> bool)
    requires Shaped(s)
    ensures var o := RemoveOutEdgeIfStep(s, v, p);
      o.after == s && o.fired == [] && o.result == Success(|Filter(Lookup(s.outIndex, v), p)|)
  {
    var es := Filter(Lookup(s.outIndex, v), p);
    RemoveEdgesChangeNothing(s, es);
    forall i | 0 <= i < |es| ensures es[i].source in s.outIndex.values {
      assert es[i] in Lookup(s.outIndex, v);
    }
  }

  /** `removeEdgeIf` on a shaped graph changes nothing and answers how many
      edges satisfy the predicate. */
  lemma RemoveEdgeIfCountsMatches<V>(s: GraphState<V>, p: Edge<V> -> bool)
    requires Shaped(s)
    ensures var o := RemoveEdgeIfStep(s, p);
      o.after == s && o.fired == [] && o.result == Success(|Filter(Flatten(s.outIndex.keys, s.outIndex.values), p)|)
  {
    var all := Flatten(s.outIndex.keys, s.outIndex.values);
    var es := Filter(all, p);
    RemoveEdgesChangeNothing(s, es);
    forall i | 0 <= i < |es| ensures es[i].source in s.outIndex.values {
      FlattenHas(s.outIndex.keys, s.outIndex.values, es[i]);
      var j :| 0 <= j < |s.outIndex.keys| && es[i] in s.outIndex.values[s.outIndex.keys[j]];
    }
  }

  /** `removeInEdgeIf` as intended, on a shaped and closed graph, changes
      nothing and answers how many in-edges of `v` satisfy the predicate. */
  lemma RemoveInEdgeIfCountsInEdges<V>(s: GraphState<V>, v: V, p: Edge<V> -> bool)
    requires Shaped(s) && Closed(s)
    ensures var o := RemoveInEdgeIfStep(s, v, p);
      o.after == s && o.fired == [] && o.result == Success(|Filter(Lookup(s.inIndex, v), p)|)
  {
    var es := Filter(Lookup(s.inIndex, v), p);
    RemoveEdgesChangeNothing(s, es);
    forall i | 0 <= i < |es| ensures es[i].source in s.outIndex.values {
      assert es[i] in Lookup(s.inIndex, v);
    }
  }

  // --------------------------------------------------------------- batches

  /** A run of `removeVertex`s keeps a consistent graph consistent, whether
      or not one of them throws. */
  lemma {:induction false} RemoveVerticesKeepConsistent<V>(s: GraphState<V>, vs: seq<V>)
    requires Consistent(s)
    ensures Consistent(RemoveVerticesStep(s, vs).after)
    decreases |vs|
  {
    if vs != [] {
      RemoveVertexKeepsConsistent(s, vs[0]);
      RemoveVerticesKeepConsistent(RemoveVertexStep(s, vs[0]).after, vs[1..]);
    }
  }

  /** `removeVertexIf` keeps a consistent graph consistent. */
  lemma RemoveVertexIfKeepsConsistent<V>(s: GraphState<V>, p: V -> bool)
    requires Consistent(s)
    ensures Consistent(RemoveVertexIfStep(s, p).after)
  {
    RemoveVerticesKeepConsistent(s, Filter(s.outIndex.keys, p));
  }

  /** `addVertexRange` keeps a consistent graph consistent (and closed). */
  lemma {:induction false} AddVertexRangeKeepsConsistent<V>(s: GraphState<V>, vs: seq<V>)
    requires Consistent(s)
    ensures Consistent(AddVertexRangeStep(s, vs).after)
    ensures Closed(s) ==> Closed(AddVertexRangeStep(s, vs).after)
    decreases |vs|
  {
    if vs != [] {
      AddVertexKeepsConsistent(s, vs[0]);
      AddVertexRangeKeepsConsistent(AddVertexStep(s, vs[0]).after, vs[1..]);
    }
  }

  /** One `addVertex` adds one key exactly when it answers true, keeps the
      edge count and gives a new vertex two empty lists. */
  lemma AddVertexStepShape<V>(s: GraphState<V>, v: V)
    requires s.Valid()
    ensures var o := AddVertexStep(s, v);
      && o.after.edgeCount == s.edgeCount
      && |o.after.outIndex.keys| == |s.outIndex.keys| + (if o.result.value then 1 else 0)
      && (forall w | w in o.after.outIndex.values ::
            o.after.outIndex.values[w] == if w in s.outIndex.values then s.outIndex.values[w] else [])
      && (forall w | w in o.after.inIndex.values ::
            o.after.inIndex.values[w] == if w in s.inIndex.values then s.inIndex.values[w] else [])
  {
  }

  /** `addVertexRange` answers the number of vertices it added. */
  lemma {:induction false} AddVertexRangeCounts<V>(s: GraphState<V>, vs: seq<V>)
    requires s.Valid()
    ensures AddVertexRangeStep(s, vs).result ==
      Success(|AddVertexRangeStep(s, vs).after.outIndex.keys| - |s.outIndex.keys|)
    decreases |vs|
  {
    if vs != [] {
      var first := AddVertexStep(s, vs[0]);
      var rest := AddVertexRangeStep(first.after, vs[1..]);
      assert AddVertexRangeStep(s, vs) == Counted(first, rest);
      AddVertexRangeCounts(first.after, vs[1..]);
      AddVertexStepShape(s, vs[0]);
    }
  }

  /** Every vertex of the range is in the graph after `addVertexRange`. */
  lemma {:induction false} AddVertexRangeAddsAll<V>(s: GraphState<V>, vs: seq<V>)
    requires s.Valid()
    ensures forall i | 0 <= i < |vs| :: vs[i] in AddVertexRangeStep(s, vs).after.outIndex.values
    decreases |vs|
  {
    if vs != [] {
      var first := AddVertexStep(s, vs[0]);
      AddVertexRangeAddsAll(first.after, vs[1..]);
      var rest := AddVertexRangeStep(first.after, vs[1..]);
      assert AddVertexRangeStep(s, vs).after == rest.after;
      forall i | 1 <= i < |vs| ensures vs[i] in rest.after.outIndex.values {
        assert vs[1..][i - 1] == vs[i];
      }
      AddVertexRangeKeepsVertices(first.after, vs[1..], vs[0]);
    }
  }

  /** `addVertexRange` gives every new vertex two empty lists and keeps every
      list already there. */
  lemma {:induction false} AddVertexRangeFresh<V>(s: GraphState<V>, vs: seq<V>)
    requires s.Valid()
    ensures var a := AddVertexRangeStep(s, vs).after;
      && a.edgeCount == s.edgeCount
      && (forall v | v in a.outIndex.values ::
            a.outIndex.values[v] == if v in s.outIndex.values then s.outIndex.values[v] else [])
      && (forall v | v in a.inIndex.values ::
            a.inIndex.values[v] == if v in s.inIndex.values then s.inIndex.values[v] else [])
    decreases |vs|
  {
    if vs != [] {
      var first := AddVertexStep(s, vs[0]);
      AddVertexRangeFresh(first.after, vs[1..]);
      AddVertexStepShape(s, vs[0]);
      assert AddVertexRangeStep(s, vs).after == AddVertexRangeStep(first.after, vs[1..]).after;
    }
  }

  /** A range of distinct new vertices is appended to the vertex order as it
      stands. */
  lemma {:induction false} AddVertexRangeAppends<V>(s: GraphState<V>, vs: seq<V>)
    requires s.Valid()
    requires Distinct(vs) && forall i | 0 <= i < |vs| :: vs[i] !in s.outIndex.values
    ensures AddVertexRangeStep(s, vs).after.outIndex.keys == s.outIndex.keys + vs
    decreases |vs|
  {
    if vs != [] {
      var first := AddVertexStep(s, vs[0]);
      var keys := first.after.outIndex.keys;
      assert keys == s.outIndex.keys + [vs[0]];
      assert forall i | 0 <= i < |vs[1..]| :: vs[1..][i] !in first.after.outIndex.values by {
        DistinctIndices(vs);
        forall i | 0 <= i < |vs[1..]| ensures vs[1..][i] !in first.after.outIndex.values {
          assert vs[1..][i] == vs[i + 1];
        }
      }
      AddVertexRangeAppends(first.after, vs[1..]);
      assert AddVertexRangeStep(s, vs) == Counted(first, AddVertexRangeStep(first.after, vs[1..]));
      calc {
        AddVertexRangeStep(s, vs).after.outIndex.keys;
        AddVertexRangeStep(first.after, vs[1..]).after.outIndex.keys;
        keys + vs[1..];
        { Appended(s.outIndex.keys, [vs[0]], vs[1..]); }
        s.outIndex.keys + ([vs[0]] + vs[1..]);
        { Uncons(vs); }
        s.outIndex.keys + vs;
      }
    }
  }

  /** `addVertexRange` removes no vertex. */
  lemma {:induction false} AddVertexRangeKeepsVertices<V>(s: GraphState<V>, vs: seq<V>, v: V)
    requires s.Valid() && v in s.outIndex.values
    ensures v in AddVertexRangeStep(s, vs).after.outIndex.values
    decreases |vs|
  {
    if vs != [] {
      AddVertexRangeKeepsVertices(AddVertexStep(s, vs[0]).after, vs[1..], v);
    }
  }

  /** `addVerticesAndEdge` on a consistent graph never throws, keeps it
      consistent, and leaves both endpoints in the graph. */
  lemma AddVerticesAndEdgeSucceeds<V>(s: GraphState<V>, allowParallelEdges: bool, e: Edge<V>)
    requires Consistent(s)
    ensures var o := AddVerticesAndEdgeStep(s, allowParallelEdges, e);
      && o.result.Success? && Consistent(o.after) && (Closed(s) ==> Closed(o.after))
      && e.source in o.after.outIndex.values && e.target in o.after.outIndex.values
  {
    AddVertexKeepsConsistent(s, e.source);
    var a := AddVertexStep(s, e.source);
    AddVertexKeepsConsistent(a.after, e.target);
    var b := AddVertexStep(a.after, e.target);
    AddEdgeOutcome(b.after, allowParallelEdges, e);
    if allowParallelEdges || !HasVertexEdge(b.after.outIndex, e.source, e.target) {
      AddEdgeKeepsConsistent(b.after, allowParallelEdges, e);
    }
  }

  /** `addVerticesAndEdgeRange` on a consistent graph never throws and keeps
      it consistent. */
  lemma {:induction false} AddVerticesAndEdgeRangeSucceeds<V>(s: GraphState<V>, allowParallelEdges: bool, es: seq<Edge<V>>)
    requires Consistent(s)
    ensures var o := AddVerticesAndEdgeRangeStep(s, allowParallelEdges, es);
      o.result.Success? && Consistent(o.after) && (Closed(s) ==> Closed(o.after))
    decreases |es|
  {
    if es != [] {
      AddVerticesAndEdgeSucceeds(s, allowParallelEdges, es[0]);
      AddVerticesAndEdgeRangeSucceeds(AddVerticesAndEdgeStep(s, allowParallelEdges, es[0]).after, allowParallelEdges, es[1..]);
    }
  }

  // ------------------------------------------------------------ clearing

  /** `clear` leaves an empty, consistent and closed graph. */
  lemma ClearEmpties<V>(s: GraphState<V>)
    ensures var o := ClearStep(s);
      Consistent(o.after) && Closed(o.after) && o.after.outIndex.keys == [] && o.after.edgeCount == 0
      && o.fired == [Cleared]
  {
  }

  /** `clearOutEdges` of a vertex with out-edges, on a consistent closed
      graph, lowers `edgeCount` but keeps the lists, so the graph is no
      longer consistent. */
  lemma ClearOutEdgesKeepsLists<V>(s: GraphState<V>, v: V)
    requires Consistent(s) && Closed(s) && v in s.outIndex.values && s.outIndex.values[v] != []
    ensures var o := ClearOutEdgesStep(s, v);
      && o.result.Success? && o.fired == []
      && o.after.outIndex == s.outIndex && o.after.inIndex == s.inIndex
      && o.after.edgeCount == s.edgeCount - |s.outIndex.values[v]|
      && !Consistent(o.after)
  {
    var outs := s.outIndex.values[v];
    assert AllTargetsIn(outs, s.inIndex) by {
      forall i | 0 <= i < |outs| ensures outs[i].target in s.inIndex.values {
        assert outs[i] in outs;
      }
    }
  }

  /** `clearInEdges` of a present vertex fires `edgeRemoved` for the
      in-edges up to the first whose source is absent, and throws there; if
      there is none it lowers `edgeCount` by the in-degree. The lists stay. */
  lemma ClearInEdgesFiresPerEdge<V>(s: GraphState<V>, v: V)
    requires Shaped(s) && v in s.inIndex.values
    ensures var o := ClearInEdgesStep(s, v);
      var ins := s.inIndex.values[v];
      && o.after.outIndex == s.outIndex && o.after.inIndex == s.inIndex
      && (o.result.Success? <==> AllSourcesIn(ins, s.outIndex))
      && (o.result.Success? ==> o.fired == EdgesRemoved(ins) && o.after.edgeCount == s.edgeCount - |ins|)
      && (o.result.Failure? ==> exists n | 0 <= n < |ins| ::
            o.fired == EdgesRemoved(ins[..n]) && ins[n].source !in s.outIndex.values && AllSourcesIn(ins[..n], s.outIndex))
  {
    var ins := s.inIndex.values[v];
    var n := SourcesPresent(ins, s.outIndex);
    if n < |ins| {
      assert AllSourcesIn(ins[..n], s.outIndex);
    }
  }

  // -------------------------------------------------------------- examples

  /** Removing a vertex leaves the edges that point at it in place: after
      `removeVertex(2)` on the graph 1 -> 2, vertex 1 still has the edge, the
      graph is no longer closed, and `removeVertex(1)` now throws. */
  lemma RemoveVertexLeavesDanglingEdge()
    ensures var e := Edge(1, 2);
      var s := GraphState(OrderedMap([1, 2], map[1 := [e], 2 := []]), OrderedMap([1, 2], map[1 := [], 2 := [e]]), 1);
      && Consistent(s) && Closed(s)
      && var o := RemoveVertexStep(s, 2);
      && o.result == Success(true)
      && o.after.outIndex.values == map[1 := [e]]
      && !Closed(o.after)
      && RemoveVertexStep(o.after, 1).result == Failure(NullDereference)
  {
    var e := Edge(1, 2);
    var s := GraphState(OrderedMap([1, 2], map[1 := [e], 2 := []]), OrderedMap([1, 2], map[1 := [], 2 := [e]]), 1);
    DanglingBefore(s);
    DanglingAfter(s);
  }

  /** The graph 1 -> 2 is consistent and closed. */
  lemma DanglingBefore(s: GraphState<int>)
    requires s == GraphState(OrderedMap([1, 2], map[1 := [Edge(1, 2)], 2 := []]), OrderedMap([1, 2], map[1 := [], 2 := [Edge(1, 2)]]), 1)
    ensures Consistent(s) && Closed(s)
  {
    DanglingShaped(s);
    DanglingClosed(s);
    DanglingCount(s);
  }

  lemma DanglingShaped(s: GraphState<int>)
    requires s == GraphState(OrderedMap([1, 2], map[1 := [Edge(1, 2)], 2 := []]), OrderedMap([1, 2], map[1 := [], 2 := [Edge(1, 2)]]), 1)
    ensures Shaped(s)
  {
  }

  lemma DanglingClosed(s: GraphState<int>)
    requires s == GraphState(OrderedMap([1, 2], map[1 := [Edge(1, 2)], 2 := []]), OrderedMap([1, 2], map[1 := [], 2 := [Edge(1, 2)]]), 1)
    ensures Closed(s)
  {
  }

  lemma DanglingCount(s: GraphState<int>)
    requires s == GraphState(OrderedMap([1, 2], map[1 := [Edge(1, 2)], 2 := []]), OrderedMap([1, 2], map[1 := [], 2 := [Edge(1, 2)]]), 1)
    ensures s.outIndex.Valid() && s.edgeCount == TotalLength(s.outIndex)
  {
    var m := s.outIndex.values;
    assert [1, 2][1..] == [2] && [2][1..] == [];
    assert SumLengths([2], m) == |m[2]| + SumLengths([], m) == 0;
  }

  /** `removeVertex(2)` on the graph 1 -> 2 keeps the edge at 1, which then
      dangles. */
  lemma DanglingAfter(s: GraphState<int>)
    requires s == GraphState(OrderedMap([1, 2], map[1 := [Edge(1, 2)], 2 := []]), OrderedMap([1, 2], map[1 := [], 2 := [Edge(1, 2)]]), 1)
    ensures var o := RemoveVertexStep(s, 2);
      && o.result == Success(true)
      && o.after.outIndex.values == map[1 := [Edge(1, 2)]]
      && !Closed(o.after)
      && RemoveVertexStep(o.after, 1).result == Failure(NullDereference)
  {
    var o := RemoveVertexStep(s, 2);
    DanglingRemoval(s);
    DanglingOpen(o.after);
    DanglingThrows(o.after);
  }

  lemma DanglingRemoval(s: GraphState<int>)
    requires s == GraphState(OrderedMap([1, 2], map[1 := [Edge(1, 2)], 2 := []]), OrderedMap([1, 2], map[1 := [], 2 := [Edge(1, 2)]]), 1)
    ensures var o := RemoveVertexStep(s, 2);
      && o.result == Success(true)
      && o.after.outIndex.values == map[1 := [Edge(1, 2)]]
      && 2 !in o.after.inIndex.values
  {
    var e := Edge(1, 2);
    assert AllTargetsIn(s.outIndex.values[2], s.inIndex);
    assert AllSourcesIn(Lookup(s.inIndex, 2), s.outIndex) by {
      assert Lookup(s.inIndex, 2) == [e];
    }
  }

  /** Once 2 is gone the edge 1 -> 2 points nowhere. */
  lemma DanglingOpen(t: GraphState<int>)
    requires t.outIndex.values == map[1 := [Edge(1, 2)]] && 2 !in t.inIndex.values
    ensures !Closed(t)
  {
    assert Edge(1, 2) in t.outIndex.values[1];
  }

  /** ... and removing 1 then throws at that edge. */
  lemma DanglingThrows(t: GraphState<int>)
    requires t.Valid() && t.outIndex.values == map[1 := [Edge(1, 2)]] && 2 !in t.inIndex.values
    ensures RemoveVertexStep(t, 1).result == Failure(NullDereference)
  {
    assert !AllTargetsIn(t.outIndex.values[1], t.inIndex) by {
      assert t.outIndex.values[1][0] == Edge(1, 2);
    }
  }

  /** The input that shows the `removeInEdgeIf` slip: on the graph 1 -> 2,
      removing the in-edges of 2 that satisfy an always-true predicate
      answers 0 as written, although 2 has one in-edge; the intended
      definition answers 1. */
  lemma RemoveInEdgeIfCountsOutEdges()
    ensures var e := Edge(1, 2);
      var s := GraphState(OrderedMap([1, 2], map[1 := [e], 2 := []]), OrderedMap([1, 2], map[1 := [], 2 := [e]]), 1);
      var all := (x: Edge<int>) => true;
      && |Lookup(s.inIndex, 2)| == 1
      && RemoveOutEdgeIfStep(s, 2, all).result == Success(0)
      && RemoveInEdgeIfStep(s, 2, all).result == Success(1)
  {
    var e := Edge(1, 2);
    var s := GraphState(OrderedMap([1, 2], map[1 := [e], 2 := []]), OrderedMap([1, 2], map[1 := [], 2 := [e]]), 1);
    var all := (x: Edge<int>) => true;
    assert Filter([e], all) == [e] by {
      assert [e][1..] == [];
    }
    assert RemoveEdgesStep(s, [e]) == Outcome(s, [], Success(())) by {
      assert [e][1..] == [];
    }
  }
}
