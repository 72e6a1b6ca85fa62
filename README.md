# QuickGraph.ts core, modelled in Dafny

QuickGraph.ts is a TypeScript graph library. Its core is a directed
`BidirectionalGraph`. The graph keeps, for every vertex, a list of its
out-edges and a list of its in-edges, and it counts its edges. Each change
is announced through rxjs subjects (`vertexAdded`, `edgeAdded`,
`edgeRemoved`, ...).

The algorithms are built on a shared base:

- `AlgorithmBase` holds a computation-state machine and a service cache.
  The cache hands an algorithm its `CancelManager`; both are found through
  an `InjectionToken`.
- `RootedAlgorithmBase` adds an optional root vertex.
- The depth-first search, the breadth-first search and the topological
  sort sit on these bases. The sort runs a depth-first search and collects
  the vertices as they finish.

The small collections under them are also modelled: `List`, `EdgeList`,
`VertexEdgeDictionary`, `Queue`, the comparers and `EqualityComparer`.

## How the model is built

Each source file has its own module. Pure code (the comparers, the token's
`toString`, the edge-list constructor) becomes functions and lemmas. Code
that updates state in place becomes a class:

- The graph's dictionaries, the list, the queue, the algorithm bases and
  the search algorithms are all classes.
- The color maps and the queue are updated in place.
- The depth-first frame stack and the breadth-first queue are driven by
  `while` loops.

Every class method is proved equal to a specification function:

- `GraphSpec` has one step function per graph operation. Each returns the
  new state, the notifications fired and the result or exception.
- `DfsSpec.Run` and `BfsSpec.Run` are the two searches.
- `Algorithms.Apply` is the state machine.

Property modules prove what these functions guarantee: `GraphProperties`,
`DfsProperties`, `DfsFinishOrder`, `BfsProperties` and the topological-sort
theorem.

JavaScript values are modelled as follows:

- A JavaScript `Map` is an ordered map: its keys in insertion order, plus a
  Dafny `map`.
- An exception is the `Failure` of a `Result`: `NullDereference` for a
  `get(x)!` on an absent key, `NonAcyclicGraph` for the sort's
  `Non Acyclic Graph`, `InvalidOperation` and `ServiceNotFound`.
- A subject is a ghost or plain log of what it emitted, in order.
- Inheritance is composition: a search holds its `AlgorithmBase` and its
  `RootedAlgorithmBase`.

The code is followed wherever it departs from its evident design:

- `List.remove` answers false and `List.clear` does nothing, so no edge
  ever leaves a list. `removeEdge`, `removeOutEdgeIf`, `clearOutEdges` and
  the like are modelled with that effect.
- `removeVertex` leaves dangling in-edges in other vertices' lists.
- `isInEdgesEmpty` answers false for an absent vertex, while
  `isOutEdgesEmpty` answers true.
- `tryGetService` nulls a cached entry when it hands it out.
- The depth-first search compares `maxDepth` only when a frame is popped.

## Model

| member | source | states |
|---|---|---|
| Lists.IndexOf | src/lib/list.ts:22-24 | the index of the first occurrence of `v`, or -1 exactly when `v` is absent |
| Lists.List.constructor | src/lib/list.ts:6 | a new list is empty |
| Lists.List.Count | src/lib/list.ts:8-10 | `count` is the number of items |
| Lists.List.Add | src/lib/list.ts:11-13 | appends `v` at the end and answers true exactly when the list was empty before (`push(v) === 1`) |
| Lists.List.Remove | src/lib/list.ts:15-17 | answers false and leaves the list unchanged |
| Lists.List.Clear | src/lib/list.ts:19-20 | leaves the list unchanged |
| Lists.List.Contains | src/lib/list.ts:22-24 | true exactly when some item equals `v` |
| Lists.List.TrimExcess | src/lib/list.ts:26-27 | leaves the list unchanged |
| Queues.Queue.constructor | src/lib/collections/queue.ts:8 | a new queue is empty |
| Queues.Queue.Count | src/lib/collections/queue.ts:9-11 | the number of queued entries |
| Queues.Queue.Contains | src/lib/collections/queue.ts:13-15 | true exactly when some entry equals the value |
| Queues.Queue.Enqueue | src/lib/collections/queue.ts:25-27 | appends the value at the back |
| Queues.Queue.Peek | src/lib/collections/queue.ts:29-34 | `undefined` exactly for an empty queue, otherwise the front entry |
| Queues.Queue.Dequeue | src/lib/collections/queue.ts:17-23 | on an empty queue answers `undefined` and changes nothing; otherwise answers the front entry and removes exactly it (FIFO) |
| Queues.Queue.ToArray | src/lib/collections/queue.ts:36-38 | the intended `[...this.entries]`: a copy with the same entries in the same order |
| Queues.NewArray | src/lib/collections/queue.ts:37 | `new Array(...args)`: a single numeric argument gives that many holes when it is a valid array length and throws `RangeError` otherwise; every other argument list gives exactly its values, in order |
| Queues.ToArrayAsWritten | src/lib/collections/queue.ts:36-38 | `toArray()` as written gives the entries, in order, unless the queue holds exactly one number |
| Queues.ToArrayLosesEntry | src/lib/collections/queue.ts:36-38 | the input that shows it: a queue holding only 3 gives three holes, and one holding only 0.5 throws `RangeError` |
| Queues.ToArrayAsWrittenAgrees | src/lib/collections/queue.ts:36-38 | on every other queue, `toArray()` as written gives the elements of the intended copy |
| Queues.QueueTests | src/lib/collections/queue.spec.ts:9-46 | the tests' expectations: counts 0, 1, 0; contains `b` but not `c`; peek answers `a` with count 2; `toArray` gives `a`, `b`; dequeue answers `a` |
| Comparers.Comparer.Compare | src/lib/collections/comparer.ts:10-15 | answers only 0 or 1, and 0 exactly when the two values are equal |
| Comparers.GetDefaultComparer | src/lib/collections/comparer.ts:18-20 | always the plain `Comparer`, whatever the object |
| Comparers.CompareIsSymmetric | src/lib/collections/comparer.ts:10-15 | `compare(x, y) == compare(y, x)` and `compare(x, x) == 0` |
| EqualityComparers.EqualityComparer.GetHashCode | src/lib/equality-comparer.ts:11-13 | every value hashes to 0 |
| EqualityComparers.EqualsIsEquivalence | src/lib/equality-comparer.ts:7-9 | `equals` is reflexive, symmetric and transitive |
| EqualityComparers.EqualsAgreesWithHashCode | src/lib/equality-comparer.ts:7-13 | equal values have equal hash codes |
| EdgeLists.Present | src/lib/edge-list.ts:7-8 | the edges of a list, holes skipped, are at most as many as its slots |
| EdgeLists.PresentOfItems | src/lib/edge-list.ts:14-15 | a list built from an array of edges holds exactly those edges, in order |
| EdgeLists.PresentOfHoles | src/lib/edge-list.ts:16-17 | a list built with a length holds no edge |
| EdgeLists.ConstructBranches | src/lib/edge-list.ts:11-21 | the constructor's four branches: no argument gives an empty list; an array gives its edges in order and no holes; a capacity `n >= 0` gives `n` holes; a negative capacity gives an empty list |
| EdgeLists.Construct | src/lib/edge-list.ts:11-21 | an array gives one item per edge, in order; a capacity `n >= 0` gives `n` holes; every other argument (none, a negative capacity, a single edge object) gives an empty list |
| EdgeLists.CloneAsWritten | src/lib/edge-list.ts:23-25 | `clone()` as written returns an empty list, whatever the list holds |
| EdgeLists.CloneLosesEdges | src/lib/edge-list.ts:23-25 | the input that shows it: a list of one edge clones to a list with no edge |
| EdgeLists.Clone | src/lib/edge-list.ts:23-25 | the intended clone: one item per edge of the list, in order, holes dropped |
| EdgeLists.CloneKeepsEdges | src/lib/edge-list.ts:23-25 | the intended clone holds the same edges in the same order and no holes |
| InjectionTokens.InjectionToken.Create | src/lib/di/injection-token.ts:9-13 | answers `undefined` exactly when the token has no factory; otherwise a new `CancelManager` that is not cancelling |
| InjectionTokens.InjectionToken.Description | src/lib/di/injection-token.ts:6-16 | `${this.desc}`: the description the token was given, and the text `"undefined"` exactly as the value of a token without one |
| InjectionTokens.InjectionToken.ToString | src/lib/di/injection-token.ts:15-17 | `"InjectionToken "` followed by the description |
| InjectionTokens.ToStringInjective | src/lib/di/injection-token.ts:15-17 | two tokens print the same exactly when their descriptions are the same |
| CancelManagers.CancelManager.constructor | src/lib/algorithms/services/cancel-manager.ts:12-13 | a new manager is not cancelling |
| CancelManagers.CancelManager.Cancel | src/lib/algorithms/services/cancel-manager.ts:26-27 | the manager is still not cancelling after `cancel()` |
| CancelManagers.CancelManager.ResetCancel | src/lib/algorithms/services/cancel-manager.ts:29-30 | the manager is not cancelling after `resetCancel()` |
| CancelManagers.NeverCancelling | src/lib/algorithms/services/cancel-manager.ts:13-24 | every manager has `cancelling == 0`, so `isCancelling` is always false |
| Algorithms.NormalRunEndsAborted | src/lib/algorithms/algorithm-base.ts:68-125 | `compute()` with a normal `internalCompute` ends in `Aborted` and fires started, stateChanged, aborted, stateChanged from any state |
| Algorithms.AbortDuringRunThrows | src/lib/algorithms/algorithm-base.ts:112-125 | if `abort()` runs during the computation, `endComputation` throws `InvalidOperationException` after firing stateChanged twice, and the state stays `Aborted` |
| Algorithms.FailingRunStaysRunning | src/lib/algorithms/algorithm-base.ts:68-77 | an exception from `internalCompute` skips `endComputation`: the state stays `Running` and the exception propagates |
| Algorithms.AbortOnlyWhileRunning | src/lib/algorithms/algorithm-base.ts:55-66 | `abort()` fires something exactly when the state is `Running`, and changes nothing otherwise |
| Algorithms.BeginStep | src/lib/algorithms/algorithm-base.ts:106-111 | from any state: `Running`, firing started then stateChanged, without throwing |
| Algorithms.EndStep | src/lib/algorithms/algorithm-base.ts:112-125 | succeeds exactly from `Running` or `PendingAbortion`, moving to `Aborted` after firing aborted then stateChanged; from any other state throws `InvalidOperationException`, keeping the state and firing nothing |
| Algorithms.AbortStep | src/lib/algorithms/algorithm-base.ts:55-66 | from `Running`: `Aborted`, firing stateChanged once; from any other state no change and nothing fired; it never throws |
| Algorithms.Apply | src/lib/algorithms/algorithm-base.ts:55-77 | no `compute()` or `abort()` fires `finished` or enters `Finished` from another state; a throwing `internalCompute` throws its own exception, and the only other exception is `InvalidOperationException` |
| Algorithms.Serve | src/lib/algorithms/algorithm-base.ts:88-104 | a cached service is handed out and its entry nulled; otherwise whatever `create()` gives is both stored and answered |
| Algorithms.NeverFinished | src/lib/algorithms/algorithm-base.ts:137-139 | no sequence of operations reaches `Finished` or fires `finished` |
| Algorithms.ServeAlternates | src/lib/algorithms/algorithm-base.ts:88-104 | successive requests for a token with a factory alternate: create and cache, hand out the cached service and null the entry, create again |
| Algorithms.ServeSucceeds | src/lib/algorithms/algorithm-base.ts:100-103 | a request succeeds exactly when a service is cached or the token creates one |
| Algorithms.AlgorithmServices.constructor | src/lib/algorithms/services/algorithm-services.ts:10 | records the host and holds no cancel manager yet |
| Algorithms.AlgorithmBase.constructor | src/lib/algorithms/algorithm-base.ts:23-29 | new services recording the given host and holding no cancel manager, state `NotRunning`, no cached service, nothing fired |
| Algorithms.AlgorithmBase.Host | src/lib/algorithms/algorithm-base.ts:24-26 | the host is the algorithm itself exactly when no host was given |
| Algorithms.AlgorithmBase.TryGetService | src/lib/algorithms/algorithm-base.ts:88-104 | updates the token's entry as the cache rule says; with nothing cached it succeeds exactly when the token has a factory, with a new service; state and events unchanged |
| Algorithms.AlgorithmBase.GetService | src/lib/algorithms/algorithm-base.ts:79-85 | like `tryGetService`, but throws `service not found` exactly when that fails |
| Algorithms.AlgorithmBase.CancelManager | src/lib/algorithms/services/algorithm-services.ts:13-18 | answers the memoized manager if there is one; otherwise gets it from the host's cache and memoizes it |
| Algorithms.AlgorithmBase.Abort | src/lib/algorithms/algorithm-base.ts:55-66 | the new state and the notifications are those of the abort transition; while `Running` it reads `services.cancelManager`, which sets the memo and the host's `CANCEL_MANAGER` entry by the cache rule (`CancelManagerServed`); in any other state nothing changes; a separate host's state and events are untouched |
| Algorithms.AlgorithmBase.BeginComputation | src/lib/algorithms/algorithm-base.ts:106-111 | the begin transition (state `Running`, started then stateChanged fired); reading `services.cancelManager` keeps a memoized manager and the host's cache as they are, and otherwise takes the host's `CANCEL_MANAGER` entry by the cache rule, a new manager when nothing is cached; a separate host's state and events, and this algorithm's own cache, are untouched |
| Algorithms.AlgorithmBase.EndComputation | src/lib/algorithms/algorithm-base.ts:112-125 | the end transition: from `Running` or `PendingAbortion` it moves to `Aborted`, fires aborted and stateChanged, and reads `services.cancelManager` as `beginComputation` does; from any other state it throws `InvalidOperationException` and changes nothing at all, neither this algorithm, its services nor the host |
| Algorithms.AlgorithmBase.Compute | src/lib/algorithms/algorithm-base.ts:68-77 | the base's `initialize`, `internalCompute` and `clean` are empty, so `compute()` is begin then end: the state, notifications and result of a normal run, with the memo and the host's `CANCEL_MANAGER` entry as one read of `services.cancelManager` leaves them; a separate host's state and events are untouched |
| RootedAlgorithms.SetRootStep | src/lib/algorithms/rooted-algorithm-base.ts:30-37 | the root becomes `r`, and `rootVertexChanged` fires exactly when the old root differs from `r` |
| RootedAlgorithms.SetSameRootTwice | src/lib/algorithms/rooted-algorithm-base.ts:30-37 | setting the same root a second time does not fire `rootVertexChanged` |
| RootedAlgorithms.RootedAlgorithmBase.constructor | src/lib/algorithms/rooted-algorithm-base.ts:12-17 | no root, `hasRootVertex` false, nothing fired |
| RootedAlgorithms.RootedAlgorithmBase.TryGetRootVertex | src/lib/algorithms/rooted-algorithm-base.ts:19-28 | succeeds exactly when a root is set, with that root |
| RootedAlgorithms.RootedAlgorithmBase.SetRootVertex | src/lib/algorithms/rooted-algorithm-base.ts:30-37 | the root becomes `r`, and the change count grows by one exactly when the root changed |
| RootedAlgorithms.RootedAlgorithmBase.ClearRootVertex | src/lib/algorithms/rooted-algorithm-base.ts:38-41 | no root afterwards, and nothing fired |
| Dictionaries.Get | src/lib/vertex-edge-dictionary.ts:43-51 | `Map.get`: a value exactly for a present key, that key's value |
| Dictionaries.Without | src/lib/vertex-edge-dictionary.ts:39-41 | the key order holds every other key and not the deleted one, and is no longer |
| Dictionaries.Insert | src/lib/vertex-edge-dictionary.ts:23 | `Map.set`: the key maps to the value; a new key goes last in the key order, an existing key keeps its place |
| Dictionaries.AddEntry | src/lib/vertex-edge-dictionary.ts:19-25 | a present key leaves the map unchanged; an absent key is appended with the value |
| Dictionaries.Delete | src/lib/vertex-edge-dictionary.ts:39-41 | the key leaves the map and the key order; an absent key changes nothing |
| Dictionaries.SizeIsKeyCount | src/lib/vertex-edge-dictionary.ts:15-17 | the size of a well-formed ordered map is the number of its keys |
| Dictionaries.SameKeysSameMap | src/lib/vertex-edge-dictionary.ts:27-33 | two ordered maps with the same key order and the same values are equal |
| Dictionaries.VertexEdgeDictionary.constructor | src/lib/vertex-edge-dictionary.ts:11-13 | an empty dictionary that keeps its `vertexCapacity` |
| Dictionaries.VertexEdgeDictionary.Count | src/lib/vertex-edge-dictionary.ts:15-17 | the number of keys |
| Dictionaries.VertexEdgeDictionary.ContainsKey | src/lib/vertex-edge-dictionary.ts:35-37 | true exactly for a present key |
| Dictionaries.VertexEdgeDictionary.Add | src/lib/vertex-edge-dictionary.ts:19-25 | answers true exactly when the key was absent, and then stores it last; a present key changes nothing |
| Dictionaries.VertexEdgeDictionary.Set | src/lib/vertex-edge-dictionary.ts:23 | `Map.set` on the entries |
| Dictionaries.VertexEdgeDictionary.Clear | src/lib/vertex-edge-dictionary.ts:8-9 | `Map.clear`: no entries left |
| Dictionaries.VertexEdgeDictionary.Remove | src/lib/vertex-edge-dictionary.ts:39-41 | answers true exactly when the key was present, and then removes it |
| Dictionaries.VertexEdgeDictionary.TryGetValue | src/lib/vertex-edge-dictionary.ts:43-51 | succeeds exactly for a present key, with its value |
| Dictionaries.VertexEdgeDictionary.Clone | src/lib/vertex-edge-dictionary.ts:27-33 | a new dictionary with the same entries in the same key order and the same capacity |
| GraphSpec.EdgesRemoved | src/lib/bidirectional-graph.ts:152-154 | one `edgeRemoved` notification per edge, in order |
| GraphSpec.Filter | src/lib/bidirectional-graph.ts:185-191 | the collected edges all satisfy the predicate and come from the list, and every matching edge is collected |
| GraphSpec.SourcesPresent | src/lib/bidirectional-graph.ts:421-422 | the length of the prefix of edges whose sources are in the graph; the next edge's source is absent |
| GraphSpec.FirstTo | src/lib/bidirectional-graph.ts:368-375 | nothing exactly when no edge of the list leads to the target; otherwise an edge of the list that leads to it |
| GraphSpec.HasVertexEdge | src/lib/bidirectional-graph.ts:324-336 | `containsVertexEdge` holds exactly when the source is a vertex and some out-edge of it leads to the target |
| GraphSpec.EdgesTo | src/lib/bidirectional-graph.ts:380-395 | the collected edges all lead to the target and come from the list, and every edge of the list that leads to the target is collected |
| GraphSpec.AddVertexStep | src/lib/bidirectional-graph.ts:108-117 | the outcome of `addVertex`: never throws, and leaves well-formed indices |
| GraphSpec.AddEdgeStep | src/lib/bidirectional-graph.ts:211-222 | the outcome of `addEdge` (its content is in `GraphProperties.AddEdgeOutcome`); the indices stay well-formed |
| GraphSpec.RemoveVertexStep | src/lib/bidirectional-graph.ts:137-161 | the outcome of `removeVertex`; the indices stay well-formed |
| GraphSpec.RemoveEdgeStep | src/lib/bidirectional-graph.ts:240-248 | the outcome of `removeEdge`; the indices stay well-formed |
| GraphSpec.ClearOutEdgesStep | src/lib/bidirectional-graph.ts:198-205 | the outcome of `clearOutEdges`; the indices stay well-formed |
| GraphSpec.ClearInEdgesStep | src/lib/bidirectional-graph.ts:418-427 | the outcome of `clearInEdges`; the indices stay well-formed |
| GraphSpec.ClearEdgesStep | src/lib/bidirectional-graph.ts:413-416 | `clearOutEdges` then `clearInEdges`; the indices stay well-formed |
| GraphSpec.ClearStep | src/lib/bidirectional-graph.ts:257-262 | the outcome of `clear`; the indices are well-formed |
| GraphSpec.AddVerticesAndEdgeStep | src/lib/bidirectional-graph.ts:397-401 | two `addVertex` then `addEdge`; the indices stay well-formed |
| GraphSpec.AddVertexRangeStep | src/lib/bidirectional-graph.ts:127-135 | `addVertex` on each vertex, counting the added ones; the indices stay well-formed |
| GraphSpec.AddEdgeRangeStep | src/lib/bidirectional-graph.ts:230-238 | `addEdge` on each edge, counting, stopping at an exception; the indices stay well-formed |
| GraphSpec.AddVerticesAndEdgeRangeStep | src/lib/bidirectional-graph.ts:403-411 | `addVerticesAndEdge` on each edge, counting; the indices stay well-formed |
| GraphSpec.RemoveVerticesStep | src/lib/bidirectional-graph.ts:178-180 | `removeVertex` on each vertex, stopping at an exception; the indices stay well-formed |
| GraphSpec.RemoveEdgesStep | src/lib/bidirectional-graph.ts:192-194 | `removeEdge` on each edge, stopping at an exception; the indices stay well-formed |
| GraphSpec.RemoveVertexIfStep | src/lib/bidirectional-graph.ts:171-182 | collects the matching vertices, removes them, and answers how many were collected; the indices stay well-formed |
| GraphSpec.RemoveOutEdgeIfStep | src/lib/bidirectional-graph.ts:184-196 | collects the matching out-edges, removes them, and answers how many; the indices stay well-formed |
| GraphSpec.RemoveEdgeIfStep | src/lib/bidirectional-graph.ts:429-440 | the same over all edges; the indices stay well-formed |
| GraphSpec.RemoveInEdgeIfStep | src/lib/bidirectional-graph.ts:442-453 | the intended `removeInEdgeIf`, collecting from the in-edges of `v`; the indices stay well-formed |
| GraphSpec.Flatten | src/lib/bidirectional-graph.ts:282-290 | `edges` has as many edges as the out-lists hold together |
| GraphProperties.FlattenHas | src/lib/bidirectional-graph.ts:282-290 | an edge is in `edges` exactly when it is in some vertex's out-list |
| GraphProperties.EdgesMatchCount | src/lib/bidirectional-graph.ts:278-290 | on a consistent graph `edges` has `edgeCount` edges, each filed in its own source's out-list |
| GraphProperties.AddVertexKeepsConsistent | src/lib/bidirectional-graph.ts:108-117 | `addVertex` keeps a graph consistent (and closed), answers true exactly for a new vertex and appends it to the vertex order; for a present vertex it changes nothing and fires nothing |
| GraphProperties.AddEdgeOutcome | src/lib/bidirectional-graph.ts:211-222 | `addEdge` throws exactly when the edge is not refused as parallel and an endpoint is missing; a refused edge answers false and changes nothing |
| GraphProperties.AddEdgeKeepsConsistent | src/lib/bidirectional-graph.ts:211-222 | an accepted edge between two vertices is appended to its source's out-list and its target's in-list; `edgeCount` grows by one; `edgeAdded` fires; it answers true and the graph stays consistent and closed |
| GraphProperties.AddEdgeToAbsentTargetBreaksCount | src/lib/bidirectional-graph.ts:217-218 | with an absent target, `addEdge` throws after growing the source's out-list, so `edgeCount` is one short of the lists |
| GraphProperties.RemoveVertexKeepsConsistent | src/lib/bidirectional-graph.ts:137-161 | `removeVertex` answers false exactly for an absent vertex; a false answer or an exception changes nothing; otherwise `v` leaves both indices, `edgeCount` drops by its out-degree, one `edgeRemoved` fires per out-edge and then `vertexRemoved`; the graph stays consistent |
| GraphProperties.RemoveVertexSucceedsWhenClosed | src/lib/bidirectional-graph.ts:137-161 | on a closed graph, removing a present vertex never throws |
| GraphProperties.RemoveEdgesChangeNothing | src/lib/bidirectional-graph.ts:240-248 | a run of `removeEdge`s changes nothing and fires nothing; it throws exactly when some edge's source is absent |
| GraphProperties.RemoveOutEdgeIfCountsMatches | src/lib/bidirectional-graph.ts:184-196 | `removeOutEdgeIf` changes nothing and answers the number of out-edges of `v` that match |
| GraphProperties.RemoveEdgeIfCountsMatches | src/lib/bidirectional-graph.ts:429-440 | `removeEdgeIf` changes nothing and answers the number of edges of the graph that match |
| GraphProperties.RemoveInEdgeIfCountsInEdges | src/lib/bidirectional-graph.ts:442-453 | the intended `removeInEdgeIf` changes nothing and answers the number of in-edges of `v` that match |
| GraphProperties.RemoveVerticesKeepConsistent | src/lib/bidirectional-graph.ts:178-180 | a run of `removeVertex`s keeps a graph consistent, whether or not one of them throws |
| GraphProperties.RemoveVertexIfKeepsConsistent | src/lib/bidirectional-graph.ts:171-182 | `removeVertexIf` keeps a graph consistent |
| GraphProperties.AddVertexRangeKeepsConsistent | src/lib/bidirectional-graph.ts:127-135 | `addVertexRange` keeps a graph consistent, and closed if it was |
| GraphProperties.AddVertexRangeCounts | src/lib/bidirectional-graph.ts:127-135 | `addVertexRange` answers the number of vertices it added |
| GraphProperties.AddVertexRangeAddsAll | src/lib/bidirectional-graph.ts:127-135 | every vertex of the range is in the graph afterwards |
| GraphProperties.AddVertexRangeFresh | src/lib/bidirectional-graph.ts:113-114 | every new vertex gets two empty lists, every existing list is kept, and `edgeCount` is unchanged |
| GraphProperties.AddVertexRangeAppends | src/lib/bidirectional-graph.ts:127-135 | distinct new vertices are appended to the vertex order as given |
| GraphProperties.AddVertexRangeKeepsVertices | src/lib/bidirectional-graph.ts:127-135 | no vertex is removed |
| GraphProperties.AddVerticesAndEdgeSucceeds | src/lib/bidirectional-graph.ts:397-401 | `addVerticesAndEdge` never throws, keeps the graph consistent (and closed), and leaves both endpoints in the graph |
| GraphProperties.AddVerticesAndEdgeRangeSucceeds | src/lib/bidirectional-graph.ts:403-411 | `addVerticesAndEdgeRange` never throws and keeps the graph consistent (and closed) |
| GraphProperties.ClearEmpties | src/lib/bidirectional-graph.ts:257-262 | `clear` leaves no vertex and no edge, fires `cleared`, and the graph is consistent and closed |
| GraphProperties.ClearOutEdgesKeepsLists | src/lib/bidirectional-graph.ts:198-205 | `clearOutEdges` of a vertex with out-edges lowers `edgeCount` by its out-degree but keeps every list, so the graph is no longer consistent |
| GraphProperties.ClearInEdgesFiresPerEdge | src/lib/bidirectional-graph.ts:418-427 | `clearInEdges` fires `edgeRemoved` for each in-edge up to the first whose source is absent, and throws there; without one it lowers `edgeCount` by the in-degree; the lists stay |
| GraphProperties.RemoveVertexLeavesDanglingEdge | src/lib/bidirectional-graph.ts:146-151 | on the graph 1 -> 2, `removeVertex(2)` keeps the edge in 1's out-list, so the graph is not closed and `removeVertex(1)` then throws |
| GraphProperties.RemoveInEdgeIfCountsOutEdges | src/lib/bidirectional-graph.ts:444 | on the graph 1 -> 2 with an always-true predicate, `removeInEdgeIf(2)` as written answers 0 although 2 has one in-edge; the intended definition answers 1 |
| Graphs.BidirectionalGraph.constructor | src/lib/bidirectional-graph.ts:45-54 | two new empty dictionaries, no edges and no notifications; the graph is consistent and closed |
| Graphs.BidirectionalGraph.ContainsVertex | src/lib/bidirectional-graph.ts:320-322 | true exactly when the vertex has an out-list |
| Graphs.BidirectionalGraph.Vertices | src/lib/bidirectional-graph.ts:308-310 | the vertices, each once, exactly those present |
| Graphs.BidirectionalGraph.VertexCount | src/lib/bidirectional-graph.ts:304-306 | the number of vertices |
| Graphs.BidirectionalGraph.IsVerticesEmpty | src/lib/bidirectional-graph.ts:300-302 | true exactly when there is no vertex |
| Graphs.BidirectionalGraph.IsEdgesEmpty | src/lib/bidirectional-graph.ts:296-298 | on a consistent graph, true exactly when `edges` is empty |
| Graphs.BidirectionalGraph.OutEdges | src/lib/bidirectional-graph.ts:350-352 | the out-list of a present vertex; nothing for an absent one |
| Graphs.BidirectionalGraph.InEdges | src/lib/bidirectional-graph.ts:72-74 | the in-list of a present vertex; nothing for an absent one |
| Graphs.BidirectionalGraph.OutDegree | src/lib/bidirectional-graph.ts:342-344 | the length of the out-list, 0 for an absent vertex |
| Graphs.BidirectionalGraph.InDegree | src/lib/bidirectional-graph.ts:68-70 | the length of the in-list, 0 for an absent vertex |
| Graphs.BidirectionalGraph.Degree | src/lib/bidirectional-graph.ts:93-95 | in-degree plus out-degree; 0 for an absent vertex of a well-shaped graph |
| Graphs.BidirectionalGraph.IsOutEdgesEmpty | src/lib/bidirectional-graph.ts:338-340 | true exactly when the vertex is absent or has no out-edge |
| Graphs.BidirectionalGraph.IsInEdgesEmpty | src/lib/bidirectional-graph.ts:64-66 | true exactly when the vertex is present and has no in-edge (false for an absent vertex) |
| Graphs.BidirectionalGraph.TryGetOutEdges | src/lib/bidirectional-graph.ts:354-363 | succeeds exactly for a present vertex, with its out-list |
| Graphs.BidirectionalGraph.TryGetInEdges | src/lib/bidirectional-graph.ts:76-87 | succeeds exactly for a vertex with an in-list, with that list |
| Graphs.BidirectionalGraph.OutEdge | src/lib/bidirectional-graph.ts:346-348 | the out-edge at `index` exactly when the index is in range, otherwise `undefined` |
| Graphs.BidirectionalGraph.InEdge | src/lib/bidirectional-graph.ts:89-91 | the in-edge at `index` exactly when the index is in range, otherwise `undefined` |
| Graphs.BidirectionalGraph.ContainsEdge | src/lib/bidirectional-graph.ts:312-318 | true exactly when the edge's source is present and its out-list holds the edge |
| Graphs.BidirectionalGraph.ContainsVertexEdge | src/lib/bidirectional-graph.ts:324-336 | true exactly when the source is present and one of its out-edges leads to the target |
| Graphs.BidirectionalGraph.TryGetVertexEdge | src/lib/bidirectional-graph.ts:365-378 | the first out-edge of the source that leads to the target, if the source is present |
| Graphs.BidirectionalGraph.TryGetVertexEdges | src/lib/bidirectional-graph.ts:380-395 | succeeds exactly for a present source, with its out-edges to the target, in order |
| Graphs.BidirectionalGraph.Edges | src/lib/bidirectional-graph.ts:282-290 | the out-lists concatenated in vertex order |
| Graphs.BidirectionalGraph.NewEdgeList | src/lib/bidirectional-graph.ts:113 | with a negative edge capacity, a new edge list is empty |
| Graphs.BidirectionalGraph.AddVertex | src/lib/bidirectional-graph.ts:108-117 | the new state, notifications and answer are those of `AddVertexStep` |
| Graphs.BidirectionalGraph.AddVertexRange | src/lib/bidirectional-graph.ts:127-135 | the new state, notifications and count are those of `AddVertexRangeStep` |
| Graphs.BidirectionalGraph.AddEdge | src/lib/bidirectional-graph.ts:211-222 | the new state, notifications and answer or exception are those of `AddEdgeStep` |
| Graphs.BidirectionalGraph.AddEdgeRange | src/lib/bidirectional-graph.ts:230-238 | the outcome of `AddEdgeRangeStep` |
| Graphs.BidirectionalGraph.AddVerticesAndEdge | src/lib/bidirectional-graph.ts:397-401 | the outcome of `AddVerticesAndEdgeStep` |
| Graphs.BidirectionalGraph.AddVerticesAndEdgeRange | src/lib/bidirectional-graph.ts:403-411 | the outcome of `AddVerticesAndEdgeRangeStep` |
| Graphs.BidirectionalGraph.EdgesToRemove | src/lib/bidirectional-graph.ts:141-151 | the first two loops of `removeVertex`: the out-list of `v` when every looked-up list exists, otherwise the exception |
| Graphs.BidirectionalGraph.DropVertex | src/lib/bidirectional-graph.ts:152-159 | the end of `removeVertex`: `v` leaves both dictionaries, `edgeCount` drops by the collected edges, and the collected `edgeRemoved` then `vertexRemoved` fire |
| Graphs.BidirectionalGraph.RemoveVertex | src/lib/bidirectional-graph.ts:137-161 | the outcome of `RemoveVertexStep` |
| Graphs.BidirectionalGraph.RemoveVertexIf | src/lib/bidirectional-graph.ts:171-182 | the outcome of `RemoveVertexIfStep` |
| Graphs.BidirectionalGraph.RemoveEdge | src/lib/bidirectional-graph.ts:240-248 | throws exactly when the source is absent, otherwise answers false; the graph is not modified |
| Graphs.BidirectionalGraph.RemoveEdges | src/lib/bidirectional-graph.ts:192-194 | the answer of `RemoveEdgesStep`; the graph is not modified |
| Graphs.BidirectionalGraph.RemoveOutEdgeIf | src/lib/bidirectional-graph.ts:184-196 | the answer of `RemoveOutEdgeIfStep`; the graph is not modified |
| Graphs.BidirectionalGraph.RemoveEdgeIf | src/lib/bidirectional-graph.ts:429-440 | the answer of `RemoveEdgeIfStep`; the graph is not modified |
| Graphs.BidirectionalGraph.RemoveInEdgeIf | src/lib/bidirectional-graph.ts:442-453 | as written: the answer of `RemoveOutEdgeIfStep`, since it collects from `outEdges(v)`; the graph is not modified |
| Graphs.BidirectionalGraph.CollectIf | src/lib/bidirectional-graph.ts:185-191 | the collecting loop keeps exactly the matching elements, in order |
| Graphs.BidirectionalGraph.ClearOutEdges | src/lib/bidirectional-graph.ts:198-205 | the outcome of `ClearOutEdgesStep` |
| Graphs.BidirectionalGraph.ClearInEdges | src/lib/bidirectional-graph.ts:418-427 | the outcome of `ClearInEdgesStep` |
| Graphs.BidirectionalGraph.ClearEdges | src/lib/bidirectional-graph.ts:413-416 | the outcome of `ClearEdgesStep` |
| Graphs.BidirectionalGraph.Clear | src/lib/bidirectional-graph.ts:257-262 | the outcome of `ClearStep` |
| Graphs.FiveDistinct | src/lib/algorithms/topological-sort/topological-sort.spec.ts:19 | the test's vertices A to E are distinct |
| Graphs.FiveLists | src/lib/algorithms/topological-sort/topological-sort.spec.ts:17-20 | a graph of A to E whose lists are all empty holds the five empty lists |
| Graphs.FiveVertices | src/lib/algorithms/topological-sort/topological-sort.spec.ts:17-20 | the test's `beforeEach`: `new BidirectionalGraph(false)`, with the default capacities of -1, and `addVertexRange` of the characters A to E give a graph whose vertices are A to E, in that order, with no edge and two empty lists per vertex, consistent and closed |
| GraphColors.Painted | src/lib/graph-color.ts:5-9 | painting a vertex a color other than White removes it from the White vertices, so the search's measure decreases |
| GraphColors.Initialized | src/lib/algorithms/search/depth-first-search-algorithm.ts:142-151 | the colors `initialize` leaves: exactly the vertices, each White |
| GraphColors.InitializedSnoc | src/lib/algorithms/search/depth-first-search-algorithm.ts:144-151 | one more vertex adds one more White entry |
| DfsSpec.Inits | src/lib/algorithms/search/depth-first-search-algorithm.ts:144-151 | one `initializeVertex` per vertex |
| DfsProperties.InitsAre | src/lib/algorithms/search/depth-first-search-algorithm.ts:144-151 | the i-th `initializeVertex` is for the i-th vertex |
| DfsSpec.TooDeep | src/lib/algorithms/search/depth-first-search-algorithm.ts:170-176 | never with the default `Number.MAX_VALUE`; otherwise exactly when the depth exceeds `maxDepth` |
| DfsSpec.Frames | src/lib/algorithms/search/depth-first-search-algorithm.ts:163-214 | the outer loop only appends notifications, and the only exception it ends with is the `backEdge` subscriber's |
| DfsSpec.Explore | src/lib/algorithms/search/depth-first-search-algorithm.ts:179-213 | the same for the inner loop |
| DfsSpec.Visit | src/lib/algorithms/search/depth-first-search-algorithm.ts:154-215 | the notifications grow by `discoverVertex(root)` and then only by appending; the only exception is the `backEdge` subscriber's |
| DfsSpec.Sweep | src/lib/algorithms/search/depth-first-search-algorithm.ts:121-136 | the rootless sweep only appends notifications, and the only exception is the `backEdge` subscriber's |
| DfsSpec.Run | src/lib/algorithms/search/depth-first-search-algorithm.ts:115-138 | with a root, the new notifications begin with its `startVertex` and `discoverVertex`; notifications are only appended; the only exception is the `backEdge` subscriber's |
| DepthFirstSearch.DepthFirstSearchAlgorithm.constructor | src/lib/algorithms/search/depth-first-search-algorithm.ts:36-43 | the given color map or an empty one, the given enumerator or the identity, no depth limit, no root, state `NotRunning` |
| DepthFirstSearch.DepthFirstSearchAlgorithm.GetVertexColor | src/lib/algorithms/search/depth-first-search-algorithm.ts:104-106 | the vertex's color exactly when it has one, `undefined` otherwise |
| DepthFirstSearch.DepthFirstSearchAlgorithm.SetMaxDepth | src/lib/algorithms/search/depth-first-search-algorithm.ts:111-113 | sets `maxDepth` and nothing else |
| DepthFirstSearch.DepthFirstSearchAlgorithm.SubscribeBackEdge | src/lib/algorithms/topological-sort/topological-sort-algorithm.ts:40 | a `backEdge` subscriber that throws the given exception is in place; nothing else changes |
| DepthFirstSearch.DepthFirstSearchAlgorithm.UnsubscribeBackEdge | src/lib/algorithms/topological-sort/topological-sort-algorithm.ts:46 | no `backEdge` subscriber is left; nothing else changes |
| DepthFirstSearch.DepthFirstSearchAlgorithm.Initialize | src/lib/algorithms/search/depth-first-search-algorithm.ts:140-152 | the colors become every vertex White, and one `initializeVertex` fires per vertex, in vertex order |
| DepthFirstSearch.DepthFirstSearchAlgorithm.Visit | src/lib/algorithms/search/depth-first-search-algorithm.ts:154-215 | the in-place frame-stack loops end with the colors, notifications and exception of `DfsSpec.Visit` |
| DepthFirstSearch.DepthFirstSearchAlgorithm.ExploreEdges | src/lib/algorithms/search/depth-first-search-algorithm.ts:179-213 | the inner loop ends where `DfsSpec.Explore` says, and either paints a vertex or shrinks the work left |
| DepthFirstSearch.DepthFirstSearchAlgorithm.InternalCompute | src/lib/algorithms/search/depth-first-search-algorithm.ts:115-138 | ends with the colors, notifications and exception of `DfsSpec.Run`: from the root if one is set, otherwise sweeping the vertices |
| DepthFirstSearch.DepthFirstSearchAlgorithm.SweepVertices | src/lib/algorithms/search/depth-first-search-algorithm.ts:121-136 | the rootless loop ends where `DfsSpec.Sweep` does |
| DepthFirstSearch.DepthFirstSearchAlgorithm.Compute | src/lib/algorithms/rooted-algorithm-base.ts:51-56 | sets the root if one is given, then runs `compute()`: the search result of `DfsSpec.Run` from `initialize`'s colors, and the base state machine's run or failing run |
| DepthFirstSearch.DepthFirstSearchAlgorithm.ComputeAll | src/lib/algorithms/algorithm-base.ts:68-77 | `compute()`: begin, initialize, the search as `DfsSpec.Run`, and end only when the search returns |
| DepthFirstSearch.DepthFirstSearchAlgorithm.InitializeAndSearch | src/lib/algorithms/search/depth-first-search-algorithm.ts:115-152 | `initialize` then `internalCompute` end where `DfsSpec.Run` from White colors does |
| DfsProperties.EdgeEvent | src/lib/algorithms/search/depth-first-search-algorithm.ts:189-209 | an edge notification changes neither the discovered, the finished nor the open vertices |
| DfsProperties.DiscoverStep | src/lib/algorithms/search/depth-first-search-algorithm.ts:157-158 | painting a White vertex Gray and discovering it keeps the colors in step with the log, and opens it on top |
| DfsProperties.FinishStep | src/lib/algorithms/search/depth-first-search-algorithm.ts:212-213 | painting the most recently opened vertex Black and finishing it keeps the colors in step with the log, and closes it |
| DfsProperties.ClassifiedAppend | src/lib/algorithms/search/depth-first-search-algorithm.ts:189-209 | appending to a classified log keeps every earlier entry classified |
| DfsProperties.ClassifiedSnoc | src/lib/algorithms/search/depth-first-search-algorithm.ts:189-209 | a notification that classifies nothing keeps the log classified |
| DfsProperties.ClassifiedBack | src/lib/algorithms/search/depth-first-search-algorithm.ts:203-205 | an examined edge to an open vertex, called a back edge, keeps the log classified |
| DfsProperties.ClassifiedForwardOrCross | src/lib/algorithms/search/depth-first-search-algorithm.ts:206-208 | an examined edge to a finished vertex, called forward-or-cross, keeps the log classified |
| DfsProperties.ClassifiedTree | src/lib/algorithms/search/depth-first-search-algorithm.ts:194-202 | an examined edge to an undiscovered vertex, called a tree edge and followed by its target's discovery, keeps the log classified |
| DfsProperties.GoodDiscover | src/lib/algorithms/search/depth-first-search-algorithm.ts:157-158 | discovering a White vertex keeps the search invariant and opens it |
| DfsProperties.GoodFinish | src/lib/algorithms/search/depth-first-search-algorithm.ts:212-213 | finishing the most recently opened vertex keeps the search invariant |
| DfsProperties.GoodTree | src/lib/algorithms/search/depth-first-search-algorithm.ts:194-202 | a tree edge to a White vertex keeps the search invariant and opens the target |
| DfsProperties.GoodBack | src/lib/algorithms/search/depth-first-search-algorithm.ts:203-205 | a back edge to a Gray vertex keeps the search invariant |
| DfsProperties.GoodForwardOrCross | src/lib/algorithms/search/depth-first-search-algorithm.ts:206-208 | a forward-or-cross edge to a Black vertex keeps the search invariant |
| DfsProperties.GoodExamine | src/lib/algorithms/search/depth-first-search-algorithm.ts:189 | examining an edge keeps the search invariant |
| DfsProperties.FramesGood | src/lib/algorithms/search/depth-first-search-algorithm.ts:163-214 | when the stack's vertices are the open ones, the outer loop ends with the invariant; a normal end leaves nothing open; the only exception is the `backEdge` subscriber's |
| DfsProperties.FinishGood | src/lib/algorithms/search/depth-first-search-algorithm.ts:212-214 | finishing the current vertex resumes the outer loop with the same guarantee |
| DfsProperties.ExploreGood | src/lib/algorithms/search/depth-first-search-algorithm.ts:179-213 | when the stack's vertices and the current one are the open ones, the inner loop ends with the same guarantee |
| DfsProperties.TreeGood | src/lib/algorithms/search/depth-first-search-algorithm.ts:194-202 | a tree edge pushes the frame and descends, with the same guarantee |
| DfsProperties.SkipGood | src/lib/algorithms/search/depth-first-search-algorithm.ts:203-209 | an edge to a vertex that is not White is classified and skipped, with the same guarantee |
| DfsProperties.GrowsTrans | src/lib/algorithms/search/depth-first-search-algorithm.ts:157-213 | "no vertex turns White or leaves Black, none loses its color" composes |
| DfsProperties.FramesDarken | src/lib/algorithms/search/depth-first-search-algorithm.ts:163-214 | the outer loop turns no vertex White again, keeps Black vertices Black and removes no color |
| DfsProperties.ExploreDarken | src/lib/algorithms/search/depth-first-search-algorithm.ts:179-213 | the same for the inner loop |
| DfsProperties.NothingOpen | src/lib/algorithms/search/depth-first-search-algorithm.ts:163 | once nothing is open, every discovered vertex is Black and none is Gray |
| DfsProperties.VisitGood | src/lib/algorithms/search/depth-first-search-algorithm.ts:154-215 | `visit` from a White root keeps the invariant; a normal return leaves nothing open and the root Black |
| DfsProperties.SweepGood | src/lib/algorithms/search/depth-first-search-algorithm.ts:121-136 | the rootless sweep keeps the invariant, and a normal return leaves no swept vertex White |
| DfsProperties.SweepBlack | src/lib/algorithms/search/depth-first-search-algorithm.ts:121-136 | a normal sweep leaves nothing open, every swept vertex Black and every discovered vertex Black |
| DfsProperties.InitsQuiet | src/lib/algorithms/search/depth-first-search-algorithm.ts:140-152 | `initialize` discovers, finishes, opens and classifies nothing |
| DfsProperties.InitializedGood | src/lib/algorithms/search/depth-first-search-algorithm.ts:140-152 | the state `initialize` leaves satisfies the invariant with nothing open |
| DfsProperties.RunGood | src/lib/algorithms/search/depth-first-search-algorithm.ts:115-215 | a whole search after `initialize`: discoveries and finishes nest like recursive calls (the path stack of depth-first-search-algorithm.spec.ts, lines 87-95, tracks exactly this); no vertex is discovered twice; every edge is classified by its target's color; the only exception is the `backEdge` subscriber's; a normal return leaves nothing open and every discovered vertex Black, including the root, or every vertex when there is no root |
| DfsProperties.StartGood | src/lib/algorithms/search/depth-first-search-algorithm.ts:117-119 | `startVertex(root)` then `visit(root)`: the invariant holds, and a normal return leaves the root and every discovered vertex Black |
| DfsProperties.VisitTooDeep | src/lib/algorithms/search/depth-first-search-algorithm.ts:171-176 | with a negative `maxDepth` the root is discovered and finished at once, and none of its edges is examined |
| DfsProperties.DepthZeroExample | src/lib/algorithms/search/depth-first-search-algorithm.ts:171-202 | with `maxDepth` 0 on 1 -> 2, 2 -> 3, 2 -> 4 from 1, vertex 3 at depth 2 is still discovered; 2's frame, popped at depth 1, is finished without examining 2 -> 4, so 4 stays White |
| DfsProperties.DepthZeroFromOne | src/lib/algorithms/search/depth-first-search-algorithm.ts:163-214 | the same example, from the root's frame |
| DfsProperties.DepthZeroFromTwo | src/lib/algorithms/search/depth-first-search-algorithm.ts:179-213 | the same example, from the tree edge 1 -> 2 on |
| DfsProperties.FramesKeys | src/lib/algorithms/search/depth-first-search-algorithm.ts:163-214 | the outer loop colors only vertices that are already colored |
| DfsProperties.ExploreKeys | src/lib/algorithms/search/depth-first-search-algorithm.ts:179-213 | the inner loop colors only vertices that are already colored |
| DfsProperties.SweepKeys | src/lib/algorithms/search/depth-first-search-algorithm.ts:121-136 | the sweep colors only vertices that are already colored |
| DfsProperties.RunKeys | src/lib/algorithms/search/depth-first-search-algorithm.ts:115-152 | after `compute()`, the colored vertices are the graph's and the root, if one is set |
| DfsFinishOrder.FinishOrderedSnoc | src/lib/algorithms/search/depth-first-search-algorithm.ts:212-213 | finishing a Gray vertex all of whose edges lead to Black vertices keeps every vertex finished after its targets, and none finished twice |
| DfsFinishOrder.FramesOrdered | src/lib/algorithms/search/depth-first-search-algorithm.ts:163-214 | the outer loop, returning normally, keeps the finish order |
| DfsFinishOrder.ExploreOrdered | src/lib/algorithms/search/depth-first-search-algorithm.ts:179-213 | the inner loop, returning normally, keeps the finish order |
| DfsFinishOrder.PopStep | src/lib/algorithms/search/depth-first-search-algorithm.ts:166-169 | popping the top frame of a stack that satisfies the outer loop's invariant resumes its vertex's remaining edges with the inner loop's invariant |
| DfsFinishOrder.FinishInv | src/lib/algorithms/search/depth-first-search-algorithm.ts:212-213 | finishing the current vertex restores the outer loop's invariant |
| DfsFinishOrder.TreeInv | src/lib/algorithms/search/depth-first-search-algorithm.ts:194-202 | a tree edge pushes the frame with its target as child and keeps the inner loop's invariant at the target |
| DfsFinishOrder.SkipInv | src/lib/algorithms/search/depth-first-search-algorithm.ts:203-209 | an edge to a Black or uncolored vertex keeps the inner loop's invariant |
| DfsFinishOrder.VisitOrdered | src/lib/algorithms/search/depth-first-search-algorithm.ts:154-215 | `visit` with no depth limit and a throwing `backEdge` subscriber, returning normally, keeps the finish order |
| DfsFinishOrder.SweepOrdered | src/lib/algorithms/search/depth-first-search-algorithm.ts:121-136 | the same for the rootless sweep |
| DfsFinishOrder.RunOrdered | src/lib/algorithms/search/depth-first-search-algorithm.ts:115-152 | a rootless search with no depth limit and a throwing `backEdge` subscriber, returning normally, finishes every vertex exactly once, each after every vertex it has an edge to |
| BfsSpec.Inits | src/lib/algorithms/search/breadth-first-search-algorithm.ts:135-138 | one `initializeVertex` per vertex |
| BfsProperties.InitsAre | src/lib/algorithms/search/breadth-first-search-algorithm.ts:135-138 | the i-th `initializeVertex` is for the i-th vertex |
| BfsSpec.Flush | src/lib/algorithms/search/breadth-first-search-algorithm.ts:166-197 | the queue loop ends with the queue empty and only appends notifications |
| BfsSpec.Scan | src/lib/algorithms/search/breadth-first-search-algorithm.ts:175-195 | the `for` loop, handing back to the queue loop, also ends with the queue empty and only appends |
| BfsSpec.EnqueueRoot | src/lib/algorithms/search/breadth-first-search-algorithm.ts:157-164 | the root turns Gray, every other color is kept, the root joins the back of the queue, and `startVertex` then `discoverVertex` fire |
| BfsSpec.Visit | src/lib/algorithms/search/breadth-first-search-algorithm.ts:153-156 | the notifications grow by `startVertex(root)` and `discoverVertex(root)`, then only by appending, and the queue ends empty |
| BfsSpec.Run | src/lib/algorithms/search/breadth-first-search-algorithm.ts:141-152 | an empty graph changes nothing; otherwise the queue ends empty, and with a root its `startVertex` and `discoverVertex` come first; notifications are only appended |
| BreadthFirstSearch.BreadthFirstSearchAlgorithm.constructor | src/lib/algorithms/search/breadth-first-search-algorithm.ts:41-50 | the given queue or a new empty one, the given color map or an empty one, the given enumerator or the identity; no root, state `NotRunning` |
| BreadthFirstSearch.BreadthFirstSearchAlgorithm.GetVertexColor | src/lib/algorithms/search/breadth-first-search-algorithm.ts:123-125 | the vertex's color exactly when it has one, `undefined` otherwise |
| BreadthFirstSearch.BreadthFirstSearchAlgorithm.Initialize | src/lib/algorithms/search/breadth-first-search-algorithm.ts:127-139 | every vertex White and one `initializeVertex` per vertex, in order; the queue is untouched |
| BreadthFirstSearch.BreadthFirstSearchAlgorithm.EnqueueRoot | src/lib/algorithms/search/breadth-first-search-algorithm.ts:157-164 | `startVertex`, the root painted Gray, `discoverVertex`, and the root enqueued |
| BreadthFirstSearch.BreadthFirstSearchAlgorithm.FlushVisitQueue | src/lib/algorithms/search/breadth-first-search-algorithm.ts:166-197 | the in-place queue loop ends with the colors, queue and notifications of `BfsSpec.Flush` |
| BreadthFirstSearch.BreadthFirstSearchAlgorithm.ExamineOutEdges | src/lib/algorithms/search/breadth-first-search-algorithm.ts:175-195 | the `for` loop and the finish of `u` end where `BfsSpec.Scan` hands back, and `u` turns from White or the queue is unchanged |
| BreadthFirstSearch.BreadthFirstSearchAlgorithm.Visit | src/lib/algorithms/search/breadth-first-search-algorithm.ts:153-156 | ends where `BfsSpec.Visit` does |
| BreadthFirstSearch.BreadthFirstSearchAlgorithm.InternalCompute | src/lib/algorithms/search/breadth-first-search-algorithm.ts:141-152 | ends where `BfsSpec.Run` does: nothing on an empty graph, otherwise the root enqueued if set, then the queue flushed |
| BreadthFirstSearch.BreadthFirstSearchAlgorithm.Compute | src/lib/algorithms/rooted-algorithm-base.ts:51-56 | sets the root if one is given, then `compute()`: the outcome of `BfsSpec.Run` from `initialize`'s colors, and the base state machine's normal run |
| BreadthFirstSearch.BreadthFirstSearchAlgorithm.ComputeAll | src/lib/algorithms/algorithm-base.ts:68-77 | begin, initialize, the search as `BfsSpec.Run`, end |
| BreadthFirstSearch.BreadthFirstSearchAlgorithm.InitializeAndSearch | src/lib/algorithms/search/breadth-first-search-algorithm.ts:127-152 | `initialize` then `internalCompute` end where `BfsSpec.Run` from White colors does |
| BfsProperties.PathSnoc | src/lib/algorithms/search/breadth-first-search-algorithm.ts:175-176 | a walk along out-edges extends by one more out-edge |
| BfsProperties.DequeueStep | src/lib/algorithms/search/breadth-first-search-algorithm.ts:172-175 | dequeuing the head starts the scan of its out-edges with the loop invariant in place |
| BfsProperties.FinishStep | src/lib/algorithms/search/breadth-first-search-algorithm.ts:194-195 | once all out-edges are examined, painting `u` Black restores the queue loop's invariant: no Black vertex has an edge to a White one |
| BfsProperties.TreeStep | src/lib/algorithms/search/breadth-first-search-algorithm.ts:179-183 | a White target painted Gray and enqueued keeps the invariant; it is reachable from the root |
| BfsProperties.ExaminedGray | src/lib/algorithms/search/breadth-first-search-algorithm.ts:179-183 | the edges examined so far still lead to no White vertex once the target turns Gray |
| BfsProperties.SkipStep | src/lib/algorithms/search/breadth-first-search-algorithm.ts:184-191 | a Gray or Black target changes neither colors nor queue and keeps the invariant |
| BfsProperties.FlushKeeps | src/lib/algorithms/search/breadth-first-search-algorithm.ts:169-196 | the queue loop keeps the invariant and ends with the queue empty |
| BfsProperties.ScanKeeps | src/lib/algorithms/search/breadth-first-search-algorithm.ts:175-195 | the `for` loop keeps the invariant and hands back to the queue loop |
| BfsProperties.WalkStaysBlack | src/lib/algorithms/search/breadth-first-search-algorithm.ts:169-196 | with nothing Gray and no Black-to-White edge, every walk from a Black vertex ends at a Black vertex |
| BfsProperties.RunFromRoot | src/lib/algorithms/search/breadth-first-search-algorithm.ts:141-197 | `compute(r)` with an empty queue: on an empty graph nothing happens; otherwise the queue ends empty, the colored vertices are the graph's and the root, and a vertex ends Black exactly when a walk leads to it from the root, White exactly when none does |
| BfsProperties.RootStarts | src/lib/algorithms/search/breadth-first-search-algorithm.ts:157-164 | the enqueued root on White colors satisfies the queue loop's invariant |
| BfsProperties.BlackIffReachable | src/lib/algorithms/search/breadth-first-search-algorithm.ts:169 | with the queue empty and the root colored, Black means reachable from the root and White means unreachable |
| BfsProperties.ColoredStaysColored | src/lib/algorithms/search/breadth-first-search-algorithm.ts:169-196 | the queue loop never turns a colored vertex White again |
| BfsProperties.ScanColored | src/lib/algorithms/search/breadth-first-search-algorithm.ts:175-195 | the `for` loop never turns a colored vertex White again |
| BfsProperties.RunWithoutRoot | src/lib/algorithms/search/breadth-first-search-algorithm.ts:146-151 | `compute()` without a root and with an empty queue visits nothing |
| TopologicalSort.Reverse | src/lib/algorithms/topological-sort/topological-sort-algorithm.ts:30-32 | reversal keeps the length |
| TopologicalSort.TopologicalSortAlgorithm.constructor | src/lib/algorithms/topological-sort/topological-sort-algorithm.ts:16-19 | its own host, the given array or an empty one, `allowCyclicGraph` false, state `NotRunning` |
| TopologicalSort.TopologicalSortAlgorithm.SortedVertices | src/lib/algorithms/topological-sort/topological-sort-algorithm.ts:21-23 | the `vertices` array itself |
| TopologicalSort.TopologicalSortAlgorithm.BackEdge | src/lib/algorithms/topological-sort/topological-sort-algorithm.ts:25-29 | throws `Non Acyclic Graph` unless cyclic graphs are allowed, so it always throws |
| TopologicalSort.TopologicalSortAlgorithm.FinishVertex | src/lib/algorithms/topological-sort/topological-sort-algorithm.ts:30-32 | the vertex is put first in `vertices` |
| TopologicalSort.TopologicalSortAlgorithm.InternalCompute | src/lib/algorithms/topological-sort/topological-sort-algorithm.ts:34-49 | `vertices` gains the finished vertices of the sort's search, last finished first, and the search's exception is thrown on; the sort's own state is unchanged |
| TopologicalSort.TopologicalSortAlgorithm.ReplayFinishes | src/lib/algorithms/topological-sort/topological-sort-algorithm.ts:41 | running the `finishVertex` handler over a search's notifications prepends the finished vertices in reverse finishing order |
| TopologicalSort.TopologicalSortAlgorithm.Compute | src/lib/algorithms/topological-sort/topological-sort-algorithm.ts:51-57 | `vertices` is emptied, then becomes the reverse of the finishing order; the sort's state and notifications are those of a normal or a failing run, depending on the search's result |
| TopologicalSort.SharedCancelManager | src/lib/algorithms/topological-sort/topological-sort-algorithm.ts:35-39 | the sort and its search, whose host is the sort, get the same cancel manager, which is not cancelling |
| TopologicalSort.SortIsTopological | src/lib/algorithms/topological-sort/topological-sort-algorithm.ts:30-49 | the sort's search throws only `Non Acyclic Graph`; when it returns, the sorted vertices are exactly the graph's vertices, each once, and every edge leads from an earlier vertex to a later one |
| TopologicalSort.FinishedAreVertices | src/lib/algorithms/topological-sort/topological-sort-algorithm.ts:35-44 | the sort's search finishes only vertices of the graph |
| TopologicalSort.ForwardEdges | src/lib/algorithms/topological-sort/topological-sort-algorithm.ts:30-32 | reversing a finish order in which each vertex finishes after its targets makes every edge point forward |
| TopologicalSortExample.FromA | src/lib/algorithms/topological-sort/topological-sort.spec.ts:23-28 | on the test's graph, the search from A finishes D, B, C, A in that order and leaves E White |
| TopologicalSortExample.FromE | src/lib/algorithms/topological-sort/topological-sort.spec.ts:22-28 | E, still White, is discovered and finished at once |
| TopologicalSortExample.Sweeping | src/lib/algorithms/topological-sort/topological-sort.spec.ts:22-28 | the sweep over A to E grows a tree from A, then one from E |
| TopologicalSortExample.LettersSearch | src/lib/algorithms/topological-sort/topological-sort.spec.ts:22-28 | the sort's search on the test's graph returns normally with all five vertices Black |
| TopologicalSortExample.LettersFinish | src/lib/algorithms/topological-sort/topological-sort.spec.ts:22-28 | the test's search finishes D, B, C, A, E in that order |
| TopologicalSortExample.SortsLetters | src/lib/algorithms/topological-sort/topological-sort.spec.ts:27-29 | the test's expectation: the search returns and the sorted vertices are E, A, C, B, D |
| TopologicalSortExample.SortTestGraph | src/lib/algorithms/topological-sort/topological-sort.spec.ts:22-30 | `compute()` of a sort over a graph holding the test's out-edges returns normally with `sortedVertices` E, A, C, B, D |
| TopologicalSortExample.AddTestEdge | src/lib/algorithms/topological-sort/topological-sort.spec.ts:23-25 | `addEdge` of an edge between two present vertices, the source having no edge to that target yet, is accepted and appends the edge to the source's out-list, keeping both key orders |
| TopologicalSortExample.EdgesFromA | src/lib/algorithms/topological-sort/topological-sort.spec.ts:23-24 | the test's first two `addEdge` calls are accepted and give A the out-list A -> B, A -> C |
| TopologicalSortExample.EdgeFromB | src/lib/algorithms/topological-sort/topological-sort.spec.ts:25 | the third call is accepted and leaves the test's out-edge index |
| TopologicalSortExample.SortTest | src/lib/algorithms/topological-sort/topological-sort.spec.ts:17-30 | the whole test: the `beforeEach` graph, three accepted `addEdge` calls, and a sort that returns normally with E, A, C, B, D |

## Left out

- Subjects and subscribers: an rxjs subject is modelled as a log of what it emitted. Arbitrary subscribers are not modelled. The one exception is the depth-first search's `backEdge` subscriber, which may throw a given exception. That exception is modelled as propagating synchronously out of `next`, as the topological sort relies on; rxjs's own error reporting is not modelled.
- TopologicalSort.TopologicalSortAlgorithm.InternalCompute: the `finishVertex` handler is run over the search's log once the search has returned, not during the search. The handler only prepends, so `vertices` ends the same.
- Aliasing: the color map passed to a search and the array passed to the sort's `compute` are values. A caller's reference to them does not see the updates.
- TopologicalSort.SortIsTopological: the converse is not proved. The model does not show that an acyclic graph never makes the sort throw. That needs "a back edge closes a cycle": the open (Gray) vertices lie on one path of tree edges, so an edge to one of them closes a cycle. The search invariant records which vertices are open, not the tree edges between them.
- Cancellation: `CancelManager.cancel` and `resetCancel` are stubs in the source, and `cancelling` is always 0. So the `isCancelling` early returns of the searches never happen, and the model does not include them.
- `trimEdgeExcess` always throws "Method not implemented"; it is not modelled as a member. Nor is `vertexCapacity`, which no operation reads.
- Edges are compared by value (Dafny equality), not by object identity. Two `Edge` objects with the same ends are one edge here.
- Graphs.BidirectionalGraph.constructor: only the default `edgeCapacity` of -1 and the default `EqualityComparer` (strict equality) are modelled. Custom vertex comparers and a non-negative edge capacity, whose new lists would start with holes, are not.
- BfsProperties.RunFromRoot: the reachability theorem assumes that the vertex queue starts empty. A caller-supplied queue that already holds vertices is modelled by `BfsSpec.Run`, but no theorem is proved for it.
- The iterator extensions under src/lib/ext (for example `toArray` on iterators) are modelled as sequences.
- `Number.MAX_VALUE` as the default `maxDepth` is modelled as "no limit" (`None`).
- JavaScript truthiness checks (`if (rootVertex)`, `if (!service)`) are modelled with `Option`. A falsy root vertex such as 0 or the empty string counts as given here, whereas the source would ignore it.
- Comparers.CompareIsSymmetric: values compare by Dafny equality, which is reflexive. NaN is not modelled: under `===`, `compare(NaN, NaN)` is 1.
- EqualityComparers.EqualsIsEquivalence: reflexivity holds for Dafny equality but not for `===` on NaN. So `containsVertexEdge` with a NaN target answers false even when that edge exists, while the `Map` lookups, which use SameValueZero, do find a NaN vertex. NaN is not modelled.
- Integer widths: counts and depths are unbounded integers. JavaScript numbers are doubles, but no count in the model comes near 2^53.

## Findings

| source | as written | input that shows it | evidently intended | confidence | as-written member | corrected member |
|---|---|---|---|---|---|---|
| src/lib/bidirectional-graph.ts:444 | `removeInEdgeIf(v, p)` collects the matching edges from `this.outEdges(v)` | the graph 1 -> 2, `removeInEdgeIf(2, () => true)` answers 0, although vertex 2 has one in-edge | collect from `this.inEdges(v)`, answering how many in-edges match | not executed | GraphProperties.RemoveInEdgeIfCountsOutEdges | GraphProperties.RemoveInEdgeIfCountsInEdges |
| src/lib/edge-list.ts:23-25 | `clone()` is `new EdgeList(...this)`, which binds only the first edge to the single `args` parameter; the constructor then falls through to `super()` | a list holding one edge clones to an empty list | a new list with the same edges, that is `new EdgeList([...this])` | not executed | EdgeLists.CloneLosesEdges | EdgeLists.CloneKeepsEdges |
| src/lib/collections/queue.ts:37 | `toArray()` is `new Array(...this.entries)`; the `Array` constructor reads a single numeric argument as a length | a queue holding only the number 3 gives an array of three holes; one holding only 0.5 throws `RangeError` | a copy of the entries, `[...this.entries]` | not executed | Queues.ToArrayLosesEntry | Queues.Queue.ToArray |
