/**
  `RootedAlgorithmBase<TVertex, TGraph>` (src/lib/algorithms/rooted-algorithm-base.ts):
  the optional root vertex of a search, with change notification. The class
  holds only what it adds to `AlgorithmBase`; an algorithm holds one of each.
  `compute(rootVertex?)` is run by each search itself: it sets the root, if
  one is given, before the base `compute`.
 */
module RootedAlgorithms {
  import opened Wrappers
  import Comparers

  /** What `setRootVertex(r)` leaves and whether it fires `rootVertexChanged`. */
  datatype RootChange<V> = RootChange(root: Option<V>, changed: bool)

  /** `setRootVertex` (lines 30-37): the default comparer tells whether the
      new root differs from the previous one, `undefined` included. */
  function SetRootStep<V(==)>(root: Option<V>, r: V): (c: RootChange<V>)
    ensures c.root == Some(r)
    ensures c.changed <==> root != Some(r)
  {
    RootChange(Some(r), Comparers.GetDefaultComparer(r).Compare(root, Some(r)) != 0)
  }

  /** Setting the same root twice notifies at most once. */
  lemma SetSameRootTwice<V>(root: Option<V>, r: V)
    ensures !SetRootStep(SetRootStep(root, r).root, r).changed
  {
  }

  class RootedAlgorithmBase<V(==)> {
    var rootVertex: Option<V>
    var hasRootVertex: bool
    /** How often `rootVertexChanged` has fired. */
    ghost var rootVertexChanges: nat

    ghost predicate Valid()
      reads this
    {
      hasRootVertex <==> rootVertex.Some?
    }

    constructor ()
      ensures Valid() && rootVertex == None && !hasRootVertex && rootVertexChanges == 0
    {
      rootVertex := None;
      hasRootVertex := false;
      rootVertexChanges := 0;
    }

    /** `tryGetRootVertex` succeeds exactly when a root is set, with the root
        set last. */
    function TryGetRootVertex(): (r: Option<V>)
      requires Valid()
      reads this
      ensures r.Some? <==> hasRootVertex
      ensures r == rootVertex
    {
      if hasRootVertex then Some(rootVertex.value) else None
    }

    method SetRootVertex(r: V)
      requires Valid()
      modifies this
      ensures Valid()
      ensures var c := SetRootStep(old(rootVertex), r);
        rootVertex == c.root && hasRootVertex
        && rootVertexChanges == old(rootVertexChanges) + if c.changed then 1 else 0
    {
      var changed := Comparers.GetDefaultComparer(r).Compare(rootVertex, Some(r)) != 0;
      rootVertex := Some(r);
      if changed {
        rootVertexChanges := rootVertexChanges + 1;
      }
      hasRootVertex := true;
    }

    method ClearRootVertex()
      modifies this
      ensures Valid() && TryGetRootVertex().None?
      ensures rootVertex == None && rootVertexChanges == old(rootVertexChanges)
    {
      rootVertex := None;
      hasRootVertex := false;
    }
  }
}
