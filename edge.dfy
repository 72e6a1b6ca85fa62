/**
  `Edge<TVertex>` (src/lib/edge.ts): a directed edge, an immutable pair of
  endpoints. The library compares edges by reference; the model compares them
  by value.
 */
module Edges {

  datatype Edge<V> = Edge(source: V, target: V)

  /** The default out-edge enumerator of the searches, `(e) => e`. */
  function Identity<V>(es: seq<Edge<V>>): seq<Edge<V>> {
    es
  }
}
