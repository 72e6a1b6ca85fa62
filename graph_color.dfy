/** `GraphColor` (src/lib/graph-color.ts): the colors of vertex-coloring
    searches, and the facts about color maps both searches share. */
module GraphColors {

  datatype GraphColor = White | Gray | Black

  /** The White vertices; a search ends because this set shrinks. */
  function Whites<V>(colors: map<V, GraphColor>): set<V> {
    set v | v in colors && colors[v] == White
  }

  /** Painting a vertex any other color removes it from the White ones. */
  lemma Painted<V>(colors: map<V, GraphColor>, v: V, c: GraphColor)
    requires c != White
    ensures Whites(colors[v := c]) == Whites(colors) - {v}
    ensures v in Whites(colors) ==> |Whites(colors[v := c])| == |Whites(colors)| - 1
    ensures |Whites(colors[v := c])| <= |Whites(colors)|
  {
  }

  /** The colors `initialize` leaves: every vertex White and nothing else. */
  function Initialized<V>(vs: seq<V>): (colors: map<V, GraphColor>)
    ensures colors.Keys == set v | v in vs
    ensures forall v | v in colors :: colors[v] == White
  {
    map v | v in vs :: White
  }

  /** One more vertex colors one more vertex White. */
  lemma InitializedSnoc<V>(vs: seq<V>, v: V)
    ensures Initialized(vs + [v]) == Initialized(vs)[v := White]
  {
  }
}
