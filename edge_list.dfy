/**
  `EdgeList` (src/lib/edge-list.ts): a `List` of edges whose constructor only
  selects which `Array` constructor to call, and its `clone`.

  An `Array` built with a non-negative length `n` has `n` empty slots (holes);
  a list is therefore modelled as a sequence of slots.
 */
module EdgeLists {

  datatype Slot<E> = Hole | Item(edge: E)

  /** What the constructor can receive. `EdgeValue` is an edge object passed
      where the declared parameter is `number | TEdge[]`, which is what
      `clone` does by spreading the list into the argument list. */
  datatype Argument<E> =
    | Omitted              // `new EdgeList()`
    | Edges(edges: seq<E>) // an array of edges
    | Capacity(n: int)     // a number
    | EdgeValue(e: E)      // a single edge object

  /** The edges held by a list, holes skipped, in index order. */
  function Present<E>(s: seq<Slot<E>>): (r: seq<E>)
    ensures |r| <= |s|
  {
    if s == [] then []
    else (if s[0].Item? then [s[0].edge] else []) + Present(s[1..])
  }

  /** The list that `new EdgeList(args)` produces. */
  function Construct<E>(args: Argument<E>): (r: seq<Slot<E>>)
    ensures args.Edges? ==> |r| == |args.edges| && forall i | 0 <= i < |r| :: r[i] == Item(args.edges[i])
    ensures args.Capacity? && args.n >= 0 ==> |r| == args.n && forall i | 0 <= i < |r| :: r[i] == Hole
    ensures !args.Edges? && !(args.Capacity? && args.n >= 0) ==> r == []
  {
    match args
    case Omitted => []
    case Edges(edges) => seq(|edges|, i requires 0 <= i < |edges| => Item(edges[i]))
    case Capacity(n) => if n >= 0 then Holes(n) else []
    // `args >= 0` compares an object with a number: NaN, hence false
    case EdgeValue(_) => []
  }

  lemma {:induction false} PresentOfItems<E>(edges: seq<E>)
    ensures Present(seq(|edges|, i requires 0 <= i < |edges| => Item(edges[i]))) == edges
  {
    if edges != [] {
      var s := seq(|edges|, i requires 0 <= i < |edges| => Item(edges[i]));
      assert s[1..] == seq(|edges[1..]|, i requires 0 <= i < |edges[1..]| => Item(edges[1..][i]));
      PresentOfItems(edges[1..]);
    }
  }

  /** `n` empty slots. */
  function Holes<E>(n: nat): (r: seq<Slot<E>>)
  {
    seq(n, i => Hole)
  }

  lemma {:induction false} PresentOfHoles<E>(n: nat)
    ensures Present(Holes<E>(n)) == []
  {
    if n > 0 {
      assert Holes<E>(n)[1..] == Holes<E>(n - 1);
      PresentOfHoles<E>(n - 1);
    }
  }

  /** The constructor's four branches: no argument gives an empty list, an
      array gives exactly its edges in order and no holes, a non-negative
      capacity `n` gives `n` holes, and a negative one (the graph's default
      edge capacity of -1) an empty list. */
  lemma ConstructBranches<E>(args: Argument<E>)
    ensures args.Omitted? ==> Construct(args) == []
    ensures args.Edges? ==>
      |Construct(args)| == |args.edges| && Present(Construct(args)) == args.edges
    ensures args.Capacity? && args.n >= 0 ==>
      |Construct(args)| == args.n && Present(Construct(args)) == []
    ensures args.Capacity? && args.n < 0 ==> Construct(args) == []
  {
    match args
    case Edges(edges) => PresentOfItems(edges);
    case Capacity(n) => if n >= 0 { PresentOfHoles<E>(n); }
    case _ =>
  }

  /** `clone()` as written: `new EdgeList(...this)` binds only the first
      element to the constructor's single parameter (`undefined` for an empty
      list or a leading hole, an edge object otherwise). Whatever the list
      holds, the clone is empty. */
  function CloneAsWritten<E>(s: seq<Slot<E>>): (r: seq<Slot<E>>)
    ensures r == []
  {
    Construct(if s == [] || s[0].Hole? then Omitted else EdgeValue(s[0].edge))
  }

  /** The input that shows it: a one-edge list clones to an empty list. */
  lemma CloneLosesEdges<E>(e: E)
    ensures Present([Item(e)]) == [e]
    ensures Present(CloneAsWritten([Item(e)])) == []
  {
    assert [Item(e)][1..] == [];
  }

  /** `clone()` as evidently intended: a new list with the same edges. */
  function Clone<E>(s: seq<Slot<E>>): (r: seq<Slot<E>>)
    ensures |r| == |Present(s)| && forall i | 0 <= i < |r| :: r[i] == Item(Present(s)[i])
  {
    Construct(Edges(Present(s)))
  }

  /** The intended clone keeps every edge, in order, and adds no hole. */
  lemma CloneKeepsEdges<E>(s: seq<Slot<E>>)
    ensures Present(Clone(s)) == Present(s)
    ensures |Clone(s)| == |Present(s)|
  {
    ConstructBranches(Edges(Present(s)));
  }
}
