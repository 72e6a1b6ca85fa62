/**
  `Queue<T>` (src/lib/collections/queue.ts): a FIFO over an array that grows
  by `push` at the tail and shrinks by `splice(0, 1)` at the head.
 */
module Queues {
  import opened Wrappers
  import Lists

  class Queue<T(==)> {
    /** The `entries` array, oldest first. */
    var entries: seq<T>

    constructor ()
      ensures entries == []
    {
      entries := [];
    }

    function Count(): (n: nat)
      reads this
      ensures n == |entries|
    {
      |entries|
    }

    /** `contains(v)`: some entry is strictly equal to `v`. */
    function Contains(value: T): (b: bool)
      reads this
      ensures b <==> exists i :: 0 <= i < |entries| && entries[i] == value
    {
      Lists.IndexOf(entries, value) > -1
    }

    /** `enqueue` appends at the tail. */
    method Enqueue(value: T)
      modifies this
      ensures entries == old(entries) + [value]
    {
      entries := entries + [value];
    }

    /** `peek`: the head, or `undefined` for an empty queue. */
    function Peek(): (r: Option<T>)
      reads this
      ensures r.None? <==> entries == []
      ensures r.Some? ==> r.value == entries[0]
    {
      if |entries| > 0 then Some(entries[0]) else None
    }

    /** `dequeue`: removes and returns the head; on an empty queue it returns
        `undefined` and changes nothing. */
    method Dequeue() returns (r: Option<T>)
      modifies this
      ensures old(entries) == [] ==> r.None? && entries == []
      ensures old(entries) != [] ==> r == Some(old(entries)[0]) && entries == old(entries)[1..]
    {
      r := Peek();
      if |entries| > 0 {
        entries := entries[1..];
      }
    }

    /** `toArray`: a copy of the entries, oldest first. */
    function ToArray(): (r: seq<T>)
      reads this
      ensures |r| == Count()
      ensures forall i :: 0 <= i < |r| ==> r[i] == entries[i]
    {
      entries
    }
  }

  // ----------------------------------------------------- `toArray` as written

  /* `toArray` returns `new Array(...this.entries)`. The `Array` constructor
     reads a single numeric argument as a length, so a queue whose only entry
     is a number `n` yields `n` empty slots, or a RangeError when `n` is not a
     valid length. The functions below model that call on entries that may be
     numbers; `Queue.ToArray` above is the copy `[...this.entries]` that the
     method evidently intends. */

  /** A value as the `Array` constructor sees it: a finite number, or any
      other value. */
  datatype Value<T> = Number(x: real) | Other(v: T)

  /** A slot of a JavaScript array: empty, or holding a value. */
  datatype Slot<T> = Hole | Item(value: T)

  /** An integer in [0, 2^32), the lengths `new Array(n)` accepts. */
  predicate IsArrayLength(x: real) {
    x.Floor as real == x && 0.0 <= x < 4294967296.0
  }

  /** The slots of an array whose elements are `s`, in order. */
  function Items<T>(s: seq<T>): (r: seq<Slot<T>>)
    ensures |r| == |s| && forall i | 0 <= i < |s| :: r[i] == Item(s[i])
  {
    seq(|s|, i requires 0 <= i < |s| => Item(s[i]))
  }

  /** `new Array(...args)`: one numeric argument is a length, giving that
      many holes or throwing; any other argument list becomes the elements. */
  function NewArray<T>(args: seq<Value<T>>): (r: Result<seq<Slot<Value<T>>>>)
    ensures |args| == 1 && args[0].Number? ==>
      (r.Success? <==> IsArrayLength(args[0].x))
      && (r.Success? ==> |r.value| == args[0].x.Floor && forall i | 0 <= i < |r.value| :: r.value[i] == Hole)
      && (r.Failure? ==> r.error == InvalidArrayLength)
    ensures !(|args| == 1 && args[0].Number?) ==> r == Success(Items(args))
  {
    if |args| == 1 && args[0].Number? then
      if IsArrayLength(args[0].x) then Success(seq(args[0].x.Floor, i => Hole)) else Failure(InvalidArrayLength)
    else Success(Items(args))
  }

  /** `toArray()` as written, on the entries of a queue. */
  function ToArrayAsWritten<T>(entries: seq<Value<T>>): (r: Result<seq<Slot<Value<T>>>>)
    ensures !(|entries| == 1 && entries[0].Number?) ==> r == Success(Items(entries))
  {
    NewArray(entries)
  }

  /** The input that shows it: a queue holding only the number 3 gives
      three holes and loses its entry; one holding only 0.5 throws. */
  lemma ToArrayLosesEntry<T>()
    ensures ToArrayAsWritten<T>([Number(3.0)]) == Success([Hole, Hole, Hole])
    ensures ToArrayAsWritten<T>([Number(0.5)]) == Failure(InvalidArrayLength)
  {
    assert IsArrayLength(3.0) by { assert (3.0).Floor == 3; }
    var three: seq<Slot<Value<T>>> := seq(3, i => Hole);
    assert three == [Hole, Hole, Hole];
    assert !IsArrayLength(0.5) by { assert (0.5).Floor == 0; }
  }

  /** Where the pitfall does not arise, the call as written gives the same
      elements as the intended copy. */
  lemma ToArrayAsWrittenAgrees<T>(q: Queue<Value<T>>)
    requires !(|q.entries| == 1 && q.entries[0].Number?)
    ensures ToArrayAsWritten(q.entries) == Success(Items(q.ToArray()))
  {
  }

  /** The library's queue tests (queue.spec.ts, lines 9-46), with `a`, `b`
      and `c` for the strings 'a', 'b' and 'c': the counts after enqueuing
      and dequeuing one entry; and, on a queue holding `a` then `b`, what
      `contains`, `peek`, `count`, `toArray` and `dequeue` answer. */
  method QueueTests<T(==)>(a: T, b: T, c: T)
      returns (counts: seq<nat>, hasB: bool, hasC: bool, peeked: Option<T>, count: nat, entries: seq<T>, dequeued: Option<T>)
    requires c != a && c != b
    ensures counts == [0, 1, 0]
    ensures hasB && !hasC
    ensures peeked == Some(a) && count == 2
    ensures entries == [a, b]
    ensures dequeued == Some(a)
  {
    var single := new Queue<T>();
    counts := [single.Count()];
    single.Enqueue(a);
    counts := counts + [single.Count()];
    var _ := single.Dequeue();
    counts := counts + [single.Count()];

    var q := new Queue<T>();
    q.Enqueue(a);
    q.Enqueue(b);
    hasB, hasC := q.Contains(b), q.Contains(c);
    peeked, count := q.Peek(), q.Count();
    entries := q.ToArray();
    dequeued := q.Dequeue();
  }
}
