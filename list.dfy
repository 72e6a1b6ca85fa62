/**
  `List<T>` (src/lib/list.ts): an `Array` subclass whose `add` pushes in place
  and whose `remove`, `clear` and `trimExcess` are empty stubs.
 */
module Lists {

  /** JavaScript's `Array.prototype.indexOf` under strict equality: the first
      index holding `v`, or -1 when there is none. */
  function IndexOf<T(==)>(s: seq<T>, v: T): (i: int)
    ensures -1 <= i < |s|
    ensures i == -1 <==> v !in s
    ensures 0 <= i ==> s[i] == v && v !in s[..i]
  {
    if s == [] then -1
    else if s[0] == v then 0
    else
      var k := IndexOf(s[1..], v);
      assert s[1..][..if k < 0 then 0 else k] == s[1..if k < 0 then 1 else k + 1];
      if k == -1 then -1 else k + 1
  }

  class List<T(==)> {
    /** The array's elements, in index order. */
    var items: seq<T>

    constructor ()
      ensures items == []
    {
      items := [];
    }

    /** `count` is the array's `length`. */
    function Count(): (n: nat)
      reads this
      ensures n == |items|
    {
      |items|
    }

    /** `add(v)` pushes `v` and reports whether the list held exactly one
        element afterwards, that is, whether it was empty before. */
    method Add(v: T) returns (wasEmpty: bool)
      modifies this
      ensures items == old(items) + [v]
      ensures wasEmpty <==> old(items) == []
    {
      items := items + [v];
      wasEmpty := |items| == 1;
    }

    /** `remove` is a stub: it never removes anything and always answers false. */
    method Remove(v: T) returns (removed: bool)
      ensures !removed
      ensures unchanged(this)
    {
      removed := false;
    }

    /** `clear` is a stub with an empty body. */
    method Clear()
      ensures unchanged(this)
    {
    }

    /** `contains(v)` is `indexOf(v) > -1`. */
    function Contains(v: T): (b: bool)
      reads this
      ensures b <==> exists i :: 0 <= i < |items| && items[i] == v
    {
      IndexOf(items, v) > -1
    }

    /** `trimExcess` is a stub with an empty body. */
    method TrimExcess()
      ensures unchanged(this)
    {
    }
  }
}
