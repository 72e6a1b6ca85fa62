/**
  `Comparer<T>` and `getDefaultComparer` (src/lib/collections/comparer.ts):
  an "ordering" that only tells equal from different.
 */
module Comparers {

  datatype Comparer = Comparer {

    /** `compare(x, y)` is 0 when `x === y` and 1 otherwise. */
    function Compare<T(==)>(x: T, y: T): (r: int)
      ensures r == 0 || r == 1
      ensures r == 0 <==> x == y
    {
      if x == y then 0 else 1
    }
  }

  /** `getDefaultComparer(obj)` ignores `obj` and returns a plain `Comparer`. */
  function GetDefaultComparer<T>(obj: T): (c: Comparer)
    ensures c == Comparer
  {
    Comparer
  }

  /** Not an order: `compare` is symmetric, so no two different values are
      ever ranked one before the other. */
  lemma CompareIsSymmetric<T>(x: T, y: T)
    ensures Comparer().Compare(x, y) == Comparer().Compare(y, x)
    ensures Comparer().Compare(x, x) == 0
  {
  }
}
