/**
  `EqualityComparer<T>` (src/lib/equality-comparer.ts): strict equality and a
  constant hash code.
 */
module EqualityComparers {

  datatype EqualityComparer = EqualityComparer {

    /** `equals(x, y)` is `x === y`. */
    predicate Equals<T(==)>(x: T, y: T)
    {
      x == y
    }

    /** `getHashCode` answers 0 for every value. */
    function GetHashCode<T>(v: T): (h: int)
      ensures h == 0
    {
      0
    }
  }

  /** `equals` is reflexive, symmetric and transitive. */
  lemma EqualsIsEquivalence<T>(c: EqualityComparer, x: T, y: T, z: T)
    ensures c.Equals(x, x)
    ensures c.Equals(x, y) <==> c.Equals(y, x)
    ensures c.Equals(x, y) && c.Equals(y, z) ==> c.Equals(x, z)
  {
  }

  /** Equal values have equal hash codes, as a hash-based container needs. */
  lemma EqualsAgreesWithHashCode<T>(c: EqualityComparer, x: T, y: T)
    ensures c.Equals(x, y) ==> c.GetHashCode(x) == c.GetHashCode(y)
  {
  }
}
