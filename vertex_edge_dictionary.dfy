/**
  `VertexEdgeDictionary` (src/lib/vertex-edge-dictionary.ts): a JavaScript
  `Map` from vertices to edge lists, with `add`, `remove`, `containsKey`,
  `tryGetValue`, `count` and `clone` on top of the built-in operations.

  A JavaScript `Map` remembers the order in which its keys were first
  inserted; `OrderedMap` is its value and the operations below are those of
  `Map.prototype` that the library relies on.
 */
module Dictionaries {
  import opened Wrappers

  /** Distinct elements: no element occurs again after its first place. */
  ghost predicate Distinct<K>(s: seq<K>) {
    s == [] || (s[0] !in s[1..] && Distinct(s[1..]))
  }

  lemma {:induction false} DistinctSnoc<K>(s: seq<K>, x: K)
    requires Distinct(s) && x !in s
    ensures Distinct(s + [x])
  {
    if s != [] {
      assert (s + [x])[1..] == s[1..] + [x];
      DistinctSnoc(s[1..], x);
    }
  }

  /** An insertion-ordered map: `keys` lists the keys in insertion order. */
  datatype OrderedMap<K, L> = OrderedMap(keys: seq<K>, values: map<K, L>) {
    ghost predicate Valid() {
      && Distinct(keys)
      && (forall k | k in values :: k in keys)
      && (forall i | 0 <= i < |keys| :: keys[i] in values)
    }
  }

  function Empty<K, L>(): (m: OrderedMap<K, L>)
    ensures m.Valid()
  {
    OrderedMap([], map[])
  }

  /** `Map.prototype.get`: `undefined` (None) for an absent key. */
  function Get<K(==), L>(m: OrderedMap<K, L>, k: K): (r: Option<L>)
    ensures r.Some? <==> k in m.values
    ensures r.Some? ==> r.value == m.values[k]
  {
    if k in m.values then Some(m.values[k]) else None
  }

  /** `s` without `k`, order kept. */
  function Without<K(==)>(s: seq<K>, k: K): (r: seq<K>)
    ensures forall x | x in r :: x in s && x != k
    ensures forall x | x in s && x != k :: x in r
    ensures |r| <= |s|
  {
    if s == [] then []
    else (if s[0] == k then [] else [s[0]]) + Without(s[1..], k)
  }

  lemma {:induction false} WithoutDistinct<K>(s: seq<K>, k: K)
    requires Distinct(s)
    ensures Distinct(Without(s, k))
    ensures k in s ==> |Without(s, k)| == |s| - 1
    ensures k !in s ==> Without(s, k) == s
  {
    if s != [] {
      WithoutDistinct(s[1..], k);
      if s[0] != k {
        assert s == [s[0]] + s[1..];
        assert ([s[0]] + Without(s[1..], k))[1..] == Without(s[1..], k);
        assert k in s ==> k in s[1..] by {
          if k in s {
            var i :| 0 <= i < |s| && s[i] == k;
            assert s[1..][i - 1] == k;
          }
        }
      } else {
        assert Without(s, k) == Without(s[1..], k);
      }
    }
  }

  /** The recursive definition of `Distinct` agrees with the pairwise one. */
  lemma {:induction false} DistinctIndices<K>(s: seq<K>)
    ensures Distinct(s) <==> forall i, j | 0 <= i < j < |s| :: s[i] != s[j]
  {
    if s != [] {
      DistinctIndices(s[1..]);
      if Distinct(s) {
        forall i, j | 0 <= i < j < |s| ensures s[i] != s[j] {
          assert s[j] == s[1..][j - 1];
          if i > 0 {
            assert s[i] == s[1..][i - 1];
          }
        }
      }
      if forall i, j | 0 <= i < j < |s| :: s[i] != s[j] {
        forall i, j | 0 <= i < j < |s[1..]| ensures s[1..][i] != s[1..][j] {
          assert s[1..][i] == s[i + 1] && s[1..][j] == s[j + 1];
        }
        assert s[0] !in s[1..] by {
          forall j | 0 <= j < |s[1..]| ensures s[1..][j] != s[0] {
            assert s[1..][j] == s[j + 1];
          }
        }
      }
    }
  }

  /** `Map.prototype.set`: an existing key keeps its place, a new key goes last. */
  function Insert<K(==), L>(m: OrderedMap<K, L>, k: K, v: L): (r: OrderedMap<K, L>)
    requires m.Valid()
    ensures r.Valid()
    ensures r.values == m.values[k := v]
    ensures r.keys == if k in m.values then m.keys else m.keys + [k]
  {
    if k in m.values then OrderedMap(m.keys, m.values[k := v])
    else
      DistinctSnoc(m.keys, k);
      OrderedMap(m.keys + [k], m.values[k := v])
  }

  /** What `add` does to the map: a present key keeps its old value. */
  function AddEntry<K(==), L>(m: OrderedMap<K, L>, k: K, v: L): (r: OrderedMap<K, L>)
    requires m.Valid()
    ensures r.Valid()
    ensures k in m.values ==> r == m
    ensures k !in m.values ==> r.keys == m.keys + [k] && r.values == m.values[k := v]
  {
    if k in m.values then m else Insert(m, k, v)
  }

  /** `Map.prototype.delete`. */
  function Delete<K(==), L>(m: OrderedMap<K, L>, k: K): (r: OrderedMap<K, L>)
    requires m.Valid()
    ensures r.Valid()
    ensures r.values == m.values - {k}
    ensures r.keys == Without(m.keys, k)
    ensures k !in m.values ==> r == m
  {
    WithoutDistinct(m.keys, k);
    var r := OrderedMap(Without(m.keys, k), m.values - {k});
    assert r.Valid() by {
      forall i | 0 <= i < |r.keys| ensures r.keys[i] in r.values {
        assert r.keys[i] in m.keys;
      }
    }
    r
  }

  /** The elements of `s`, as a set. */
  ghost function Elements<K>(s: seq<K>): (r: set<K>)
    ensures forall x | x in r :: x in s
    ensures forall i | 0 <= i < |s| :: s[i] in r
  {
    if s == [] then {} else {s[0]} + Elements(s[1..])
  }

  lemma {:induction false} DistinctElements<K>(s: seq<K>)
    requires Distinct(s)
    ensures |Elements(s)| == |s|
  {
    if s != [] {
      DistinctElements(s[1..]);
    }
  }

  /** The number of keys of a valid map is the length of its key order. */
  lemma SizeIsKeyCount<K, L>(m: OrderedMap<K, L>)
    requires m.Valid()
    ensures |m.values| == |m.keys|
  {
    DistinctElements(m.keys);
    assert m.values.Keys == Elements(m.keys) by {
      forall x | x in Elements(m.keys) ensures x in m.values {
        var i :| 0 <= i < |m.keys| && m.keys[i] == x;
      }
    }
  }

  /** Two valid maps with the same key order, one agreeing with the other on
      its keys, are equal. */
  lemma SameKeysSameMap<K, L>(a: OrderedMap<K, L>, b: OrderedMap<K, L>)
    requires a.Valid() && b.Valid() && a.keys == b.keys
    requires forall k | k in a.values :: k in b.values && a.values[k] == b.values[k]
    ensures a == b
  {
    assert a.values.Keys == b.values.Keys by {
      forall k | k in b.values ensures k in a.values {
        var j :| 0 <= j < |b.keys| && b.keys[j] == k;
        assert a.keys[j] == k;
      }
    }
  }

  class VertexEdgeDictionary<K(==), L> {
    /** Stored and passed on by `clone`, otherwise unused. */
    const vertexCapacity: int
    var entries: OrderedMap<K, L>

    ghost predicate Valid()
      reads this
    {
      entries.Valid()
    }

    constructor (vertexCapacity: int)
      ensures Valid() && entries == Empty() && this.vertexCapacity == vertexCapacity
    {
      this.vertexCapacity := vertexCapacity;
      entries := Empty();
    }

    /** `count` is the map's `size`, the number of keys. */
    function Count(): (n: nat)
      reads this
      requires Valid()
      ensures n == |entries.values|
    {
      SizeIsKeyCount(entries);
      |entries.keys|
    }

    function ContainsKey(key: K): (b: bool)
      reads this
      ensures b <==> key in entries.values
    {
      key in entries.values
    }

    /** `add` on a present key answers false and keeps the old value;
        otherwise it inserts the pair at the end of the key order. */
    method Add(key: K, value: L) returns (added: bool)
      requires Valid()
      modifies this
      ensures Valid()
      ensures added <==> key !in old(entries.values)
      ensures entries == AddEntry(old(entries), key, value)
    {
      if ContainsKey(key) {
        return false;
      }
      entries := Insert(entries, key, value);
      return true;
    }

    /** `Map.prototype.set`, inherited. The graph grows a stored edge list in
        place; with lists held by value that is a `set` of the grown list. */
    method Set(key: K, value: L)
      requires Valid()
      modifies this
      ensures Valid()
      ensures entries == Insert(old(entries), key, value)
    {
      entries := Insert(entries, key, value);
    }

    /** `Map.prototype.clear`, inherited. */
    method Clear()
      modifies this
      ensures Valid()
      ensures entries == Empty()
    {
      entries := Empty();
    }

    /** `remove` deletes the key and answers whether it was present. */
    method Remove(key: K) returns (removed: bool)
      requires Valid()
      modifies this
      ensures Valid()
      ensures removed <==> key in old(entries.values)
      ensures entries == Delete(old(entries), key)
    {
      removed := key in entries.values;
      entries := Delete(entries, key);
    }

    /** `tryGetValue` succeeds exactly for a contained key, with its value. */
    function TryGetValue(v: K): (r: Option<L>)
      reads this
      ensures r.Some? <==> ContainsKey(v)
      ensures r.Some? ==> r.value == entries.values[v]
    {
      Get(entries, v)
    }

    /** `clone` adds every entry, in order, to a new dictionary: same keys in
        the same order, the very same values. */
    method Clone() returns (d: VertexEdgeDictionary<K, L>)
      requires Valid()
      ensures fresh(d) && d.Valid()
      ensures d.entries == entries && d.vertexCapacity == vertexCapacity
    {
      d := new VertexEdgeDictionary(vertexCapacity);
      var i := 0;
      while i < |entries.keys|
        invariant fresh(d)
        invariant 0 <= i <= |entries.keys|
        invariant d.Valid() && d.vertexCapacity == vertexCapacity
        invariant d.entries.keys == entries.keys[..i]
        invariant forall k | k in d.entries.values :: k in entries.values && d.entries.values[k] == entries.values[k]
      {
        var k := entries.keys[i];
        assert k !in d.entries.values by {
          DistinctIndices(entries.keys);
          forall j | 0 <= j < i ensures entries.keys[j] != k { }
        }
        ghost var before := d.entries;
        var added := d.Add(k, entries.values[k]);
        assert d.entries.keys == before.keys + [k];
        assert entries.keys[..i + 1] == entries.keys[..i] + [k];
        i := i + 1;
      }
      SameKeysSameMap(d.entries, entries);
    }
  }
}
