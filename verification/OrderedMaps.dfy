/** JavaScript's `Map`: lookup by key plus iteration in insertion order. */
module OrderedMaps {
  import opened Sequences

  datatype OrderedMap<K(==, !new), V> = OrderedMap(keys: seq<K>, vals: map<K, V>) {

    ghost predicate Valid() {
      && NoDuplicates(keys)
      && forall k :: k in keys <==> k in vals
    }

    /** `Map.prototype.set`: an existing key keeps its place in the iteration order. */
    function Set(k: K, v: V): (m: OrderedMap<K, V>)
      ensures m.vals == vals[k := v]
      ensures Valid() ==> m.Valid()
    {
      OrderedMap(if k in vals then keys else keys + [k], vals[k := v])
    }

    /** Keeps the entries whose key is in S; `Map.prototype.delete` is the case that leaves one key out. */
    function Restrict(S: set<K>): (m: OrderedMap<K, V>)
      ensures m.vals.Keys == vals.Keys * S
      ensures forall k :: k in m.vals ==> m.vals[k] == vals[k]
      ensures Valid() ==> m.Valid()
    {
      assert Valid() ==> NoDuplicates(Keep(keys, S)) by {
        if Valid() { KeepNoDuplicates(keys, S); }
      }
      OrderedMap(Keep(keys, S), map k | k in vals && k in S :: vals[k])
    }
  }

  function Empty<K(==, !new), V>(): OrderedMap<K, V> {
    OrderedMap([], map[])
  }

  /** A map has as many keys as entries. */
  lemma KeysAreMany<K(!new), V>(m: OrderedMap<K, V>)
    requires m.Valid()
    ensures |m.keys| == |m.vals.Keys|
  {
    NoDuplicatesCardinality(m.keys);
    assert Elements(m.keys) == m.vals.Keys;
  }
}
