/** Coupling of the two structures and the bound on the size, over every sequence of calls. */
module CacheInvariant {
  import opened Sequences
  import opened OrderedMaps
  import opened ReferenceCaches

  lemma RestrictCoupled(x: Contents, S: set<Key>)
    requires x.Coupled()
    ensures x.Restrict(S).Coupled()
  {
    KeepNoDuplicates(x.accessOrder, S);
  }

  lemma RestrictToAll(x: Contents)
    requires x.Coupled()
    ensures x.Restrict(x.Keys()) == x
  {
    KeepAll(x.accessOrder, x.Keys());
    KeepAll(x.cache.keys, x.Keys());
  }

  lemma {:induction false} StoreCoupled(x: Contents, k: Key, e: Entry)
    requires x.Coupled()
    ensures x.Store(k, e).Coupled()
    ensures x.Store(k, e).cache.vals == x.cache.vals[k := e]
    ensures x.Store(k, e).Size() == if k in x.cache.vals then x.Size() else x.Size() + 1
  {
    KeepNoDuplicates(x.accessOrder, x.Keys() - {k});
    assert k !in Keep(x.accessOrder, x.Keys() - {k});
  }

  lemma SizeIsOrderLength(x: Contents)
    requires x.Coupled()
    ensures x.Size() == |x.accessOrder|
  {
    NoDuplicatesCardinality(x.accessOrder);
    NoDuplicatesCardinality(x.cache.keys);
    assert Elements(x.accessOrder) == Elements(x.cache.keys);
  }

  /** The victim is the front of the access order, and exactly it leaves. */
  lemma EvictCoupled(x: Contents)
    requires x.Coupled()
    ensures x.EvictLRU().Coupled()
    ensures x.accessOrder == [] ==> x.Size() == 0 && x.EvictLRU() == x
    ensures x.accessOrder != [] ==>
      && x.EvictLRU().Size() == x.Size() - 1
      && x.EvictLRU().accessOrder == x.accessOrder[1..]
      && x.EvictLRU().Keys() == x.Keys() - {x.accessOrder[0]}
  {
    SizeIsOrderLength(x);
    if x.accessOrder != [] {
      var k := x.accessOrder[0];
      var S := x.Keys() - {k};
      RestrictCoupled(x, S);
      SpliceIsKeep(x.accessOrder, 0, S);
      assert Keep(x.accessOrder, S) == x.accessOrder[1..];
      SizeIsOrderLength(x.Restrict(S));
    }
  }

  lemma {:induction false} SetInvariant(c: Config, x: Contents, k: Key, e: Entry)
    requires x.Coupled()
    ensures x.MakeRoom(c, k).Coupled()
    ensures x.MakeRoom(c, k).Store(k, e).Coupled()
    ensures x.MakeRoom(c, k).Store(k, e).Size() ==
      if k in x.cache.vals || (x.Size() >= c.maxSize && x.Size() > 0) then x.Size() else x.Size() + 1
  {
    SizeIsOrderLength(x);
    EvictCoupled(x);
    StoreCoupled(x.MakeRoom(c, k), k, e);
  }

  /** Every call keeps the map and the access order about the same keys, and never grows past the capacity. */
  lemma {:induction false} NextKeepsInvariant(c: Config, s: State, op: Op)
    requires s.contents.Coupled()
    ensures Next(c, s, op).contents.Coupled()
    ensures Next(c, s, op).contents.Size() <= if s.contents.Size() < c.Capacity() then c.Capacity() else s.contents.Size()
  {
    var x := s.contents;
    match op
    case Get(k, now) =>
      RestrictCoupled(x, x.Keys() - {k});
      if k in x.cache.vals {
        StoreCoupled(x, k, x.cache.vals[k].Bump());
      }
    case Set(k, refs, now) => SetInvariant(c, x, k, Entry(refs, now, 0, c.detectorVersion));
    case Has(k, now) => RestrictCoupled(x, x.Keys() - {k});
    case Delete(k) => RestrictCoupled(x, x.Keys() - {k});
    case Prune(now) => RestrictCoupled(x, x.Keys() - x.StaleKeys(c, now));
    case Clear =>
  }

  lemma {:induction false} RunKeepsInvariant(c: Config, s: State, ops: seq<Op>)
    requires s.contents.Coupled()
    ensures RunFrom(c, s, ops).contents.Coupled()
    ensures RunFrom(c, s, ops).contents.Size() <= if s.contents.Size() < c.Capacity() then c.Capacity() else s.contents.Size()
  {
    if ops != [] {
      RunKeepsInvariant(c, s, Prefix(ops));
      NextKeepsInvariant(c, RunFrom(c, s, Prefix(ops)), Last(ops));
    }
  }
}
