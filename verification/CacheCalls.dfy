/** What single calls answer and leave behind, key by key, in every reachable cache. */
module CacheCalls {
  import opened Wrappers
  import opened Sequences
  import opened OrderedMaps
  import opened ReferenceCaches
  import opened CacheInvariant

  /** k is resident in both or in neither, with the same entry. */
  ghost predicate SameKey(x: Contents, y: Contents, k: Key) {
    && (k in y.cache.vals <==> k in x.cache.vals)
    && (k in x.cache.vals ==> y.cache.vals[k] == x.cache.vals[k])
  }

  /** All keys but one are as they were, in both structures and in their order. */
  ghost predicate OnlyTouches(x: Contents, y: Contents, k: Key) {
    && (forall other :: other != k ==> SameKey(x, y, other))
    && Keep(y.accessOrder, y.Keys() - {k}) == Keep(x.accessOrder, x.Keys() - {k})
  }

  /** The entry is stored, of the cache's version, and no older than its lifetime. */
  predicate Usable(c: Config, x: Contents, k: Key, now: int) {
    && k in x.cache.vals
    && x.cache.vals[k].detectorVersion == c.detectorVersion
    && now - x.cache.vals[k].timestamp <= c.ttl
  }

  /** Whatever the two structures hold, restored data of mixed versions for example, only a usable entry is found. */
  lemma LookUpAnswers(c: Config, x: Contents, k: Key, now: int)
    ensures Reply(c, x, Get(k, now)) == if Usable(c, x, k, now) then Found(x.cache.vals[k].references) else Missed
    ensures Reply(c, x, Has(k, now)) == Flag(Usable(c, x, k, now))
  {
  }

  lemma TouchesByWithout(x: Contents, k: Key)
    requires x.Coupled()
    ensures OnlyTouches(x, x.Without(k), k)
  {
    var S := x.Keys() - {k};
    KeepKeep(x.accessOrder, S, x.Without(k).Keys() - {k});
    assert S * (x.Without(k).Keys() - {k}) == S;
  }

  lemma MovedToEnd(order: seq<Key>, S: set<Key>, k: Key)
    requires k !in S
    ensures Keep(Keep(order, S) + [k], S) == Keep(order, S)
  {
    KeepAppend(Keep(order, S), k, S);
    KeepKeep(order, S, S);
    assert S * S == S && Keep(order, S) + [] == Keep(order, S);
  }

  lemma SameByStore(x: Contents, k: Key, e: Entry, other: Key)
    requires other != k
    ensures SameKey(x, x.Store(k, e), other)
  {
  }

  lemma OrderByStore(x: Contents, k: Key, e: Entry)
    ensures Keep(x.Store(k, e).accessOrder, x.Store(k, e).Keys() - {k}) == Keep(x.accessOrder, x.Keys() - {k})
  {
    var S, y := x.Keys() - {k}, x.Store(k, e);
    assert y.accessOrder == Keep(x.accessOrder, S) + [k] && y.Keys() - {k} == S;
    hide *;
    MovedToEnd(x.accessOrder, S, k);
    assert Keep(y.accessOrder, y.Keys() - {k}) == Keep(x.accessOrder, S);
  }

  lemma TouchesByStore(x: Contents, k: Key, e: Entry)
    ensures OnlyTouches(x, x.Store(k, e), k)
  {
    OrderByStore(x, k, e);
    forall other | other != k ensures SameKey(x, x.Store(k, e), other) { SameByStore(x, k, e, other); }
    hide SameKey;
    hide Contents.Store;
    hide Keep;
    assert OnlyTouches(x, x.Store(k, e), k);
  }

  /**
    A look-up finds the key exactly when it is usable. Afterwards the key is resident exactly when it was found: a
    stale entry is gone. No other key is touched.
  */
  lemma {:induction false} LookUpLeaves(c: Config, ops: seq<Op>, k: Key, now: int)
    ensures var s := Run(c, ops);
      var got, had := Next(c, s, Get(k, now)).contents, Next(c, s, Has(k, now)).contents;
      && (Reply(c, s.contents, Get(k, now)) ==
            (if Usable(c, s.contents, k, now) then Found(s.contents.cache.vals[k].references) else Missed))
      && Reply(c, s.contents, Has(k, now)) == Flag(Usable(c, s.contents, k, now))
      && (k in got.cache.vals <==> Usable(c, s.contents, k, now))
      && (k in had.cache.vals <==> Usable(c, s.contents, k, now))
      && OnlyTouches(s.contents, got, k) && OnlyTouches(s.contents, had, k)
      && (Usable(c, s.contents, k, now) ==> had == s.contents)
  {
    var x := Run(c, ops).contents;
    RunKeepsInvariant(c, EMPTY, ops);
    LookUpAnswers(c, x, k, now);
    TouchesByWithout(x, k);
    if x.Live(c, k, now) { TouchesByStore(x, k, x.cache.vals[k].Bump()); }
    hide RunFrom;
    hide Contents.Coupled;
    hide Keep;
  }

  /** A hit counts on the entry and in the cache, and moves the key to the end; a miss counts in the cache only. */
  lemma LookUpCounts(c: Config, s: State, k: Key, now: int)
    ensures var s' := Next(c, s, Get(k, now));
      if Usable(c, s.contents, k, now) then
        && var e, order := s.contents.cache.vals[k], s'.contents.accessOrder;
        && k in s'.contents.cache.vals
        && s'.contents.cache.vals[k] == Entry(e.references, e.timestamp, e.hitCount + 1, e.detectorVersion)
        && order != [] && order[|order| - 1] == k
        && s'.totalHits == s.totalHits + 1 && s'.totalMisses == s.totalMisses
      else s'.totalHits == s.totalHits && s'.totalMisses == s.totalMisses + 1
    ensures var s' := Next(c, s, Has(k, now)); (s'.totalHits, s'.totalMisses) == (s.totalHits, s.totalMisses)
  {
    hide Keep;
  }

  lemma NewKeyOrder(z: Contents, k: Key, e: Entry)
    requires z.Coupled() && k !in z.cache.vals
    ensures z.Store(k, e).accessOrder == z.accessOrder + [k]
  {
    assert forall other :: other in z.accessOrder ==> other in z.Keys() - {k};
    KeepAll(z.accessOrder, z.Keys() - {k});
    hide Keep;
  }

  lemma EvictedSame(x: Contents, other: Key)
    requires x.accessOrder != [] && other != x.accessOrder[0]
    ensures SameKey(x, x.EvictLRU(), other)
  {
    hide Keep;
  }

  /** A store that evicts: the front key leaves, the new key joins at the end, every other key keeps its place. */
  lemma StoreAfterEviction(x: Contents, k: Key, e: Entry)
    requires x.Coupled() && k !in x.cache.vals && x.accessOrder != []
    ensures var y, victim := x.EvictLRU().Store(k, e), x.accessOrder[0];
      && y.accessOrder == x.accessOrder[1..] + [k] && victim !in y.cache.vals
      && forall other :: other != k && other != victim ==> SameKey(x, y, other)
  {
    var z, victim := x.EvictLRU(), x.accessOrder[0];
    EvictCoupled(x);
    assert victim in x.cache.vals && victim !in z.Keys() && k !in z.Keys();
    forall other | other != k ensures SameKey(z, z.Store(k, e), other) { SameByStore(z, k, e, other); }
    forall other | other != victim ensures SameKey(x, z, other) { EvictedSame(x, other); }
    hide Contents.EvictLRU;
    hide Contents.Store;
    NewKeyOrder(z, k, e);
    hide Contents.Coupled;
  }

  /**
    A store leaves a new entry at the end of the order. It evicts only for a new key in a full cache, and then the key
    at the front; it touches no other.
  */
  lemma {:induction false} SetLeaves(c: Config, ops: seq<Op>, k: Key, refs: seq<Reference>, now: int)
    ensures var s, s' := Run(c, ops), Next(c, Run(c, ops), Set(k, refs, now));
      var x, y := s.contents, s'.contents;
      && k in y.cache.vals && y.cache.vals[k] == Entry(refs, now, 0, c.detectorVersion)
      && y.accessOrder != [] && y.accessOrder[|y.accessOrder| - 1] == k
      && (s'.totalHits, s'.totalMisses) == (s.totalHits, s.totalMisses)
      && (if k !in x.cache.vals && x.Size() >= c.maxSize && x.accessOrder != [] then
            && y.accessOrder == x.accessOrder[1..] + [k] && x.accessOrder[0] !in y.cache.vals
            && forall other :: other != k && other != x.accessOrder[0] ==> SameKey(x, y, other)
          else OnlyTouches(x, y, k))
  {
    var x, e := Run(c, ops).contents, Entry(refs, now, 0, c.detectorVersion);
    RunKeepsInvariant(c, EMPTY, ops);
    TouchesByStore(x, k, e);
    if k !in x.cache.vals && x.accessOrder != [] { StoreAfterEviction(x, k, e); }
    hide RunFrom;
    hide Contents.Coupled;
    hide Keep;
    hide OnlyTouches;
    hide SameKey;
  }

  lemma WithoutSize(x: Contents, k: Key)
    requires x.Coupled()
    ensures x.Without(k).Size() == if k in x.cache.vals then x.Size() - 1 else x.Size()
    ensures k !in x.Without(k).cache.vals && k !in x.Without(k).accessOrder
  {
    var S := x.Keys();
    var y := x.Without(k);
    assert y.cache.Valid() && y.cache.vals.Keys == S - {k};
    hide *;
    KeysAreMany(x.cache);
    KeysAreMany(y.cache);
    if k !in S { assert S - {k} == S; }
  }

  /** `delete` answers whether the map has lost a key, which is the given one; no other key is touched. */
  lemma {:induction false} DeleteTells(c: Config, ops: seq<Op>, k: Key)
    ensures var x, y := Run(c, ops).contents, Next(c, Run(c, ops), Delete(k)).contents;
      && k !in y.cache.vals && k !in y.accessOrder && OnlyTouches(x, y, k)
      && Reply(c, x, Delete(k)) == Flag(y.Size() < x.Size())
      && y.Size() == if k in x.cache.vals then x.Size() - 1 else x.Size()
  {
    var x := Run(c, ops).contents;
    RunKeepsInvariant(c, EMPTY, ops);
    TouchesByWithout(x, k);
    WithoutSize(x, k);
    assert Next(c, Run(c, ops), Delete(k)).contents == x.Without(k);
    hide *;
  }
}
