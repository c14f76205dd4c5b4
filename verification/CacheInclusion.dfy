/** LRU inclusion: what a small cache holds and returns, a larger one under the same calls holds and returns too. */
module CacheInclusion {
  import opened Sequences
  import opened OrderedMaps
  import opened ReferenceCaches
  import opened CacheInvariant

  /** The small cache's contents, in recency order, are those of the large one with some keys left out. */
  ghost predicate Inside(small: Contents, large: Contents) {
    && small.Coupled() && large.Coupled()
    && Part(small.cache.vals, small.accessOrder, large.cache.vals, large.accessOrder)
  }

  ghost predicate Part(small: map<Key, Entry>, order: seq<Key>, large: map<Key, Entry>, largeOrder: seq<Key>) {
    && small.Keys <= large.Keys
    && (forall k :: k in small ==> small[k] == large[k])
    && order == Keep(largeOrder, small.Keys)
  }

  /** The large cache never fills up before the small one. */
  ghost predicate Slack(m: Config, small: Contents, M: Config, large: Contents) {
    M.Capacity() - large.Size() >= m.Capacity() - small.Size()
  }

  ghost predicate FewerHits(small: State, large: State) {
    && small.totalHits <= large.totalHits
    && small.totalHits + small.totalMisses == large.totalHits + large.totalMisses
  }

  ghost predicate Included(m: Config, small: State, M: Config, large: State) {
    && Inside(small.contents, large.contents)
    && Slack(m, small.contents, M, large.contents)
    && FewerHits(small, large)
  }

  ghost predicate SameRules(m: Config, M: Config) {
    m.ttl == M.ttl && m.detectorVersion == M.detectorVersion && m.maxSize <= M.maxSize
  }

  /** What the small cache returns, the large one returns; only a miss may become a hit. */
  ghost predicate OutIncluded(small: Out, large: Out) {
    match small
    case Found(_) => large == small
    case Missed => large.Missed? || large.Found?
    case Flag(b) => large.Flag? && (b ==> large.b)
    case Pruned(n) => large.Pruned? && n <= large.count
    case Done => large == Done
  }

  lemma {:induction false} RestrictInside(s: Contents, l: Contents, S: set<Key>, T: set<Key>)
    requires Inside(s, l) && s.Keys() * S <= T
    ensures Inside(s.Restrict(S), l.Restrict(T))
  {
    RestrictCoupled(s, S);
    RestrictCoupled(l, T);
    var A := s.Keys();
    assert s.Restrict(S).Keys() == A * S;
    KeepKeep(l.accessOrder, A, S);
    KeepKeep(l.accessOrder, T, A * S);
    assert T * (A * S) == A * S;
  }

  lemma {:induction false} KeepLosesLess(L: seq<Key>, A: set<Key>, S: set<Key>, T: set<Key>)
    requires A * T <= S
    ensures |Keep(L, A)| - |Keep(Keep(L, A), S)| <= |L| - |Keep(L, T)|
  {
    if L != [] {
      var front, x := L[..|L| - 1], L[|L| - 1];
      KeepLosesLess(front, A, S, T);
      KeepAppend(Keep(front, A), x, S);
      assert x in A && x in T ==> x in A * T;
    }
  }

  /** Restricting removes at least as many keys from the large cache as from the small one. */
  lemma {:induction false} RestrictSlack(m: Config, s: Contents, M: Config, l: Contents, S: set<Key>, T: set<Key>)
    requires Inside(s, l) && Slack(m, s, M, l)
    requires s.Keys() * T <= S
    ensures Slack(m, s.Restrict(S), M, l.Restrict(T))
  {
    RestrictCoupled(s, S);
    RestrictCoupled(l, T);
    SizeIsOrderLength(s);
    SizeIsOrderLength(l);
    SizeIsOrderLength(s.Restrict(S));
    SizeIsOrderLength(l.Restrict(T));
    KeepLosesLess(l.accessOrder, s.Keys(), S, T);
  }

  lemma {:induction false} PartMovedToEnd(
      a: map<Key, Entry>, K: seq<Key>, b: map<Key, Entry>, L: seq<Key>, k: Key, e: Entry)
    requires Part(a, K, b, L) && forall x :: x in L ==> x in b
    ensures Part(a[k := e], Keep(K, a.Keys - {k}) + [k], b[k := e], Keep(L, b.Keys - {k}) + [k])
  {
    var A, B := a.Keys, b.Keys;
    assert a[k := e].Keys == A + {k};
    hide Keep;
    KeepKeep(L, A, A - {k});
    KeepAppend(Keep(L, B - {k}), k, A + {k});
    KeepKeep(L, B - {k}, A + {k});
    KeepSame(L, A * (A - {k}), (B - {k}) * (A + {k}));
  }

  lemma {:induction false} StoreInside(s: Contents, l: Contents, k: Key, e: Entry)
    requires Inside(s, l)
    ensures Inside(s.Store(k, e), l.Store(k, e))
  {
    hide Keep;
    hide Part;
    StoreCoupled(s, k, e);
    StoreCoupled(l, k, e);
    PartMovedToEnd(s.cache.vals, s.accessOrder, l.cache.vals, l.accessOrder, k, e);
  }

  /** Storing under a key the small cache lacks only reorders the large one. */
  lemma {:induction false} StoreOutside(s: Contents, l: Contents, k: Key, e: Entry)
    requires Inside(s, l) && k !in s.cache.vals && k in l.cache.vals
    ensures Inside(s, l.Store(k, e))
  {
    var A, B, L := s.Keys(), l.Keys(), l.accessOrder;
    StoreCoupled(l, k, e);
    KeepAppend(Keep(L, B - {k}), k, A);
    KeepKeep(L, B - {k}, A);
    KeepSame(L, (B - {k}) * A, A);
  }

  /** If the large cache evicts a key the small one holds, it is the small one's least recent key too. */
  lemma SameVictim(s: Contents, l: Contents)
    requires Inside(s, l) && l.accessOrder != [] && l.accessOrder[0] in s.cache.vals
    ensures s.accessOrder != [] && s.accessOrder[0] == l.accessOrder[0]
  {
    var x, rest := l.accessOrder[0], l.accessOrder[1..];
    assert l.accessOrder == [x] + rest;
    KeepConcat([x], rest, s.Keys());
    assert Keep([x], s.Keys()) == [x];
  }

  lemma {:induction false} MakeRoomInside(m: Config, s: Contents, M: Config, l: Contents, k: Key)
    requires SameRules(m, M) && Inside(s, l) && Slack(m, s, M, l)
    ensures Inside(s.MakeRoom(m, k), l.MakeRoom(M, k))
  {
    RestrictToAll(s);
    RestrictToAll(l);
    EvictCoupled(s);
    EvictCoupled(l);
    var smallEvicts := s.Size() >= m.maxSize && k !in s.cache.vals && s.accessOrder != [];
    var largeEvicts := l.Size() >= M.maxSize && k !in l.cache.vals && l.accessOrder != [];
    var S := if smallEvicts then s.Keys() - {s.accessOrder[0]} else s.Keys();
    var T := if largeEvicts then l.Keys() - {l.accessOrder[0]} else l.Keys();
    if largeEvicts && l.accessOrder[0] in s.cache.vals {
      SameVictim(s, l);
    }
    assert s.MakeRoom(m, k) == s.Restrict(S);
    assert l.MakeRoom(M, k) == l.Restrict(T);
    assert s.Keys() * S <= T;
    RestrictInside(s, l, S, T);
  }

  lemma {:induction false} SetNested(m: Config, s: Contents, M: Config, l: Contents, k: Key, e: Entry)
    requires SameRules(m, M) && Inside(s, l) && Slack(m, s, M, l)
    ensures Inside(s.MakeRoom(m, k).Store(k, e), l.MakeRoom(M, k).Store(k, e))
    ensures Slack(m, s.MakeRoom(m, k).Store(k, e), M, l.MakeRoom(M, k).Store(k, e))
  {
    MakeRoomInside(m, s, M, l, k);
    StoreInside(s.MakeRoom(m, k), l.MakeRoom(M, k), k, e);
    SetInvariant(m, s, k, e);
    SetInvariant(M, l, k, e);
  }

  lemma {:induction false} WithoutNested(m: Config, s: Contents, M: Config, l: Contents, k: Key)
    requires Inside(s, l) && Slack(m, s, M, l)
    ensures Inside(s.Without(k), l.Without(k)) && Slack(m, s.Without(k), M, l.Without(k))
    ensures k !in s.cache.vals ==> s.Without(k) == s
  {
    RestrictInside(s, l, s.Keys() - {k}, l.Keys() - {k});
    RestrictSlack(m, s, M, l, s.Keys() - {k}, l.Keys() - {k});
    if k !in s.cache.vals {
      assert s.Keys() - {k} == s.Keys();
      RestrictToAll(s);
    }
  }

  lemma {:induction false} HitNested(m: Config, s: Contents, M: Config, l: Contents, k: Key)
    requires Inside(s, l) && Slack(m, s, M, l) && k in l.cache.vals
    ensures k in s.cache.vals ==> Inside(s.Hit(k), l.Hit(k)) && Slack(m, s.Hit(k), M, l.Hit(k))
    ensures k !in s.cache.vals ==> Inside(s, l.Hit(k)) && Slack(m, s, M, l.Hit(k))
  {
    var bumped := l.cache.vals[k].Bump();
    StoreCoupled(l, k, bumped);
    if k in s.cache.vals {
      StoreCoupled(s, k, bumped);
      StoreInside(s, l, k, bumped);
    } else {
      StoreOutside(s, l, k, bumped);
    }
  }

  lemma {:induction false} PurgeNested(m: Config, s: Contents, M: Config, l: Contents, now: int)
    requires SameRules(m, M) && Inside(s, l) && Slack(m, s, M, l)
    ensures Inside(s.Purge(m, now), l.Purge(M, now))
    ensures Slack(m, s.Purge(m, now), M, l.Purge(M, now))
    ensures |s.StaleKeys(m, now)| <= |l.StaleKeys(M, now)|
  {
    var stale, Stale := s.StaleKeys(m, now), l.StaleKeys(M, now);
    RestrictInside(s, l, s.Keys() - stale, l.Keys() - Stale);
    RestrictSlack(m, s, M, l, s.Keys() - stale, l.Keys() - Stale);
    SubsetCardinality(stale, Stale);
  }

  lemma {:induction false} ExpireNested(m: Config, s: Contents, M: Config, l: Contents, k: Key, now: int)
    requires SameRules(m, M) && Inside(s, l) && Slack(m, s, M, l)
    ensures Inside(s.Expire(m, k, now), l.Expire(M, k, now))
    ensures Slack(m, s.Expire(m, k, now), M, l.Expire(M, k, now))
  {
    WithoutNested(m, s, M, l, k);
  }

  lemma {:induction false} GetIncluded(m: Config, s: State, M: Config, l: State, k: Key, now: int)
    requires SameRules(m, M) && Included(m, s, M, l)
    ensures Included(m, Next(m, s, Get(k, now)), M, Next(M, l, Get(k, now)))
  {
    var x, y := s.contents, l.contents;
    if y.Live(M, k, now) {
      HitNested(m, x, M, y, k);
    } else {
      ExpireNested(m, x, M, y, k, now);
    }
  }

  lemma {:induction false} CallIncluded(m: Config, s: State, M: Config, l: State, op: Op)
    requires SameRules(m, M) && Included(m, s, M, l)
    ensures Included(m, Next(m, s, op), M, Next(M, l, op))
  {
    hide Inside;
    hide Slack;
    var x, y := s.contents, l.contents;
    match op
    case Get(k, now) => GetIncluded(m, s, M, l, k, now);
    case Set(k, refs, now) => SetNested(m, x, M, y, k, Entry(refs, now, 0, m.detectorVersion));
    case Has(k, now) => ExpireNested(m, x, M, y, k, now);
    case Delete(k) => WithoutNested(m, x, M, y, k);
    case Prune(now) => PurgeNested(m, x, M, y, now);
    case Clear => StartsIncluded(m, M);
  }

  lemma StartsIncluded(m: Config, M: Config)
    requires SameRules(m, M)
    ensures Included(m, EMPTY, M, EMPTY)
  {
  }

  lemma {:induction false} ReplyIncluded(m: Config, x: Contents, M: Config, y: Contents, op: Op)
    requires SameRules(m, M) && Inside(x, y) && Slack(m, x, M, y)
    ensures OutIncluded(Reply(m, x, op), Reply(M, y, op))
  {
    if op.Prune? { PurgeNested(m, x, M, y, op.now); }
  }

  /**
    Run the same calls on two caches that differ only in capacity: the small cache holds a part of what the
    large one holds, every entry alike, in the same recency order, and never counts more hits.
  */
  lemma {:induction false} RunsIncluded(m: Config, M: Config, ops: seq<Op>)
    requires SameRules(m, M)
    ensures Included(m, Run(m, ops), M, Run(M, ops))
  {
    if ops != [] {
      RunsIncluded(m, M, Prefix(ops));
      CallIncluded(m, Run(m, Prefix(ops)), M, Run(M, Prefix(ops)), Last(ops));
    }
  }

  /** Every hit of the small cache is a hit of the large one on the same call, with the same references. */
  lemma {:induction false} SmallHitsAreLargeHits(m: Config, M: Config, ops: seq<Op>, i: nat)
    requires SameRules(m, M) && i < |ops|
    ensures OutIncluded(Returned(m, ops, i), Returned(M, ops, i))
  {
    RunsIncluded(m, M, ops[..i]);
    ReplyIncluded(m, Run(m, ops[..i]).contents, M, Run(M, ops[..i]).contents, ops[i]);
  }
}
