/** What pruning and `has` leave behind, and what an entry's hit counter counts. */
module CacheExpiry {
  import opened Sequences
  import opened OrderedMaps
  import opened ReferenceCaches
  import opened CacheInvariant

  /** Pruning leaves exactly the live entries, in the order they had, and returns how many it dropped. */
  lemma {:induction false} PruneIsExact(c: Config, s: State, now: int)
    requires s.contents.Coupled()
    ensures var t := Next(c, s, Prune(now));
      && (forall k :: k in t.contents.cache.vals <==> s.contents.Live(c, k, now))
      && (forall k :: k in t.contents.cache.vals ==> t.contents.cache.vals[k] == s.contents.cache.vals[k])
      && t.contents.accessOrder == Keep(s.contents.accessOrder, t.contents.Keys())
      && Reply(c, s.contents, Prune(now)) == Pruned(s.contents.Size() - t.contents.Size())
  {
    var x, t := s.contents, Next(c, s, Prune(now));
    NextKeepsInvariant(c, s, Prune(now));
    KeysAreMany(x.cache);
    KeysAreMany(t.contents.cache);
    var stale := x.StaleKeys(c, now);
    assert t.contents.Keys() == x.Keys() - stale && stale <= x.Keys();
    KeepSame(x.accessOrder, x.Keys() - stale, t.contents.Keys());
    assert |x.Keys() - stale| == |x.Keys()| - |stale|;
  }

  /** A look-up no earlier than the given time. */
  predicate LooksUp(op: Op, since: int) {
    (op.Get? || op.Has?) && op.now >= since
  }

  predicate SameAt(c: Config, x: Contents, y: Contents, k: Key, now: int) {
    && (x.Live(c, k, now) <==> y.Live(c, k, now))
    && (x.Live(c, k, now) ==> x.cache.vals[k] == y.cache.vals[k])
  }

  /** The same keys are live at the given time, with the same entries, and the counters agree. */
  ghost predicate SameLive(c: Config, s: State, t: State, now: int) {
    && (forall k :: SameAt(c, s.contents, t.contents, k, now))
    && s.totalHits == t.totalHits && s.totalMisses == t.totalMisses
  }

  lemma SameReplies(c: Config, s: State, t: State, now: int, op: Op)
    requires SameLive(c, s, t, now) && LooksUp(op, now)
    ensures Reply(c, s.contents, op) == Reply(c, t.contents, op)
    ensures s.contents.Live(c, op.key, op.now) <==> t.contents.Live(c, op.key, op.now)
  {
    assert SameAt(c, s.contents, t.contents, op.key, now);
  }

  lemma SameAtKept(c: Config, s: State, t: State, now: int, op: Op, k: Key)
    requires SameLive(c, s, t, now) && (LooksUp(op, now) || op.Delete?)
    ensures SameAt(c, Next(c, s, op).contents, Next(c, t, op).contents, k, now)
  {
    assert SameAt(c, s.contents, t.contents, k, now) && SameAt(c, s.contents, t.contents, op.key, now);
  }

  lemma SameLiveKept(c: Config, s: State, t: State, now: int, op: Op)
    requires SameLive(c, s, t, now) && (LooksUp(op, now) || op.Delete?)
    ensures SameLive(c, Next(c, s, op), Next(c, t, op), now)
  {
    if LooksUp(op, now) { SameReplies(c, s, t, now, op); }
    forall k ensures SameAt(c, Next(c, s, op).contents, Next(c, t, op).contents, k, now) {
      SameAtKept(c, s, t, now, op, k);
    }
    hide SameAt;
  }

  lemma PrunedIsSameLive(c: Config, s: State, now: int)
    ensures SameLive(c, s, Next(c, s, Prune(now)), now)
  {
  }

  /** However the cache is looked up and keys are removed later, no answer of a look-up tells that it was pruned. */
  lemma {:induction false} PruneIsInvisible(c: Config, s: State, now: int, ops: seq<Op>)
    requires forall i :: 0 <= i < |ops| ==> LooksUp(ops[i], now) || ops[i].Delete?
    ensures SameLive(c, RunFrom(c, s, ops), RunFrom(c, Next(c, s, Prune(now)), ops), now)
    ensures forall op :: LooksUp(op, now) ==>
      Reply(c, RunFrom(c, s, ops).contents, op) == Reply(c, RunFrom(c, Next(c, s, Prune(now)), ops).contents, op)
  {
    if ops == [] {
      PrunedIsSameLive(c, s, now);
    } else {
      PruneIsInvisible(c, s, now, ops[..|ops| - 1]);
      SameLiveKept(c, RunFrom(c, s, ops[..|ops| - 1]), RunFrom(c, Next(c, s, Prune(now)), ops[..|ops| - 1]), now, ops[|ops| - 1]);
    }
    forall op | LooksUp(op, now)
      ensures Reply(c, RunFrom(c, s, ops).contents, op) == Reply(c, RunFrom(c, Next(c, s, Prune(now)), ops).contents, op)
    {
      SameReplies(c, RunFrom(c, s, ops), RunFrom(c, Next(c, s, Prune(now)), ops), now, op);
    }
  }

  /** `has` says what `get` would find, and leaves the same answer to be found. */
  lemma HasForetellsGet(c: Config, s: State, k: Key, now: int)
    ensures Reply(c, s.contents, Has(k, now)) == Flag(Reply(c, s.contents, Get(k, now)).Found?)
    ensures Reply(c, Next(c, s, Has(k, now)).contents, Get(k, now)) == Reply(c, s.contents, Get(k, now))
  {
    var t := Next(c, s, Has(k, now)).contents;
    if !s.contents.Live(c, k, now) { assert k !in t.cache.vals; }
  }

  // ---------------------------------------------------------------- hit counters

  /** The hits on k since it was last stored. */
  function HitsSinceSet(c: Config, ops: seq<Op>, k: Key): nat {
    if ops == [] || (Last(ops).Set? && Last(ops).key == k) then 0
    else
      HitsSinceSet(c, Prefix(ops), k)
        + if Last(ops).Get? && Last(ops).key == k && Returned(c, ops, |ops| - 1).Found? then 1 else 0
  }

  lemma {:induction false} HitCounterCounts(c: Config, ops: seq<Op>, k: Key)
    requires k in Run(c, ops).contents.cache.vals
    ensures Run(c, ops).contents.cache.vals[k].hitCount == HitsSinceSet(c, ops, k)
  {
    if ops != [] {
      var s := Run(c, Prefix(ops));
      if k in s.contents.cache.vals { HitCounterCounts(c, Prefix(ops), k); }
    }
  }
}
