/** Exactly which look-ups hit, as long as nothing is removed but by eviction. */
module CacheHits {
  import opened Wrappers
  import opened Sequences
  import opened OrderedMaps
  import opened ReferenceCaches
  import opened CacheInvariant
  import opened CacheHistory
  import opened CacheMisses

  predicate IsUse(op: Op) {
    op.Set? || op.Get? || op.Has?
  }

  /** Stores and look-ups only, all within one lifetime. */
  ghost predicate Steady(c: Config, ops: seq<Op>) {
    && (forall i :: 0 <= i < |ops| ==> IsUse(ops[i]))
    && (forall i, j :: 0 <= i <= j < |ops| ==> ops[j].now - ops[i].now <= c.ttl)
  }

  lemma SteadyPrefix(c: Config, ops: seq<Op>)
    requires Steady(c, ops) && ops != []
    ensures Steady(c, Prefix(ops))
  {
    assert forall i :: 0 <= i < |ops| - 1 ==> Prefix(ops)[i] == ops[i];
  }

  lemma {:induction false} LastSetIsOp(ops: seq<Op>, k: Key) returns (i: nat)
    requires LastSet(ops, k).Some?
    ensures i < |ops| && ops[i].Set? && ops[i].now == LastSet(ops, k).value.1
  {
    if Last(ops).Set? && Last(ops).key == k {
      i := |ops| - 1;
    } else {
      i := LastSetIsOp(Prefix(ops), k);
    }
  }

  /** No resident entry is stale when a steady trace reads the clock again. */
  lemma {:induction false} ResidentIsFresh(c: Config, ops: seq<Op>, k: Key)
    requires ops != [] && Steady(c, ops)
    requires k in Run(c, Prefix(ops)).contents.cache.vals
    ensures Run(c, Prefix(ops)).contents.Live(c, k, Last(ops).now)
  {
    ResidentIsLastSet(c, Prefix(ops), k);
    var i := LastSetIsOp(Prefix(ops), k);
    assert Prefix(ops)[i] == ops[i] && IsUse(ops[|ops| - 1]);
  }

  /** What a steady call leaves: everything but, if it stores, the front of a full order. */
  lemma StaysUnlessFront(c: Config, ops: seq<Op>, x: Key)
    requires ops != [] && Steady(c, ops)
    requires x in Run(c, Prefix(ops)).contents.cache.vals && x !in Run(c, ops).contents.cache.vals
    ensures Last(ops).Set? && Run(c, Prefix(ops)).contents.accessOrder != []
    ensures x == Run(c, Prefix(ops)).contents.accessOrder[0]
  {
    var before, op := Run(c, Prefix(ops)).contents, Last(ops);
    assert IsUse(ops[|ops| - 1]);
    RunKeepsInvariant(c, EMPTY, Prefix(ops));
    if op.key in before.cache.vals { ResidentIsFresh(c, ops, op.key); }
    if op.Set? {
      VictimIsFront(c, before, op.key, Entry(op.references, op.now, 0, c.detectorVersion), x);
    }
  }

  lemma UsedIsResident(c: Config, ops: seq<Op>, x: Key)
    requires ops != [] && UsesLast(c, ops, x)
    ensures x in Run(c, ops).contents.cache.vals
  {
  }

  /** While k is resident, so is every key used after it. */
  lemma {:induction false} LaterAreResident(c: Config, ops: seq<Op>, k: Key, x: Key)
    requires Steady(c, ops) && k in Run(c, ops).contents.cache.vals
    requires LastUse(c, ops, k) < LastUse(c, ops, x)
    ensures x in Run(c, ops).contents.cache.vals
  {
    if UsesLast(c, ops, x) {
      UsedIsResident(c, ops, x);
    } else {
      var before := Run(c, Prefix(ops)).contents;
      SteadyPrefix(c, ops);
      RunKeepsInvariant(c, EMPTY, Prefix(ops));
      OrderIsByLastUse(c, Prefix(ops));
      StoredIsUsed(c, ops, k);
      LaterAreResident(c, Prefix(ops), k, x);
      if x !in Run(c, ops).contents.cache.vals {
        StaysUnlessFront(c, ops, x);
        FrontIsOldest(c, Prefix(ops), before.accessOrder, k);
      }
    }
  }

  /** A resident key that the last call did not use was resident before. */
  lemma StoredIsUsed(c: Config, ops: seq<Op>, k: Key)
    requires ops != [] && k in Run(c, ops).contents.cache.vals && !UsesLast(c, ops, k)
    ensures k in Run(c, Prefix(ops)).contents.cache.vals
  {
  }

  lemma ResidentBound(c: Config, ops: seq<Op>, k: Key)
    requires Steady(c, ops) && k in Run(c, ops).contents.cache.vals
    ensures |UsedSince(c, ops, k)| < c.Capacity()
  {
    var x, later := Run(c, ops).contents, UsedSince(c, ops, k);
    forall y | y in later ensures y in x.Keys() { LaterAreResident(c, ops, k, y); }
    RunKeepsInvariant(c, EMPTY, ops);
    KeysAreMany(x.cache);
    assert k !in later;
    SubsetCardinality(later + {k}, x.Keys());
  }

  /**
    On stores and look-ups within one lifetime, a stored key is found exactly when fewer other keys than the
    capacity were used since its own last use.
  */
  lemma {:induction false} HitIff(c: Config, ops: seq<Op>, k: Key, now: int)
    requires Ticking(ops + [Get(k, now)]) && Steady(c, ops + [Get(k, now)])
    requires LastSet(ops, k).Some?
    ensures Returned(c, ops + [Get(k, now)], |ops|).Found? <==> |UsedSince(c, ops, k)| < c.Capacity()
  {
    var all := ops + [Get(k, now)];
    assert Prefix(all) == ops && all[..|ops|] == ops;
    SteadyPrefix(c, all);
    if k in Run(c, ops).contents.cache.vals {
      ResidentIsFresh(c, all, k);
      ResidentBound(c, ops, k);
    } else {
      var i := LastSetIsOp(ops, k);
      assert all[i] == ops[i] && all[|ops|].now - all[i].now <= c.ttl;
      MissIsExcused(c, ops, k, now);
    }
  }
}
