/** The cache against its own history: hits, misses, counters and the choice of the evicted key. */
module CacheHistory {
  import opened Wrappers
  import opened Sequences
  import opened OrderedMaps
  import opened ReferenceCaches
  import opened CacheInvariant

  /** The latest `set` on k that no later delete or clear undid: what an unbounded map without expiry would hold. */
  function LastSet(ops: seq<Op>, k: Key): Option<(seq<Reference>, int)> {
    if ops == [] then None
    else
      match Last(ops)
      case Set(k', refs, now) => if k' == k then Some((refs, now)) else LastSet(Prefix(ops), k)
      case Delete(k') => if k' == k then None else LastSet(Prefix(ops), k)
      case Clear => None
      case _ => LastSet(Prefix(ops), k)
  }

  ghost predicate Remembers(c: Config, e: Entry, last: Option<(seq<Reference>, int)>) {
    last == Some((e.references, e.timestamp)) && e.detectorVersion == c.detectorVersion
  }

  lemma {:induction false} ResidentIsLastSet(c: Config, ops: seq<Op>, k: Key)
    requires k in Run(c, ops).contents.cache.vals
    ensures Remembers(c, Run(c, ops).contents.cache.vals[k], LastSet(ops, k))
  {
    if ops != [] {
      var s := Run(c, Prefix(ops));
      if k in s.contents.cache.vals { ResidentIsLastSet(c, Prefix(ops), k); }
    }
  }

  /** Every hit returns the references of the latest `set` on that key, stored no more than ttl ago. */
  lemma {:induction false} HitReturnsLastSet(c: Config, ops: seq<Op>, i: nat)
    requires i < |ops| && ops[i].Get? && Returned(c, ops, i).Found?
    ensures LastSet(ops[..i], ops[i].key).Some?
    ensures LastSet(ops[..i], ops[i].key).value.0 == Returned(c, ops, i).references
    ensures ops[i].now - LastSet(ops[..i], ops[i].key).value.1 <= c.ttl
  {
    ResidentIsLastSet(c, ops[..i], ops[i].key);
  }

  // ---------------------------------------------------------------- counters

  function HitsSinceClear(c: Config, ops: seq<Op>): nat {
    if ops == [] || Last(ops).Clear? then 0
    else HitsSinceClear(c, Prefix(ops)) + if Returned(c, ops, |ops| - 1).Found? then 1 else 0
  }

  function GetsSinceClear(ops: seq<Op>): nat {
    if ops == [] || Last(ops).Clear? then 0
    else GetsSinceClear(Prefix(ops)) + if Last(ops).Get? then 1 else 0
  }

  lemma {:induction false} CountersCountGets(c: Config, ops: seq<Op>)
    ensures Run(c, ops).totalHits == HitsSinceClear(c, ops)
    ensures Run(c, ops).totalHits + Run(c, ops).totalMisses == GetsSinceClear(ops)
  {
    if ops != [] {
      CountersCountGets(c, Prefix(ops));
    }
  }

  // ---------------------------------------------------------------- recency

  /** Whether the last call of ops uses k: stores it, or finds it. `has` is not a use. */
  predicate UsesLast(c: Config, ops: seq<Op>, k: Key)
    requires ops != []
  {
    match Last(ops)
    case Set(k', _, _) => k' == k
    case Get(k', _) => k' == k && Returned(c, ops, |ops| - 1).Found?
    case _ => false
  }

  /** The position of the last call that used k, or -1. */
  function LastUse(c: Config, ops: seq<Op>, k: Key): (r: int)
    ensures -1 <= r < |ops|
  {
    if ops == [] then -1
    else if UsesLast(c, ops, k) then |ops| - 1
    else LastUse(c, Prefix(ops), k)
  }

  /** Strictly increasing last uses, all of them real. */
  ghost predicate ByLastUse(c: Config, ops: seq<Op>, order: seq<Key>) {
    order != [] ==>
      && ByLastUse(c, ops, order[..|order| - 1])
      && UsedBefore(c, ops, order[..|order| - 1], order[|order| - 1])
  }

  ghost predicate UsedBefore(c: Config, ops: seq<Op>, earlier: seq<Key>, k: Key) {
    && 0 <= LastUse(c, ops, k)
    && forall x :: x in earlier ==> LastUse(c, ops, x) < LastUse(c, ops, k)
  }

  lemma {:induction false} KeepByLastUse(c: Config, ops: seq<Op>, order: seq<Key>, S: set<Key>)
    requires ByLastUse(c, ops, order)
    ensures ByLastUse(c, ops, Keep(order, S))
  {
    if order != [] {
      var front, last := order[..|order| - 1], order[|order| - 1];
      KeepByLastUse(c, ops, front, S);
      if last in S {
        var kept := Keep(front, S);
        hide LastUse;
        assert UsedBefore(c, ops, kept, last);
        hide UsedBefore;
        assert (kept + [last])[..|kept|] == kept;
        assert ByLastUse(c, ops, kept + [last]);
      }
    }
  }

  /** A call that does not use any key of the order leaves their last uses alone. */
  lemma {:induction false} UnusedByLastUse(c: Config, ops: seq<Op>, order: seq<Key>)
    requires ops != [] && ByLastUse(c, Prefix(ops), order)
    requires forall k :: k in order ==> !UsesLast(c, ops, k)
    ensures ByLastUse(c, ops, order)
  {
    if order != [] {
      var front, last := order[..|order| - 1], order[|order| - 1];
      assert forall k :: k in front ==> k in order;
      UnusedByLastUse(c, ops, front);
      forall x | x in front + [last] ensures LastUse(c, ops, x) == LastUse(c, Prefix(ops), x) {
        assert x in order;
      }
    }
  }

  /** The front of the order is older than everything else in it. */
  lemma {:induction false} FrontIsOldest(c: Config, ops: seq<Op>, order: seq<Key>, k: Key)
    requires ByLastUse(c, ops, order) && k in order && k != order[0]
    ensures 0 <= LastUse(c, ops, order[0]) < LastUse(c, ops, k)
  {
    var front, last := order[..|order| - 1], order[|order| - 1];
    if k in front {
      FrontIsOldest(c, ops, front, k);
    } else {
      assert order[0] in front;
      FrontIsUsed(c, ops, order);
    }
  }

  lemma {:induction false} FrontIsUsed(c: Config, ops: seq<Op>, order: seq<Key>)
    requires ByLastUse(c, ops, order) && order != []
    ensures 0 <= LastUse(c, ops, order[0])
  {
    if |order| > 1 { FrontIsUsed(c, ops, order[..|order| - 1]); }
  }

  lemma {:induction false} RestrictByLastUse(c: Config, ops: seq<Op>, order: seq<Key>, S: set<Key>)
    requires ops != [] && ByLastUse(c, Prefix(ops), order)
    requires forall k :: k in S ==> !UsesLast(c, ops, k)
    ensures ByLastUse(c, ops, Keep(order, S))
  {
    KeepByLastUse(c, Prefix(ops), order, S);
    hide ByLastUse;
    UnusedByLastUse(c, ops, Keep(order, S));
  }

  lemma {:induction false} StoreByLastUse(c: Config, ops: seq<Op>, x: Contents, k: Key, e: Entry)
    requires ops != [] && ByLastUse(c, Prefix(ops), x.accessOrder)
    requires forall k' :: UsesLast(c, ops, k') <==> k' == k
    requires x.Coupled()
    ensures ByLastUse(c, ops, x.Store(k, e).accessOrder)
  {
    var kept := Keep(x.accessOrder, x.Keys() - {k});
    RestrictByLastUse(c, ops, x.accessOrder, x.Keys() - {k});
    assert (kept + [k])[..|kept|] == kept;
    forall k' | k' in kept ensures LastUse(c, ops, k') < |ops| - 1 {
      assert !UsesLast(c, ops, k');
    }
  }

  lemma {:induction false} GetByLastUse(c: Config, ops: seq<Op>, x: Contents, k: Key, now: int)
    requires ops != [] && Last(ops) == Get(k, now) && x == Run(c, Prefix(ops)).contents
    requires x.Coupled() && ByLastUse(c, Prefix(ops), x.accessOrder)
    ensures ByLastUse(c, ops, Run(c, ops).contents.accessOrder)
  {
    if x.Live(c, k, now) {
      StoreByLastUse(c, ops, x, k, x.cache.vals[k].Bump());
    } else {
      UnusedByLastUse(c, ops, x.accessOrder);
      RestrictByLastUse(c, ops, x.accessOrder, x.Keys() - {k});
    }
  }

  lemma {:induction false} SetByLastUse(c: Config, ops: seq<Op>, x: Contents, k: Key, e: Entry)
    requires ops != [] && Last(ops) == Set(k, e.references, e.timestamp)
    requires x.Coupled() && ByLastUse(c, Prefix(ops), x.accessOrder)
    ensures ByLastUse(c, ops, x.MakeRoom(c, k).Store(k, e).accessOrder)
  {
    EvictCoupled(x);
    if x.accessOrder != [] {
      KeepByLastUse(c, Prefix(ops), x.accessOrder, x.Keys() - {x.accessOrder[0]});
    }
    hide Keep;
    hide ByLastUse;
    StoreByLastUse(c, ops, x.MakeRoom(c, k), k, e);
  }

  /** In every reachable state the access order lists the resident keys by their last use, oldest first. */
  lemma {:induction false} OrderIsByLastUse(c: Config, ops: seq<Op>)
    ensures ByLastUse(c, ops, Run(c, ops).contents.accessOrder)
  {
    if ops != [] {
      OrderIsByLastUse(c, Prefix(ops));
      RunKeepsInvariant(c, EMPTY, Prefix(ops));
      var x := Run(c, Prefix(ops)).contents;
      hide ByLastUse;
      hide Keep;
      hide Contents.Coupled;
      match Last(ops)
      case Get(k, now) => GetByLastUse(c, ops, x, k, now);
      case Set(k, refs, now) => SetByLastUse(c, ops, x, k, Entry(refs, now, 0, c.detectorVersion));
      case Has(k, now) =>
        UnusedByLastUse(c, ops, x.accessOrder);
        RestrictByLastUse(c, ops, x.accessOrder, x.Keys() - {k});
      case Delete(k) => RestrictByLastUse(c, ops, x.accessOrder, x.Keys() - {k});
      case Prune(now) => RestrictByLastUse(c, ops, x.accessOrder, x.Keys() - x.StaleKeys(c, now));
      case Clear => NothingByLastUse(c, ops);
    } else {
      NothingByLastUse(c, ops);
    }
  }

  lemma NothingByLastUse(c: Config, ops: seq<Op>)
    ensures ByLastUse(c, ops, [])
  {
  }

  /** A `set` that drops k was short of room and took the front of the access order. */
  lemma VictimIsFront(c: Config, x: Contents, k: Key, e: Entry, victim: Key)
    requires x.Coupled() && victim in x.cache.vals
    requires victim !in x.MakeRoom(c, k).Store(k, e).cache.vals
    ensures k !in x.cache.vals && |x.accessOrder| == x.Size() && x.Size() >= c.Capacity()
    ensures x.accessOrder != [] && victim == x.accessOrder[0]
    ensures x.MakeRoom(c, k).Store(k, e).Keys() == x.Keys() - {victim} + {k}
  {
    EvictCoupled(x);
    SizeIsOrderLength(x);
    var room := x.MakeRoom(c, k);
    StoreCoupled(room, k, e);
    assert room == x || (room == x.EvictLRU() && k !in x.cache.vals && x.Size() >= c.maxSize);
    hide Keep;
    hide Contents.EvictLRU;
    hide Contents.Store;
    hide Contents.MakeRoom;
    hide Contents.Coupled;
    assert room.Store(k, e).Keys() == room.Keys() + {k};
  }

  /**
    A `set` drops a key only when it brings a new one to a full cache; what it drops was used before every
    other resident key, and every other resident key stays.
  */
  lemma {:induction false} EvictsLeastRecentlyUsed(c: Config, ops: seq<Op>, op: Op, victim: Key, other: Key)
    requires op.Set?
    requires victim in Run(c, ops).contents.cache.vals && victim !in Next(c, Run(c, ops), op).contents.cache.vals
    requires other in Run(c, ops).contents.cache.vals && other != victim
    ensures op.key !in Run(c, ops).contents.cache.vals && Run(c, ops).contents.Size() >= c.maxSize
    ensures LastUse(c, ops, victim) < LastUse(c, ops, other)
    ensures other in Next(c, Run(c, ops), op).contents.cache.vals
  {
    var x := Run(c, ops).contents;
    RunKeepsInvariant(c, EMPTY, ops);
    OrderIsByLastUse(c, ops);
    VictimIsFront(c, x, op.key, Entry(op.references, op.now, 0, c.detectorVersion), victim);
    FrontIsOldest(c, ops, x.accessOrder, other);
  }
}
