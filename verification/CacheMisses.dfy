/** Every miss has a reason: nothing stored, expiry, or a full capacity of other keys used more recently. */
module CacheMisses {
  import opened Wrappers
  import opened Sequences
  import opened OrderedMaps
  import opened ReferenceCaches
  import opened CacheInvariant
  import opened CacheHistory

  function Reading(op: Op): Option<int> {
    match op
    case Get(_, now) => Some(now)
    case Set(_, _, now) => Some(now)
    case Has(_, now) => Some(now)
    case Prune(now) => Some(now)
    case _ => None
  }

  /** The last reading of the clock. */
  function Latest(ops: seq<Op>): Option<int> {
    if ops == [] then None
    else if Reading(Last(ops)).Some? then Reading(Last(ops))
    else Latest(Prefix(ops))
  }

  /** The clock never runs backwards. */
  predicate Ticking(ops: seq<Op>) {
    ops != [] ==>
      && Ticking(Prefix(ops))
      && (Reading(Last(ops)).Some? && Latest(Prefix(ops)).Some? ==> Latest(Prefix(ops)).value <= Reading(Last(ops)).value)
  }

  function Mentioned(ops: seq<Op>): set<Key> {
    if ops == [] then {}
    else Mentioned(Prefix(ops)) + match Last(ops) case Set(k, _, _) => {k} case Get(k, _) => {k} case _ => {}
  }

  lemma {:induction false} UsedIsMentioned(c: Config, ops: seq<Op>, k: Key)
    requires 0 <= LastUse(c, ops, k)
    ensures k in Mentioned(ops)
  {
    if ops != [] && !UsesLast(c, ops, k) { UsedIsMentioned(c, Prefix(ops), k); }
  }

  /** The keys used after the last use of k. */
  function UsedSince(c: Config, ops: seq<Op>, k: Key): set<Key> {
    set k' | k' in Mentioned(ops) && LastUse(c, ops, k) < LastUse(c, ops, k')
  }

  ghost predicate Excused(c: Config, ops: seq<Op>, k: Key, stored: int) {
    || (Latest(ops).Some? && Latest(ops).value - stored > c.ttl)
    || |UsedSince(c, ops, k)| >= c.Capacity()
  }

  lemma {:induction false} UsedSinceGrows(c: Config, ops: seq<Op>, k: Key)
    requires ops != [] && !UsesLast(c, ops, k)
    ensures |UsedSince(c, Prefix(ops), k)| <= |UsedSince(c, ops, k)|
  {
    SubsetCardinality(UsedSince(c, Prefix(ops), k), UsedSince(c, ops, k));
  }

  lemma {:induction false} EvictedIsExcused(c: Config, ops: seq<Op>, k: Key)
    requires ops != [] && Last(ops).Set? && Last(ops).key != k
    requires k in Run(c, Prefix(ops)).contents.cache.vals && k !in Run(c, ops).contents.cache.vals
    ensures |UsedSince(c, ops, k)| >= c.Capacity()
  {
    var x, op := Run(c, Prefix(ops)).contents, Last(ops);
    RunKeepsInvariant(c, EMPTY, Prefix(ops));
    OrderIsByLastUse(c, Prefix(ops));
    VictimIsFront(c, x, op.key, Entry(op.references, op.now, 0, c.detectorVersion), k);
    UsedAfterFront(c, ops, x.accessOrder);
  }

  /** Storing a new key leaves the front of the order older than the rest of it and the new key. */
  lemma {:induction false} UsedAfterFront(c: Config, ops: seq<Op>, order: seq<Key>)
    requires ops != [] && Last(ops).Set? && Last(ops).key !in order
    requires order != [] && NoDuplicates(order) && ByLastUse(c, Prefix(ops), order)
    ensures |UsedSince(c, ops, order[0])| >= |order|
  {
    var later := order[1..] + [Last(ops).key];
    assert NoDuplicates(later);
    forall i | 0 <= i < |later| ensures later[i] in UsedSince(c, ops, order[0]) {
      assert LastUse(c, ops, order[0]) == LastUse(c, Prefix(ops), order[0]);
      if i < |order| - 1 {
        assert later[i] == order[i + 1];
        FrontIsOldest(c, Prefix(ops), order, order[i + 1]);
        UsedIsMentioned(c, Prefix(ops), order[i + 1]);
      }
    }
    NoDuplicatesCardinality(later);
    SubsetCardinality(Elements(later), UsedSince(c, ops, order[0]));
  }

  /** A stored key that is no longer resident either expired or gave way to a full capacity of other keys. */
  lemma {:induction false} AbsentIsExcused(c: Config, ops: seq<Op>, k: Key)
    requires Ticking(ops) && LastSet(ops, k).Some? && k !in Run(c, ops).contents.cache.vals
    ensures Excused(c, ops, k, LastSet(ops, k).value.1)
  {
    if ops != [] {
      var x := Run(c, Prefix(ops)).contents;
      assert !UsesLast(c, ops, k);
      if k !in x.cache.vals {
        AbsentIsExcused(c, Prefix(ops), k);
        UsedSinceGrows(c, ops, k);
      } else {
        ResidentIsLastSet(c, Prefix(ops), k);
        if Last(ops).Set? { EvictedIsExcused(c, ops, k); }
      }
    }
  }

  /**
    With a clock that never runs backwards, a `get` misses only if the key holds nothing, or what it holds is
    older than ttl, or at least a full capacity of other keys was used since its own last use.
  */
  lemma {:induction false} MissIsExcused(c: Config, ops: seq<Op>, k: Key, now: int)
    requires Ticking(ops + [Get(k, now)])
    requires Returned(c, ops + [Get(k, now)], |ops|) == Missed
    ensures var last := LastSet(ops, k);
      last == None || now - last.value.1 > c.ttl || |UsedSince(c, ops, k)| >= c.Capacity()
  {
    var all := ops + [Get(k, now)];
    assert all[..|ops|] == ops && Prefix(all) == ops;
    if k in Run(c, ops).contents.cache.vals {
      ResidentIsLastSet(c, ops, k);
    } else if LastSet(ops, k).Some? {
      AbsentIsExcused(c, ops, k);
    }
  }
}
