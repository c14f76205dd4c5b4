/**
  What a call does to any two structures, also when they disagree: `indexOf`, `splice` and `shift` act on the array
  as it is. On a consistent cache this is `Next`.
*/
module RawCaches {
  import opened Wrappers
  import opened Sequences
  import opened OrderedMaps
  import opened ReferenceCaches
  import opened CacheInvariant

  function RemoveFirst(order: seq<Key>, k: Key): seq<Key> {
    var index := IndexOf(order, k);
    if index > -1 then Splice(order, index) else order
  }

  /** The first place of k, if there is one, is cut out; nothing else changes. */
  ghost predicate CutsFirst(before: seq<Key>, after: seq<Key>, k: Key) {
    if k !in before then after == before
    else exists i :: 0 <= i < |before| && before[i] == k && k !in before[..i] && after == before[..i] + before[i + 1..]
  }

  lemma RemoveFirstCuts(order: seq<Key>, k: Key)
    ensures CutsFirst(order, RemoveFirst(order, k), k)
  {
    var i := IndexOf(order, k);
    if i > -1 { assert order[i] == k && RemoveFirst(order, k) == order[..i] + order[i + 1..]; }
  }

  function Dropped(x: Contents, k: Key): Contents {
    Contents(x.cache.Restrict(x.Keys() - {k}), RemoveFirst(x.accessOrder, k))
  }

  function Evicted(x: Contents): Contents {
    if x.accessOrder == [] then x
    else Contents(x.cache.Restrict(x.Keys() - {x.accessOrder[0]}), x.accessOrder[1..])
  }

  function Stored(x: Contents, k: Key, e: Entry): Contents {
    Contents(x.cache.Set(k, e), RemoveFirst(x.accessOrder, k) + [k])
  }

  function WithRoom(c: Config, x: Contents, k: Key): Contents {
    if x.Size() >= c.maxSize && k !in x.cache.vals then Evicted(x) else x
  }

  function Expired(c: Config, x: Contents, k: Key, now: int): Contents {
    if k in x.cache.vals && !c.Fresh(x.cache.vals[k], now) then Dropped(x, k) else x
  }

  function DroppedAll(x: Contents, gone: seq<Key>): Contents {
    if gone == [] then x else Dropped(DroppedAll(x, gone[..|gone| - 1]), gone[|gone| - 1])
  }

  /** The stale keys in the order in which the map is walked. */
  function StaleInOrder(c: Config, x: Contents, now: int): seq<Key> {
    Keep(x.cache.keys, x.StaleKeys(c, now))
  }

  function RawNext(c: Config, s: State, op: Op): State {
    var x := s.contents;
    match op
    case Get(k, now) =>
      if x.Live(c, k, now) then State(Stored(x, k, x.cache.vals[k].Bump()), s.totalHits + 1, s.totalMisses)
      else State(Expired(c, x, k, now), s.totalHits, s.totalMisses + 1)
    case Set(k, refs, now) => s.With(Stored(WithRoom(c, x, k), k, Entry(refs, now, 0, c.detectorVersion)))
    case Has(k, now) => s.With(Expired(c, x, k, now))
    case Delete(k) => s.With(Dropped(x, k))
    case Prune(now) => s.With(DroppedAll(x, StaleInOrder(c, x, now)))
    case Clear => EMPTY
  }

  function RawRunFrom(c: Config, s: State, ops: seq<Op>): State {
    if ops == [] then s
    else RawNext(c, RawRunFrom(c, s, ops[..|ops| - 1]), ops[|ops| - 1])
  }

  // ---------------------------------------------------------------- on a consistent cache

  lemma RemoveFirstIsKeep(order: seq<Key>, k: Key, rest: set<Key>)
    requires NoDuplicates(order) && forall x :: x in order ==> (x in rest <==> x != k)
    ensures RemoveFirst(order, k) == Keep(order, rest)
  {
    var index := IndexOf(order, k);
    if index > -1 { SpliceIsKeep(order, index, rest); } else { KeepAll(order, rest); }
  }

  lemma DroppedIsWithout(x: Contents, k: Key)
    requires x.Coupled()
    ensures Dropped(x, k) == x.Without(k) && x.Without(k).Coupled()
  {
    RemoveFirstIsKeep(x.accessOrder, k, x.Keys() - {k});
    RestrictCoupled(x, x.Keys() - {k});
  }

  lemma EvictedIsEvict(x: Contents)
    requires x.Coupled()
    ensures Evicted(x) == x.EvictLRU()
  {
    EvictCoupled(x);
  }

  lemma StoredIsStore(x: Contents, k: Key, e: Entry)
    requires x.Coupled()
    ensures Stored(x, k, e) == x.Store(k, e)
  {
    RemoveFirstIsKeep(x.accessOrder, k, x.Keys() - {k});
  }

  lemma RestrictTwice(x: Contents, S: set<Key>, T: set<Key>)
    ensures x.Restrict(S).Restrict(T) == x.Restrict(S * T)
  {
    KeepKeep(x.cache.keys, S, T);
    KeepKeep(x.accessOrder, S, T);
    assert x.Restrict(S).Restrict(T).cache.vals == x.Restrict(S * T).cache.vals;
  }

  lemma DropOneMore(x: Contents, gone: seq<Key>, k: Key)
    requires x.Coupled()
    ensures Dropped(x.Restrict(x.Keys() - Elements(gone)), k) == x.Restrict(x.Keys() - Elements(gone + [k]))
  {
    var S := x.Keys() - Elements(gone);
    RestrictCoupled(x, S);
    var y := x.Restrict(S);
    DroppedIsWithout(y, k);
    RestrictTwice(x, S, y.Keys() - {k});
    assert S * (y.Keys() - {k}) == x.Keys() - Elements(gone + [k]);
  }

  /** Dropping keys one after another is dropping them together. */
  lemma {:induction false} DroppedAllIsRestrict(x: Contents, gone: seq<Key>)
    requires x.Coupled()
    ensures DroppedAll(x, gone) == x.Restrict(x.Keys() - Elements(gone))
  {
    if gone == [] {
      RestrictToAll(x);
      assert x.Keys() - Elements(gone) == x.Keys();
    } else {
      var front, k := gone[..|gone| - 1], gone[|gone| - 1];
      hide Dropped;
      hide Elements;
      hide Contents.Restrict;
      hide Contents.Coupled;
      DroppedAllIsRestrict(x, front);
      DropOneMore(x, front, k);
      assert gone == front + [k];
      assert DroppedAll(x, gone) == x.Restrict(x.Keys() - Elements(gone));
    }
  }

  lemma StaleInOrderIsAll(c: Config, x: Contents, now: int)
    requires x.cache.Valid()
    ensures NoDuplicates(StaleInOrder(c, x, now)) && Elements(StaleInOrder(c, x, now)) == x.StaleKeys(c, now)
    ensures |StaleInOrder(c, x, now)| == |x.StaleKeys(c, now)|
  {
    KeepNoDuplicates(x.cache.keys, x.StaleKeys(c, now));
    NoDuplicatesCardinality(StaleInOrder(c, x, now));
  }

  /** As long as the two structures agree, a call does what `Next` says. */
  lemma RawIsNext(c: Config, s: State, op: Op)
    requires s.contents.Coupled()
    ensures RawNext(c, s, op) == Next(c, s, op)
  {
    var x := s.contents;
    match op {
      case Get(k, now) =>
        DroppedIsWithout(x, k);
        if x.Live(c, k, now) { StoredIsStore(x, k, x.cache.vals[k].Bump()); }
      case Set(k, refs, now) =>
        EvictedIsEvict(x);
        EvictCoupled(x);
        StoredIsStore(x.MakeRoom(c, k), k, Entry(refs, now, 0, c.detectorVersion));
      case Has(k, now) =>
        DroppedIsWithout(x, k);
      case Delete(k) =>
        DroppedIsWithout(x, k);
      case Prune(now) =>
        StaleInOrderIsAll(c, x, now);
        DroppedAllIsRestrict(x, StaleInOrder(c, x, now));
      case Clear =>
    }
  }

  /** A run from a consistent cache, a new one for example, is the run of `Next`. */
  lemma {:induction false} RawRunIsRun(c: Config, s: State, ops: seq<Op>)
    requires s.contents.Coupled()
    ensures RawRunFrom(c, s, ops) == RunFrom(c, s, ops)
  {
    if ops != [] {
      var front := ops[..|ops| - 1];
      RawRunIsRun(c, s, front);
      RunKeepsInvariant(c, s, front);
      RawIsNext(c, RunFrom(c, s, front), ops[|ops| - 1]);
      hide RawNext;
      hide Next;
    }
  }
}
