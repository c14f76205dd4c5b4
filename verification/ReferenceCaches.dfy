/**
  The bounded cache of detected references (src/lib/reference-cache.ts).

  `State`, `Next` and `Reply` say what one call does to the two structures the cache keeps: the insertion-ordered
  `Map` and the access-order array. The class below works on its fields in place and is proved against them.
  Keys stand for the result of `generateKey`; the clock is an argument, read once per call.
*/
module ReferenceCaches {
  import opened Sequences
  import opened OrderedMaps

  type Key = string
  datatype Reference = Reference(sourceText: string, position: int)

  datatype Entry = Entry(references: seq<Reference>, timestamp: int, hitCount: nat, detectorVersion: string) {
    function Bump(): Entry {
      this.(hitCount := hitCount + 1)
    }
  }

  datatype Config = Config(maxSize: int, ttl: int, detectorVersion: string) {

    predicate Fresh(e: Entry, now: int) {
      now - e.timestamp <= ttl && e.detectorVersion == detectorVersion
    }

    /** Eviction happens at `size >= maxSize`, so even a negative maxSize leaves room for one entry. */
    function Capacity(): int {
      if maxSize < 1 then 1 else maxSize
    }
  }

  /** The two structures of the cache. */
  datatype Contents = Contents(cache: OrderedMap<Key, Entry>, accessOrder: seq<Key>) {

    /** They describe the same resident keys, each once. */
    ghost predicate Coupled() {
      && cache.Valid()
      && NoDuplicates(accessOrder)
      && forall k :: k in accessOrder <==> k in cache.vals
    }

    function Keys(): set<Key> {
      cache.vals.Keys
    }

    function Size(): nat {
      |cache.keys|
    }

    /** Only the keys in S stay, in both structures. */
    function Restrict(S: set<Key>): Contents {
      Contents(cache.Restrict(S), Keep(accessOrder, S))
    }

    function Without(k: Key): Contents {
      Restrict(Keys() - {k})
    }

    function EvictLRU(): Contents {
      if accessOrder == [] then this else Without(accessOrder[0])
    }

    function MakeRoom(c: Config, k: Key): Contents {
      if Size() >= c.maxSize && k !in cache.vals then EvictLRU() else this
    }

    /** k gets the entry e and moves to the most recent end. */
    function Store(k: Key, e: Entry): Contents {
      Contents(cache.Set(k, e), Keep(accessOrder, Keys() - {k}) + [k])
    }

    function Hit(k: Key): Contents
      requires k in cache.vals
    {
      Store(k, cache.vals[k].Bump())
    }

    predicate Live(c: Config, k: Key, now: int) {
      k in cache.vals && c.Fresh(cache.vals[k], now)
    }

    /** A key found stale on the way leaves. */
    function Expire(c: Config, k: Key, now: int): Contents {
      if k in cache.vals && !c.Fresh(cache.vals[k], now) then Without(k) else this
    }

    function StaleKeys(c: Config, now: int): set<Key> {
      set k | k in cache.vals && !c.Fresh(cache.vals[k], now)
    }

    function Purge(c: Config, now: int): Contents {
      Restrict(Keys() - StaleKeys(c, now))
    }
  }

  datatype State = State(contents: Contents, totalHits: nat, totalMisses: nat) {
    function With(x: Contents): State {
      State(x, totalHits, totalMisses)
    }
  }

  const EMPTY := State(Contents(Empty(), []), 0, 0)

  datatype Op =
    | Get(key: Key, now: int)
    | Set(key: Key, references: seq<Reference>, now: int)
    | Has(key: Key, now: int)
    | Delete(key: Key)
    | Prune(now: int)
    | Clear

  datatype Out = Found(references: seq<Reference>) | Missed | Flag(b: bool) | Pruned(count: nat) | Done

  /** The state one call leaves. */
  function Next(c: Config, s: State, op: Op): State {
    var x := s.contents;
    match op
    case Get(k, now) =>
      if x.Live(c, k, now) then State(x.Hit(k), s.totalHits + 1, s.totalMisses)
      else State(x.Expire(c, k, now), s.totalHits, s.totalMisses + 1)
    case Set(k, refs, now) => s.With(x.MakeRoom(c, k).Store(k, Entry(refs, now, 0, c.detectorVersion)))
    case Has(k, now) => s.With(x.Expire(c, k, now))
    case Delete(k) => s.With(x.Without(k))
    case Prune(now) => s.With(x.Purge(c, now))
    case Clear => EMPTY
  }

  /** What one call returns. */
  function Reply(c: Config, x: Contents, op: Op): Out {
    match op
    case Get(k, now) => if x.Live(c, k, now) then Found(x.cache.vals[k].references) else Missed
    case Has(k, now) => Flag(x.Live(c, k, now))
    case Delete(k) => Flag(k in x.cache.vals)
    case Prune(now) => Pruned(|x.StaleKeys(c, now)|)
    case Set(_, _, _) | Clear => Done
  }

  /** The state a list of calls leads to. */
  function RunFrom(c: Config, s: State, ops: seq<Op>): State {
    if ops == [] then s
    else Next(c, RunFrom(c, s, ops[..|ops| - 1]), ops[|ops| - 1])
  }

  function Run(c: Config, ops: seq<Op>): State {
    RunFrom(c, EMPTY, ops)
  }

  lemma RunAppend(c: Config, s: State, ops: seq<Op>, op: Op)
    ensures RunFrom(c, s, ops + [op]) == Next(c, RunFrom(c, s, ops), op)
  {
    hide Next;
    assert (ops + [op])[..|ops|] == ops;
    assert RunFrom(c, s, ops + [op]) == Next(c, RunFrom(c, s, ops), op);
  }

  function Prefix(ops: seq<Op>): seq<Op>
    requires ops != []
  {
    ops[..|ops| - 1]
  }

  function Last(ops: seq<Op>): Op
    requires ops != []
  {
    ops[|ops| - 1]
  }

  /** What the i-th of a list of calls on a new cache returns. */
  function Returned(c: Config, ops: seq<Op>, i: nat): Out
    requires i < |ops|
  {
    Reply(c, Run(c, ops[..i]).contents, ops[i])
  }
}
