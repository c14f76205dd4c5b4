/**
  The cache object: its methods update the fields in place as the source does. Each takes the step `RawNext`, whatever
  state the two structures are in; on a consistent cache that is `Next`, and the cache stays consistent.
*/
module CacheClass {
  import opened Wrappers
  import opened Sequences
  import opened OrderedMaps
  import opened ReferenceCaches
  import opened CacheInvariant
  import opened CacheSnapshot
  import opened RawCaches

  class ReferenceCache {
    const config: Config
    var cache: OrderedMap<Key, Entry>
    var accessOrder: seq<Key>
    var totalHits: nat
    var totalMisses: nat

    ghost function Held(): Contents
      reads this
    {
      Contents(cache, accessOrder)
    }

    ghost function Abs(): State
      reads this
    {
      State(Held(), totalHits, totalMisses)
    }

    /** The map is a map, whatever the access order holds. */
    ghost predicate MapValid()
      reads this
    {
      cache.Valid()
    }

    ghost predicate Valid()
      reads this
    {
      Held().Coupled()
    }

    /** The object has taken the step from the given state, and a consistent cache has stayed one. */
    ghost predicate Took(before: State, op: Op)
      reads this
    {
      && MapValid()
      && Abs() == RawNext(config, before, op)
      && (before.contents.Coupled() ==> Valid() && Abs() == Next(config, before, op))
    }

    /** Zero and the empty string count as missing options. */
    constructor (maxSize: Option<int>, ttl: Option<int>, detectorVersion: Option<string>)
      ensures Valid() && Abs() == EMPTY
      ensures config.maxSize == if maxSize == None || maxSize == Some(0) then 1000 else maxSize.value
      ensures config.ttl == if ttl == None || ttl == Some(0) then 3600000 else ttl.value
      ensures config.detectorVersion ==
        if detectorVersion == None || detectorVersion == Some("") then "4.0.0" else detectorVersion.value
    {
      config := Config(
        if maxSize.Some? && maxSize.value != 0 then maxSize.value else DEFAULT_MAX_SIZE,
        if ttl.Some? && ttl.value != 0 then ttl.value else DEFAULT_TTL,
        if detectorVersion.Some? && detectorVersion.value != "" then detectorVersion.value else DEFAULT_VERSION);
      cache := Empty();
      accessOrder := [];
      totalHits, totalMisses := 0, 0;
    }

    /** The first place of the key is cut out. Without repetition, the key goes and the rest keeps its order. */
    method RemoveFromAccessOrder(key: Key)
      modifies this`accessOrder
      ensures accessOrder == RemoveFirst(old(accessOrder), key)
      ensures CutsFirst(old(accessOrder), accessOrder, key)
      ensures NoDuplicates(old(accessOrder)) ==>
        accessOrder == Keep(old(accessOrder), Elements(old(accessOrder)) - {key})
    {
      RemoveFirstCuts(accessOrder, key);
      if NoDuplicates(accessOrder) {
        RemoveFirstIsKeep(accessOrder, key, Elements(accessOrder) - {key});
      }
      var index := IndexOf(accessOrder, key);
      if index > -1 {
        accessOrder := Splice(accessOrder, index);
      }
    }

    method UpdateAccessOrder(key: Key)
      modifies this`accessOrder
      ensures accessOrder == RemoveFirst(old(accessOrder), key) + [key]
      ensures NoDuplicates(old(accessOrder)) ==>
        accessOrder == Keep(old(accessOrder), Elements(old(accessOrder)) - {key}) + [key]
    {
      RemoveFromAccessOrder(key);
      accessOrder := accessOrder + [key];
    }

    /** `Map.prototype.delete` and the matching removal from the access order. */
    method Drop(key: Key)
      requires MapValid()
      modifies this`cache, this`accessOrder
      ensures MapValid() && Held() == Dropped(old(Held()), key)
    {
      cache := cache.Restrict(cache.vals.Keys - {key});
      RemoveFromAccessOrder(key);
    }

    method EvictLRU()
      requires MapValid()
      modifies this`cache, this`accessOrder
      ensures MapValid() && Held() == Evicted(old(Held()))
      ensures old(Valid()) ==> Valid() && Held() == old(Held()).EvictLRU()
    {
      if Valid() {
        EvictCoupled(Held());
        EvictedIsEvict(Held());
      }
      if |accessOrder| == 0 { return; }
      var lruKey := accessOrder[0];
      cache := cache.Restrict(cache.vals.Keys - {lruKey});
      accessOrder := accessOrder[1..];
    }

    /** On a consistent cache the step is the one `Next` describes. */
    lemma Agrees(before: State, op: Op)
      ensures before.contents.Coupled() ==> RawNext(config, before, op) == Next(config, before, op)
      ensures before.contents.Coupled() ==> Next(config, before, op).contents.Coupled()
    {
      if before.contents.Coupled() {
        RawIsNext(config, before, op);
        NextKeepsInvariant(config, before, op);
      }
    }

    method Get(key: Key, now: int) returns (r: Option<seq<Reference>>)
      requires MapValid()
      modifies this
      ensures Took(old(Abs()), Op.Get(key, now))
      ensures Reply(config, old(Held()), Op.Get(key, now)) == if r.Some? then Found(r.value) else Missed
    {
      Agrees(Abs(), Op.Get(key, now));
      hide Next;
      hide Keep;
      hide IndexOf;
      hide Splice;
      hide Contents.Coupled;
      if key !in cache.vals {
        totalMisses := totalMisses + 1;
        return None;
      }
      var entry := cache.vals[key];
      if now - entry.timestamp > config.ttl {
        Drop(key);
        totalMisses := totalMisses + 1;
        return None;
      }
      if entry.detectorVersion != config.detectorVersion {
        Drop(key);
        totalMisses := totalMisses + 1;
        return None;
      }
      totalHits := totalHits + 1;
      cache := cache.Set(key, entry.Bump());
      UpdateAccessOrder(key);
      assert Took(old(Abs()), Op.Get(key, now));
      return Some(entry.references);
    }

    method Set(key: Key, references: seq<Reference>, now: int)
      requires MapValid()
      modifies this
      ensures Took(old(Abs()), Op.Set(key, references, now))
    {
      Agrees(Abs(), Op.Set(key, references, now));
      hide Next;
      hide Keep;
      hide IndexOf;
      hide Splice;
      hide Contents.Coupled;
      if |cache.keys| >= config.maxSize && key !in cache.vals {
        EvictLRU();
      }
      cache := cache.Set(key, Entry(references, now, 0, config.detectorVersion));
      UpdateAccessOrder(key);
      assert Took(old(Abs()), Op.Set(key, references, now));
    }

    method Has(key: Key, now: int) returns (b: bool)
      requires MapValid()
      modifies this
      ensures Took(old(Abs()), Op.Has(key, now))
      ensures Reply(config, old(Held()), Op.Has(key, now)) == Flag(b)
    {
      Agrees(Abs(), Op.Has(key, now));
      if key !in cache.vals { return false; }
      var entry := cache.vals[key];
      if now - entry.timestamp > config.ttl || entry.detectorVersion != config.detectorVersion {
        Drop(key);
        return false;
      }
      return true;
    }

    method Delete(key: Key) returns (b: bool)
      requires MapValid()
      modifies this
      ensures Took(old(Abs()), Op.Delete(key))
      ensures Reply(config, old(Held()), Op.Delete(key)) == Flag(b)
    {
      Agrees(Abs(), Op.Delete(key));
      b := key in cache.vals;
      Drop(key);
    }

    method Clear()
      modifies this
      ensures Valid() && Abs() == EMPTY
    {
      cache := Empty();
      accessOrder := [];
      totalHits := 0;
      totalMisses := 0;
    }

    method StaleKeys(now: int) returns (keysToDelete: seq<Key>)
      requires MapValid()
      ensures keysToDelete == StaleInOrder(config, Held(), now)
    {
      ghost var stale := Held().StaleKeys(config, now);
      keysToDelete := [];
      for i := 0 to |cache.keys|
        invariant keysToDelete == Keep(cache.keys[..i], stale)
      {
        var key := cache.keys[i];
        var entry := cache.vals[key];
        assert cache.keys[..i + 1] == cache.keys[..i] + [key];
        KeepAppend(cache.keys[..i], key, stale);
        if now - entry.timestamp > config.ttl || entry.detectorVersion != config.detectorVersion {
          keysToDelete := keysToDelete + [key];
        }
      }
      assert cache.keys[..|cache.keys|] == cache.keys;
    }

    method DropKeys(keysToDelete: seq<Key>) returns (pruned: nat)
      requires MapValid()
      modifies this`cache, this`accessOrder
      ensures MapValid() && Held() == DroppedAll(old(Held()), keysToDelete) && pruned == |keysToDelete|
    {
      hide Dropped;
      ghost var before := Held();
      pruned := 0;
      for i := 0 to |keysToDelete|
        invariant MapValid() && pruned == i
        invariant Held() == DroppedAll(before, keysToDelete[..i])
      {
        assert keysToDelete[..i + 1][..i] == keysToDelete[..i];
        Drop(keysToDelete[i]);
        pruned := pruned + 1;
      }
      assert keysToDelete[..|keysToDelete|] == keysToDelete;
    }

    method PruneExpired(now: int) returns (pruned: nat)
      requires MapValid()
      modifies this
      ensures Took(old(Abs()), Op.Prune(now))
      ensures Reply(config, old(Held()), Op.Prune(now)) == Pruned(pruned)
    {
      Agrees(Abs(), Op.Prune(now));
      StaleInOrderIsAll(config, Held(), now);
      hide Next;
      hide DroppedAll;
      hide StaleInOrder;
      hide Contents.Coupled;
      var keysToDelete := StaleKeys(now);
      pruned := DropKeys(keysToDelete);
      assert Took(old(Abs()), Op.Prune(now));
    }

    /** What is saved brings back the map and the counters, with the map's order as the access order. */
    method Serialize() returns (data: Snapshot)
      requires MapValid()
      ensures data == Saved(config.detectorVersion, Abs())
      ensures Restored(data, config.detectorVersion) == State(Contents(cache, cache.keys), totalHits, totalMisses)
    {
      RestoreSaved(config.detectorVersion, Abs());
      data := Snapshot(config.detectorVersion, EntriesOf(cache), Some((totalHits, totalMisses)));
    }

    static method Deserialize(data: Snapshot, detectorVersion: string) returns (c: ReferenceCache)
      ensures fresh(c) && c.MapValid() && c.Abs() == Restored(data, detectorVersion)
      ensures data.version != detectorVersion ==> c.Abs() == EMPTY
      ensures data.version == detectorVersion ==>
        (c.totalHits, c.totalMisses) == if data.statistics.Some? then data.statistics.value else (0, 0)
      ensures c.config.maxSize == 1000 && c.config.ttl == 3600000
      ensures c.config.detectorVersion == if detectorVersion == "" then "4.0.0" else detectorVersion
    {
      c := new ReferenceCache(None, None, Some(detectorVersion));
      if data.version == detectorVersion {
        for i := 0 to |data.entries|
          invariant fresh(c) && c.MapValid()
          invariant c.Held() == Loaded(data.entries[..i]) && c.totalHits == c.totalMisses == 0
        {
          var (key, entry) := data.entries[i];
          assert data.entries[..i + 1] == data.entries[..i] + [data.entries[i]];
          c.cache := c.cache.Set(key, entry);
          c.accessOrder := c.accessOrder + [key];
        }
        assert data.entries[..|data.entries|] == data.entries;
        if data.statistics.Some? {
          c.totalHits := data.statistics.value.0;
          c.totalMisses := data.statistics.value.1;
        }
      }
    }
  }
}
