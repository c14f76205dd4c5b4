/** Saving a cache and restoring it. The JSON text is taken as the value it denotes. */
module CacheSnapshot {
  import opened Wrappers
  import opened Sequences
  import opened OrderedMaps
  import opened ReferenceCaches
  import opened CacheInvariant

  const DEFAULT_MAX_SIZE := 1000
  const DEFAULT_TTL := 3600000
  const DEFAULT_VERSION := "4.0.0"

  datatype Snapshot = Snapshot(
    version: string, entries: seq<(Key, Entry)>, statistics: Option<(nat, nat)>)

  /** The entries in the map's insertion order. */
  function EntriesOf(m: OrderedMap<Key, Entry>): (r: seq<(Key, Entry)>)
    requires m.Valid()
    ensures |r| == |m.keys|
    ensures forall i :: 0 <= i < |r| ==> r[i] == (m.keys[i], m.vals[m.keys[i]])
  {
    seq(|m.keys|, i requires 0 <= i < |m.keys| => (m.keys[i], m.vals[m.keys[i]]))
  }

  function Saved(version: string, s: State): Snapshot
    requires s.contents.cache.Valid()
  {
    Snapshot(version, EntriesOf(s.contents.cache), Some((s.totalHits, s.totalMisses)))
  }

  /** Each saved entry is put into the map and its key is appended to the access order, unchecked. */
  function Loaded(entries: seq<(Key, Entry)>): Contents {
    if entries == [] then Contents(Empty(), [])
    else
      Load(Loaded(entries[..|entries| - 1]), entries[|entries| - 1])
  }

  function Load(x: Contents, item: (Key, Entry)): Contents {
    Contents(x.cache.Set(item.0, item.1), x.accessOrder + [item.0])
  }

  function Restored(data: Snapshot, version: string): State {
    if data.version != version then EMPTY
    else
      match data.statistics
      case Some((hits, misses)) => State(Loaded(data.entries), hits, misses)
      case None => State(Loaded(data.entries), 0, 0)
  }

  function KeysOf(entries: seq<(Key, Entry)>): (r: seq<Key>)
    ensures |r| == |entries|
    ensures forall i :: 0 <= i < |r| ==> r[i] == entries[i].0
  {
    seq(|entries|, i requires 0 <= i < |entries| => entries[i].0)
  }

  lemma {:induction false} LoadedKeys(entries: seq<(Key, Entry)>)
    ensures Loaded(entries).accessOrder == KeysOf(entries)
    ensures Loaded(entries).Keys() == Elements(KeysOf(entries))
    ensures Loaded(entries).cache.Valid()
  {
    if entries != [] {
      var front, last := entries[..|entries| - 1], entries[|entries| - 1];
      LoadedKeys(front);
      assert KeysOf(entries) == KeysOf(front) + [last.0];
    }
  }

  /** A restored cache is consistent exactly when no key was saved twice. */
  lemma {:induction false} RestoredCoupledIffDistinct(data: Snapshot, version: string)
    requires data.version == version
    ensures Restored(data, version).contents.Coupled() <==> NoDuplicates(KeysOf(data.entries))
  {
    LoadedKeys(data.entries);
  }

  /** Without repeated keys, loading keeps the saved order ... */
  lemma {:induction false} LoadedInOrder(entries: seq<(Key, Entry)>)
    requires NoDuplicates(KeysOf(entries))
    ensures Loaded(entries).cache.keys == KeysOf(entries)
  {
    if entries != [] {
      var n := |entries| - 1;
      var front, keys := entries[..n], KeysOf(entries);
      assert KeysOf(front) == keys[..n];
      LoadedInOrder(front);
      LoadedKeys(front);
      assert keys[n] !in keys[..n];
      hide NoDuplicates;
      assert Loaded(entries) == Load(Loaded(front), entries[n]);
    }
  }

  ghost predicate MapsTo(m: map<Key, Entry>, item: (Key, Entry)) {
    item.0 in m && m[item.0] == item.1
  }

  /** ... and every saved entry. */
  lemma {:induction false} LoadedEntry(entries: seq<(Key, Entry)>, i: nat)
    requires NoDuplicates(KeysOf(entries)) && i < |entries|
    ensures MapsTo(Loaded(entries).cache.vals, entries[i])
  {
    var n := |entries| - 1;
    var front, keys := entries[..n], KeysOf(entries);
    if i < n {
      assert KeysOf(front) == keys[..n];
      LoadedEntry(front, i);
      assert keys[i] != keys[n];
    }
  }

  /**
    Restoring what was saved under the same version brings back every entry and both counters. The recency
    order is not saved: the keys come back in the map's insertion order.
  */
  lemma {:induction false} RestoreSaved(version: string, s: State)
    requires s.contents.cache.Valid()
    ensures Restored(Saved(version, s), version)
         == State(Contents(s.contents.cache, s.contents.cache.keys), s.totalHits, s.totalMisses)
    ensures Restored(Saved(version, s), version).contents.Coupled()
    ensures Restored(Saved(version, s), version) == s <==> s.contents.accessOrder == s.contents.cache.keys
  {
    var m := s.contents.cache;
    var entries := EntriesOf(m);
    assert KeysOf(entries) == m.keys;
    LoadedInOrder(entries);
    LoadedKeys(entries);
    forall i | 0 <= i < |m.keys| ensures MapsTo(Loaded(entries).cache.vals, (m.keys[i], m.vals[m.keys[i]])) {
      LoadedEntry(entries, i);
    }
    hide Loaded;
    assert Loaded(EntriesOf(m)).cache.vals == m.vals;
  }

  /** The restored cache evicts another key next than the saved one would exactly when the two orders start differently. */
  lemma RestoredVictimIff(version: string, s: State)
    requires s.contents.Coupled() && s.contents.accessOrder != []
    ensures var r := Restored(Saved(version, s), version);
      && s.contents.Keys() == r.contents.Keys() && s.contents.cache.keys != []
      && (s.contents.EvictLRU().Keys() != r.contents.EvictLRU().Keys() <==>
            s.contents.accessOrder[0] != s.contents.cache.keys[0])
  {
    var x, y := s.contents, Restored(Saved(version, s), version).contents;
    RestoreSaved(version, s);
    SizeIsOrderLength(x);
    EvictCoupled(x);
    EvictCoupled(y);
    assert x.accessOrder[0] in x.Keys() && y.accessOrder[0] in x.Keys();
  }

  lemma OneStore(c: Config, a: Key, refs: seq<Reference>, now: int)
    requires c.maxSize >= 2
    ensures var e := Entry(refs, now, 0, c.detectorVersion);
      Next(c, EMPTY, Set(a, refs, now)).contents == Contents(OrderedMap([a], map[a := e]), [a])
  {
    assert [] + [a] == [a];
  }

  lemma SecondStore(c: Config, s: State, a: Key, b: Key, e: Entry)
    requires c.maxSize >= 2 && a != b && e.hitCount == 0 && e.detectorVersion == c.detectorVersion
    requires s.contents == Contents(OrderedMap([a], map[a := e]), [a])
    ensures Next(c, s, Set(b, e.references, e.timestamp)).contents ==
      Contents(OrderedMap([a, b], map[a := e, b := e]), [a, b])
  {
    KeepAll([a], s.contents.Keys() - {b});
    assert [a] + [b] == [a, b];
  }

  lemma GetOlder(c: Config, s: State, a: Key, b: Key, e: Entry)
    requires c.ttl >= 0 && a != b && e.detectorVersion == c.detectorVersion
    requires s.contents == Contents(OrderedMap([a, b], map[a := e, b := e]), [a, b])
    ensures var x := Next(c, s, Get(a, e.timestamp)).contents;
      x.cache.keys == [a, b] && x.accessOrder == [b, a]
  {
    var rest := s.contents.Keys() - {a};
    assert [a] + [b] == [a, b];
    KeepConcat([a], [b], rest);
    KeepAll([b], rest);
    KeepAppend([], a, rest);
    assert [] + [a] == [a] && [] + [b] == [b];
  }

  /** Two stores and a look-up of the older key are enough: the key used last becomes the restored cache's next victim. */
  lemma RestoredForgetsUse(c: Config, a: Key, b: Key, refs: seq<Reference>, now: int)
    requires c.maxSize >= 2 && c.ttl >= 0 && a != b
    ensures var s := Run(c, [Set(a, refs, now), Set(b, refs, now), Get(a, now)]);
      && s.contents.Coupled()
      && s.contents.accessOrder == [b, a] && s.contents.cache.keys == [a, b]
      && b !in s.contents.EvictLRU().Keys()
      && a !in Restored(Saved(c.detectorVersion, s), c.detectorVersion).contents.EvictLRU().Keys()
  {
    hide Next;
    var x, y, z := Set(a, refs, now), Set(b, refs, now), Get(a, now);
    var e := Entry(refs, now, 0, c.detectorVersion);
    var ops := [x, y, z];
    assert [x] == [] + [x] && [x, y] == [x] + [y] && ops == [x, y] + [z];
    var s1, s2, s := Run(c, [x]), Run(c, [x, y]), Run(c, ops);
    RunAppend(c, EMPTY, [], x);
    RunAppend(c, EMPTY, [x], y);
    RunAppend(c, EMPTY, [x, y], z);
    assert s1 == Next(c, EMPTY, x) && s2 == Next(c, s1, y) && s == Next(c, s2, z);
    OneStore(c, a, refs, now);
    SecondStore(c, s1, a, b, e);
    GetOlder(c, s2, a, b, e);
    RunKeepsInvariant(c, EMPTY, ops);
    hide RunFrom;
    RestoreSaved(c.detectorVersion, s);
    EvictCoupled(s.contents);
    EvictCoupled(Restored(Saved(c.detectorVersion, s), c.detectorVersion).contents);
  }
}
