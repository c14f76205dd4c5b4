/** How large a cache restored from any saved data can grow, also when the data names a key twice. */
module CacheOvergrowth {
  import opened Wrappers
  import opened Sequences
  import opened OrderedMaps
  import opened ReferenceCaches
  import opened CacheSnapshot
  import opened RawCaches

  /** Every resident key is in the access order, which may hold more: keys twice, and keys no longer resident. */
  ghost predicate Listed(x: Contents) {
    x.cache.Valid() && forall k :: k in x.cache.vals ==> k in x.accessOrder
  }

  /** What the access order holds beyond one place for each entry, and its length, stay within bounds. */
  ghost predicate Within(x: Contents, surplus: int, length: int) {
    Listed(x) && |x.accessOrder| - x.Size() <= surplus && |x.accessOrder| <= length
  }

  // ---------------------------------------------------------------- sizes

  lemma SpliceSplits(s: seq<Key>, i: nat)
    requires i < |s|
    ensures s == s[..i] + ([s[i]] + s[i + 1..]) && Splice(s, i) == s[..i] + s[i + 1..]
  {
  }

  lemma RemoveFirstHolds(order: seq<Key>, k: Key, other: Key)
    ensures other != k ==> (other in RemoveFirst(order, k) <==> other in order)
    ensures |RemoveFirst(order, k)| == if k in order then |order| - 1 else |order|
  {
    var i := IndexOf(order, k);
    if i > -1 {
      SpliceSplits(order, i);
      var a, b := order[..i], order[i + 1..];
      hide Splice;
      assert other in order <==> other in a || other == k || other in b;
      assert other in a + b <==> other in a || other in b;
    }
    hide IndexOf;
  }

  lemma OneLess(S: set<Key>, k: Key)
    ensures |S - {k}| == if k in S then |S| - 1 else |S|
  {
    if k !in S { assert S - {k} == S; }
  }

  lemma RestrictSize(m: OrderedMap<Key, Entry>, k: Key)
    requires m.Valid()
    ensures |m.Restrict(m.vals.Keys - {k}).keys| == if k in m.vals then |m.keys| - 1 else |m.keys|
  {
    var S := m.vals.Keys;
    var r := m.Restrict(S - {k});
    assert r.Valid() && r.vals.Keys == S - {k};
    hide *;
    KeysAreMany(m);
    KeysAreMany(r);
    OneLess(S, k);
    assert |r.keys| == if k in S then |m.keys| - 1 else |m.keys|;
  }

  // ---------------------------------------------------------------- the upper bound

  lemma DroppedWithin(x: Contents, k: Key, surplus: int, length: int)
    requires Within(x, surplus, length)
    ensures Within(Dropped(x, k), surplus, length)
  {
    RestrictSize(x.cache, k);
    forall other | other in x.cache.vals && other != k ensures other in RemoveFirst(x.accessOrder, k) {
      RemoveFirstHolds(x.accessOrder, k, other);
    }
    RemoveFirstHolds(x.accessOrder, k, k);
  }

  lemma {:induction false} DroppedAllWithin(x: Contents, gone: seq<Key>, surplus: int, length: int)
    requires Within(x, surplus, length)
    ensures Within(DroppedAll(x, gone), surplus, length)
  {
    if gone != [] {
      DroppedAllWithin(x, gone[..|gone| - 1], surplus, length);
      DroppedWithin(DroppedAll(x, gone[..|gone| - 1]), gone[|gone| - 1], surplus, length);
      hide Dropped;
      hide Within;
    }
  }

  /** Evicting a key that is gone already shortens the access order and frees nothing. */
  lemma EvictedWithin(x: Contents, surplus: int, length: int)
    requires Within(x, surplus, length) && x.Size() > 0
    ensures x.accessOrder != [] && Within(Evicted(x), surplus, length - 1)
    ensures Within(Evicted(x), surplus, length)
    ensures Evicted(x).accessOrder == x.accessOrder[1..]
    ensures Evicted(x).Size() == if x.accessOrder[0] in x.cache.vals then x.Size() - 1 else x.Size()
    ensures Evicted(x).Keys() == x.Keys() - {x.accessOrder[0]}
  {
    assert x.cache.keys[0] in x.accessOrder;
    RestrictSize(x.cache, x.accessOrder[0]);
    forall k | k in Evicted(x).cache.vals ensures k in Evicted(x).accessOrder {
      var j :| 0 <= j < |x.accessOrder| && x.accessOrder[j] == k;
      assert x.accessOrder[1..][j - 1] == k;
    }
  }

  lemma StoredWithin(x: Contents, k: Key, e: Entry, surplus: int, length: int)
    requires Within(x, surplus, length)
    requires k in x.cache.vals || |x.accessOrder| + 1 <= length
    ensures Within(Stored(x, k, e), surplus, length)
    ensures Stored(x, k, e).Size() == if k in x.cache.vals then x.Size() else x.Size() + 1
  {
    forall other | other in x.cache.vals && other != k ensures other in RemoveFirst(x.accessOrder, k) {
      RemoveFirstHolds(x.accessOrder, k, other);
    }
    RemoveFirstHolds(x.accessOrder, k, k);
  }

  lemma SetWithin(c: Config, x: Contents, k: Key, e: Entry, surplus: int, length: int)
    requires c.maxSize >= 1 && Within(x, surplus, length) && c.maxSize + surplus <= length
    ensures Within(Stored(WithRoom(c, x, k), k, e), surplus, length)
  {
    if x.Size() >= c.maxSize && k !in x.cache.vals { EvictedWithin(x, surplus, length); }
    hide Evicted;
    StoredWithin(WithRoom(c, x, k), k, e, surplus, length);
  }

  lemma StepWithin(c: Config, s: State, op: Op, surplus: int, length: int)
    requires c.maxSize >= 1 && surplus >= 0 && Within(s.contents, surplus, length) && c.maxSize + surplus <= length
    ensures Within(RawNext(c, s, op).contents, surplus, length)
  {
    var x := s.contents;
    match op {
      case Get(k, now) =>
        DroppedWithin(x, k, surplus, length);
        if x.Live(c, k, now) { StoredWithin(x, k, x.cache.vals[k].Bump(), surplus, length); }
      case Set(k, refs, now) => SetWithin(c, x, k, Entry(refs, now, 0, c.detectorVersion), surplus, length);
      case Has(k, now) => DroppedWithin(x, k, surplus, length);
      case Delete(k) => DroppedWithin(x, k, surplus, length);
      case Prune(now) => DroppedAllWithin(x, StaleInOrder(c, x, now), surplus, length);
      case Clear =>
    }
  }

  lemma {:induction false} RunWithin(c: Config, s: State, ops: seq<Op>, surplus: int, length: int)
    requires c.maxSize >= 1 && surplus >= 0 && Within(s.contents, surplus, length) && c.maxSize + surplus <= length
    ensures Within(RawRunFrom(c, s, ops).contents, surplus, length)
  {
    if ops != [] {
      var front := ops[..|ops| - 1];
      RunWithin(c, s, front, surplus, length);
      StepWithin(c, RawRunFrom(c, s, front), ops[|ops| - 1], surplus, length);
      hide RawNext;
      hide Within;
    }
  }

  lemma SizeWithin(x: Contents, surplus: int, length: int)
    requires Within(x, surplus, length)
    ensures x.Size() <= |x.accessOrder| <= length
  {
    NoDuplicatesCardinality(x.cache.keys);
    CardinalityIff(x.accessOrder);
    SubsetCardinality(Elements(x.cache.keys), Elements(x.accessOrder));
  }

  // ---------------------------------------------------------------- a run that reaches it

  function Longest(keys: seq<Key>): (n: nat)
    ensures forall i :: 0 <= i < |keys| ==> |keys[i]| <= n
  {
    if keys == [] then 0
    else
      var n, last := Longest(keys[..|keys| - 1]), keys[|keys| - 1];
      assert forall i :: 0 <= i < |keys| - 1 ==> keys[i] == keys[..|keys| - 1][i];
      if |last| > n then |last| else n
  }

  /** A key longer than all the given ones. */
  function NewKey(keys: seq<Key>, i: nat): (k: Key)
    ensures |k| == Longest(keys) + 1 + i
  {
    seq(Longest(keys) + 1 + i, _ => 'x')
  }

  function NewKeys(keys: seq<Key>, n: nat): (r: seq<Key>)
    ensures |r| == n && forall i :: 0 <= i < n ==> r[i] == NewKey(keys, i)
  {
    seq(n, i requires 0 <= i < n => NewKey(keys, i))
  }

  function StoreOf(keys: seq<Key>, i: nat): Op {
    Set(NewKey(keys, i), [], 0)
  }

  function Stores(keys: seq<Key>, n: nat): (r: seq<Op>)
    ensures |r| == n && forall i :: 0 <= i < n ==> r[i] == StoreOf(keys, i)
  {
    seq(n, i requires 0 <= i < n => StoreOf(keys, i))
  }

  /** How many stores it takes to fill the cache. */
  function Room(c: Config, x: Contents): nat {
    if x.Size() < c.maxSize then c.maxSize - x.Size() else 0
  }

  function DropFrom(c: Config, x: Contents, n: nat): nat {
    if n > Room(c, x) then n - Room(c, x) else 0
  }

  /** After storing the new keys: they are resident, and the old places leave the order one by one. */
  ghost predicate Filled(c: Config, x: Contents, y: Contents, news: seq<Key>) {
    var d := DropFrom(c, x, |news|);
    && Listed(y)
    && d <= |x.accessOrder| && y.accessOrder == x.accessOrder[d..] + news
    && (forall k :: k in news ==> k in y.cache.vals)
    && (if |news| <= Room(c, x) then y.Size() == x.Size() + |news| else y.Size() >= c.maxSize)
  }

  ghost predicate New(x: Contents, news: seq<Key>) {
    forall k :: k in news ==> k !in x.accessOrder
  }

  lemma StoredNew(y: Contents, k: Key, e: Entry)
    requires Listed(y) && k !in y.accessOrder
    ensures var z := Stored(y, k, e);
      && Listed(z) && z.accessOrder == y.accessOrder + [k] && z.Size() == y.Size() + 1
      && z.cache.vals == y.cache.vals[k := e]
  {
    StoredWithin(y, k, e, |y.accessOrder| - y.Size(), |y.accessOrder| + 1);
    hide OrderedMap.Valid;
  }

  lemma FillWithRoom(c: Config, x: Contents, y: Contents, news: seq<Key>, k: Key, e: Entry)
    requires Filled(c, x, y, news) && |news| < Room(c, x) && k !in x.accessOrder + news
    ensures WithRoom(c, y, k) == y && Filled(c, x, Stored(y, k, e), news + [k])
  {
    assert y.accessOrder == x.accessOrder + news;
    StoredNew(y, k, e);
    hide Stored;
    hide Listed;
    assert Stored(y, k, e).accessOrder == x.accessOrder[0..] + (news + [k]);
  }

  /** A full cache gives up its first old place; the new keys stay. */
  lemma OldLeaves(c: Config, x: Contents, y: Contents, news: seq<Key>)
    requires c.maxSize >= 1 && Filled(c, x, y, news) && New(x, news)
    requires Room(c, x) <= |news| < Room(c, x) + |x.accessOrder|
    ensures y.Size() >= c.maxSize && Listed(Evicted(y)) && Evicted(y).Size() >= c.maxSize - 1
    ensures Evicted(y).accessOrder == x.accessOrder[|news| - Room(c, x) + 1..] + news
    ensures forall k :: k in news ==> k in Evicted(y).cache.vals
  {
    var d := |news| - Room(c, x);
    var front := x.accessOrder[d];
    assert x.accessOrder[d..] == [front] + x.accessOrder[d + 1..];
    assert y.accessOrder == [front] + (x.accessOrder[d + 1..] + news);
    EvictedWithin(y, |y.accessOrder| - y.Size(), |y.accessOrder|);
    assert front in x.accessOrder;
    hide Evicted;
    forall k | k in news ensures k in Evicted(y).cache.vals {
      assert k in Evicted(y).Keys();
    }
  }

  lemma StoredAfterOld(c: Config, x: Contents, z: Contents, news: seq<Key>, k: Key, e: Entry)
    requires Listed(z) && z.Size() >= c.maxSize - 1 && k !in x.accessOrder + news
    requires Room(c, x) <= |news| < Room(c, x) + |x.accessOrder|
    requires z.accessOrder == x.accessOrder[|news| - Room(c, x) + 1..] + news
    requires forall n :: n in news ==> n in z.cache.vals
    ensures Filled(c, x, Stored(z, k, e), news + [k])
  {
    var rest := x.accessOrder[|news| - Room(c, x) + 1..];
    assert k !in rest && k !in rest + news;
    StoredNew(z, k, e);
    hide Stored;
    hide Listed;
    assert Stored(z, k, e).accessOrder == rest + (news + [k]);
  }

  lemma FillWhenFull(c: Config, x: Contents, y: Contents, news: seq<Key>, k: Key, e: Entry)
    requires c.maxSize >= 1 && Filled(c, x, y, news) && New(x, news) && k !in x.accessOrder + news
    requires Room(c, x) <= |news| < Room(c, x) + |x.accessOrder|
    ensures WithRoom(c, y, k) == Evicted(y) && Filled(c, x, Stored(Evicted(y), k, e), news + [k])
  {
    OldLeaves(c, x, y, news);
    assert k !in y.accessOrder;
    assert WithRoom(c, y, k) == Evicted(y);
    hide *;
    StoredAfterOld(c, x, Evicted(y), news, k, e);
    assert Filled(c, x, Stored(Evicted(y), k, e), news + [k]);
  }

  lemma StoresOneMore(c: Config, s: State, keys: seq<Key>, n: nat)
    ensures var y, k := RawRunFrom(c, s, Stores(keys, n)), NewKey(keys, n);
      RawRunFrom(c, s, Stores(keys, n + 1)).contents ==
        Stored(WithRoom(c, y.contents, k), k, Entry([], 0, 0, c.detectorVersion))
  {
    var ops := Stores(keys, n + 1);
    assert ops[..n] == Stores(keys, n) && ops[n] == StoreOf(keys, n);
    hide Stored;
    hide WithRoom;
    assert RawRunFrom(c, s, ops) == RawNext(c, RawRunFrom(c, s, ops[..n]), ops[n]);
  }

  /** The new keys are different from each other and from the old ones. */
  lemma NewKeysAreNew(keys: seq<Key>, n: nat)
    ensures forall k :: k in NewKeys(keys, n) ==> k !in keys
    ensures NewKey(keys, n) !in keys + NewKeys(keys, n)
    ensures NoDuplicates(NewKeys(keys, n)) && NewKeys(keys, n + 1) == NewKeys(keys, n) + [NewKey(keys, n)]
  {
    var news := NewKeys(keys, n);
    forall i, j | 0 <= i < j < n ensures news[i] != news[j] { assert |news[i]| < |news[j]|; }
    forall i | 0 <= i < n ensures news[i] !in keys && news[i] != NewKey(keys, n) { assert |news[i]| > Longest(keys); }
    assert |NewKey(keys, n)| > Longest(keys);
  }

  lemma FillNone(c: Config, x: Contents)
    requires Listed(x)
    ensures Filled(c, x, x, NewKeys(x.accessOrder, 0))
  {
    assert x.accessOrder[0..] + NewKeys(x.accessOrder, 0) == x.accessOrder;
    hide Listed;
  }

  lemma FillNext(c: Config, s: State, keys: seq<Key>, n: nat)
    requires c.maxSize >= 1 && keys == s.contents.accessOrder && n < Room(c, s.contents) + |keys|
    requires Filled(c, s.contents, RawRunFrom(c, s, Stores(keys, n)).contents, NewKeys(keys, n))
    ensures Filled(c, s.contents, RawRunFrom(c, s, Stores(keys, n + 1)).contents, NewKeys(keys, n + 1))
  {
    NewKeysAreNew(keys, n);
    assert New(s.contents, NewKeys(keys, n));
    hide *;
    var y, e := RawRunFrom(c, s, Stores(keys, n)).contents, Entry([], 0, 0, c.detectorVersion);
    StoresOneMore(c, s, keys, n);
    if n < Room(c, s.contents) {
      FillWithRoom(c, s.contents, y, NewKeys(keys, n), NewKey(keys, n), e);
    } else {
      FillWhenFull(c, s.contents, y, NewKeys(keys, n), NewKey(keys, n), e);
    }
    assert Filled(c, s.contents, RawRunFrom(c, s, Stores(keys, n + 1)).contents, NewKeys(keys, n + 1));
  }

  lemma {:induction false} Fill(c: Config, s: State, keys: seq<Key>, n: nat)
    requires c.maxSize >= 1 && Listed(s.contents) && keys == s.contents.accessOrder && n <= Room(c, s.contents) + |keys|
    ensures Filled(c, s.contents, RawRunFrom(c, s, Stores(keys, n)).contents, NewKeys(keys, n))
  {
    hide Filled;
    if n == 0 {
      FillNone(c, s.contents);
    } else {
      hide RawRunFrom;
      Fill(c, s, keys, n - 1);
      FillNext(c, s, keys, n - 1);
    }
    assert Filled(c, s.contents, RawRunFrom(c, s, Stores(keys, n)).contents, NewKeys(keys, n));
  }

  /** Once all old places have left the order, it holds each resident key once. */
  lemma FullSize(c: Config, x: Contents, y: Contents, news: seq<Key>)
    requires c.maxSize >= 1 && Filled(c, x, y, news) && NoDuplicates(news) && |news| == Room(c, x) + |x.accessOrder|
    ensures y.Size() == |news|
  {
    assert y.accessOrder == news;
    NoDuplicatesCardinality(news);
    KeysAreMany(y.cache);
    assert Elements(news) == y.Keys();
  }

  // ---------------------------------------------------------------- restored caches

  function EntriesFor(data: Snapshot, version: string): seq<(Key, Entry)> {
    if data.version == version then data.entries else []
  }

  /** The number of different keys saved. */
  function Distinct(entries: seq<(Key, Entry)>): nat {
    |Elements(KeysOf(entries))|
  }

  /** The size a restored cache can grow to: a key saved twice makes room for one entry too many. */
  function Peak(entries: seq<(Key, Entry)>): int {
    if Distinct(entries) < DEFAULT_MAX_SIZE then DEFAULT_MAX_SIZE + |entries| - Distinct(entries) else |entries|
  }

  lemma RestoredListed(data: Snapshot, version: string)
    ensures var x, entries := Restored(data, version).contents, EntriesFor(data, version);
      Listed(x) && x.Size() == Distinct(entries) && |x.accessOrder| == |entries| && x.Size() <= |entries|
  {
    var x, entries := Restored(data, version).contents, EntriesFor(data, version);
    LoadedKeys(entries);
    KeysAreMany(x.cache);
    CardinalityIff(KeysOf(entries));
    hide Loaded;
    assert x == Loaded(entries);
    assert forall k :: k in x.cache.vals ==> k in Elements(KeysOf(entries));
  }

  /** From any saved data, the peak is an upper bound on the size after any calls, and some calls reach it. */
  lemma {:induction false} RestoredPeak(data: Snapshot, version: string, c: Config)
    requires c.maxSize == DEFAULT_MAX_SIZE
    ensures forall ops :: RawRunFrom(c, Restored(data, version), ops).contents.Size() <= Peak(EntriesFor(data, version))
    ensures exists ops :: RawRunFrom(c, Restored(data, version), ops).contents.Size() == Peak(EntriesFor(data, version))
  {
    var s, entries := Restored(data, version), EntriesFor(data, version);
    RestoredListed(data, version);
    var surplus, length := |entries| - Distinct(entries), Peak(entries);
    hide Restored;
    hide Listed;
    forall ops ensures RawRunFrom(c, s, ops).contents.Size() <= length {
      RunWithin(c, s, ops, surplus, if length < c.maxSize + surplus then c.maxSize + surplus else length);
      SizeWithin(RawRunFrom(c, s, ops).contents, surplus, length);
    }
    var n := Room(c, s.contents) + |s.contents.accessOrder|;
    Fill(c, s, s.contents.accessOrder, n);
    hide Filled;
    NewKeysAreNew(s.contents.accessOrder, n);
    FullSize(c, s.contents, RawRunFrom(c, s, Stores(s.contents.accessOrder, n)).contents, NewKeys(s.contents.accessOrder, n));
  }

  /** A restored cache never outgrows 1000 entries or the saved ones exactly when no key repeats or 1000 are saved. */
  lemma {:induction false} RestoredBoundIff(data: Snapshot, version: string, c: Config)
    requires c.maxSize == DEFAULT_MAX_SIZE
    ensures var entries := EntriesFor(data, version);
      (forall ops ::
         var size := RawRunFrom(c, Restored(data, version), ops).contents.Size();
         size <= DEFAULT_MAX_SIZE || size <= |entries|)
      <==> NoDuplicates(KeysOf(entries)) || Distinct(entries) >= DEFAULT_MAX_SIZE
  {
    var s, entries := Restored(data, version), EntriesFor(data, version);
    RestoredPeak(data, version, c);
    CardinalityIff(KeysOf(entries));
    hide Restored;
    hide RawRunFrom;
    hide NoDuplicates;
    var ops :| RawRunFrom(c, s, ops).contents.Size() == Peak(entries);
  }
}
