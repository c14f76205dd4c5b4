/** `Array.prototype.sort` by a numeric key: stable, so elements with equal keys keep their order. */
module StableSorting {
  function Insert<T>(sorted: seq<T>, x: T, key: T -> int): (s: seq<T>)
    ensures multiset(s) == multiset(sorted) + multiset{x} && |s| == |sorted| + 1
  {
    if sorted == [] then [x]
    else
      var front, last := sorted[..|sorted| - 1], sorted[|sorted| - 1];
      assert sorted == front + [last];
      if key(last) <= key(x) then sorted + [x] else Insert(front, x, key) + [last]
  }

  function SortBy<T>(s: seq<T>, key: T -> int): (sorted: seq<T>)
    ensures multiset(sorted) == multiset(s) && |sorted| == |s|
  {
    if s == [] then []
    else
      assert s == s[..|s| - 1] + [s[|s| - 1]];
      Insert(SortBy(s[..|s| - 1], key), s[|s| - 1], key)
  }

  ghost predicate Sorted<T(!new)>(s: seq<T>, key: T -> int) {
    |s| > 1 ==> Sorted(s[..|s| - 1], key) && key(s[|s| - 2]) <= key(s[|s| - 1])
  }

  lemma {:induction false} SortedPairs<T(!new)>(s: seq<T>, key: T -> int, i: nat, j: nat)
    requires Sorted(s, key) && i <= j < |s|
    ensures key(s[i]) <= key(s[j])
  {
    if i < j {
      SortedPairs(s[..|s| - 1], key, i, if j < |s| - 1 then j else j - 1);
    }
  }

  /** The elements with key p, in order. */
  function WithKey<T>(s: seq<T>, key: T -> int, p: int): seq<T> {
    if s == [] then []
    else
      var front, last := s[..|s| - 1], s[|s| - 1];
      if key(last) == p then WithKey(front, key, p) + [last] else WithKey(front, key, p)
  }

  lemma {:induction false} InsertSorted<T(!new)>(s: seq<T>, x: T, key: T -> int)
    requires Sorted(s, key)
    ensures Sorted(Insert(s, x, key), key)
    ensures Insert(s, x, key)[|s|] == if s != [] && key(s[|s| - 1]) > key(x) then s[|s| - 1] else x
  {
    if s != [] {
      var front, last := s[..|s| - 1], s[|s| - 1];
      if key(last) > key(x) {
        InsertSorted(front, x, key);
        assert (Insert(front, x, key) + [last])[..|s|] == Insert(front, x, key);
      } else {
        assert (s + [x])[..|s|] == s;
      }
    }
  }

  lemma {:induction false} InsertStable<T(!new)>(s: seq<T>, x: T, key: T -> int, p: int)
    ensures WithKey(Insert(s, x, key), key, p) == WithKey(s + [x], key, p)
  {
    assert (s + [x])[..|s|] == s;
    if s != [] {
      var front, last := s[..|s| - 1], s[|s| - 1];
      if key(last) > key(x) {
        InsertStable(front, x, key, p);
        assert (Insert(front, x, key) + [last])[..|s|] == Insert(front, x, key);
        assert (front + [x])[..|front|] == front;
      }
    }
  }

  lemma {:induction false} SortSorts<T(!new)>(s: seq<T>, key: T -> int)
    ensures Sorted(SortBy(s, key), key)
  {
    if s != [] {
      SortSorts(s[..|s| - 1], key);
      InsertSorted(SortBy(s[..|s| - 1], key), s[|s| - 1], key);
    }
  }

  lemma {:induction false} SortIsStable<T(!new)>(s: seq<T>, key: T -> int, p: int)
    ensures WithKey(SortBy(s, key), key, p) == WithKey(s, key, p)
  {
    if s != [] {
      var front, last := s[..|s| - 1], s[|s| - 1];
      SortIsStable(front, key, p);
      InsertStable(SortBy(front, key), last, key, p);
      assert (SortBy(front, key) + [last])[..|front|] == SortBy(front, key);
    }
  }

  lemma {:induction false} SortOfSorted<T(!new)>(s: seq<T>, key: T -> int)
    requires Sorted(s, key)
    ensures SortBy(s, key) == s
  {
    if s != [] {
      var front, last := s[..|s| - 1], s[|s| - 1];
      assert s == front + [last];
      assert front != [] ==> front[|front| - 1] == s[|s| - 2];
      SortOfSorted(front, key);
      assert Insert(front, last, key) == front + [last];
    }
  }
}
