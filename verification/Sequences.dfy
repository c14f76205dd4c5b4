/** Order-preserving operations on sequences, shared by the models of JavaScript arrays, Maps and Sets. */
module Sequences {

  ghost predicate NoDuplicates<T>(s: seq<T>) {
    forall i, j :: 0 <= i < j < |s| ==> s[i] != s[j]
  }

  /** `Array.prototype.indexOf`: the first position of x, or -1. */
  function IndexOf<T(==)>(s: seq<T>, x: T): (i: int)
    ensures -1 <= i < |s|
    ensures i == -1 <==> x !in s
    ensures 0 <= i ==> s[i] == x && x !in s[..i]
  {
    if s == [] then -1
    else if s[0] == x then 0
    else
      var i := IndexOf(s[1..], x);
      if i == -1 then -1 else i + 1
  }

  /** `Array.prototype.splice(i, 1)`, as the array that remains. */
  function Splice<T>(s: seq<T>, i: nat): seq<T>
    requires i < |s|
  {
    s[..i] + s[i + 1..]
  }

  function Elements<T(==)>(s: seq<T>): set<T> {
    set x | x in s
  }

  /** The elements of s that belong to S, in their order. */
  function Keep<T(==, !new)>(s: seq<T>, S: set<T>): (r: seq<T>)
    ensures forall x :: x in r <==> x in s && x in S
    ensures |r| <= |s|
  {
    if s == [] then []
    else
      var front := Keep(s[..|s| - 1], S);
      if s[|s| - 1] in S then front + [s[|s| - 1]] else front
  }

  lemma {:induction false} KeepAppend<T(!new)>(s: seq<T>, x: T, S: set<T>)
    ensures Keep(s + [x], S) == Keep(s, S) + (if x in S then [x] else [])
  {
    assert (s + [x])[..|s|] == s;
  }

  lemma {:induction false} KeepConcat<T(!new)>(s: seq<T>, t: seq<T>, S: set<T>)
    ensures Keep(s + t, S) == Keep(s, S) + Keep(t, S)
  {
    if t == [] {
      assert s + t == s;
    } else {
      var n := |t| - 1;
      assert s + t == (s + t[..n]) + [t[n]];
      KeepConcat(s, t[..n], S);
      KeepAppend(s + t[..n], t[n], S);
    }
  }

  lemma {:induction false} KeepAll<T(!new)>(s: seq<T>, S: set<T>)
    requires forall x :: x in s ==> x in S
    ensures Keep(s, S) == s
  {
    if s != [] {
      assert s == s[..|s| - 1] + [s[|s| - 1]];
      KeepAll(s[..|s| - 1], S);
    }
  }

  lemma {:induction false} KeepKeep<T(!new)>(s: seq<T>, S: set<T>, T': set<T>)
    ensures Keep(Keep(s, S), T') == Keep(s, S * T')
  {
    if s != [] {
      KeepKeep(s[..|s| - 1], S, T');
      KeepAppend(Keep(s[..|s| - 1], S), s[|s| - 1], T');
    }
  }

  /** Only membership of the elements of s matters to Keep. */
  lemma {:induction false} KeepSame<T(!new)>(s: seq<T>, S: set<T>, T': set<T>)
    requires forall x :: x in s ==> (x in S <==> x in T')
    ensures Keep(s, S) == Keep(s, T')
  {
    if s != [] {
      assert forall x :: x in s[..|s| - 1] ==> x in s;
      KeepSame(s[..|s| - 1], S, T');
    }
  }

  lemma {:induction false} KeepNoDuplicates<T(!new)>(s: seq<T>, S: set<T>)
    requires NoDuplicates(s)
    ensures NoDuplicates(Keep(s, S))
  {
    if s != [] {
      KeepNoDuplicates(s[..|s| - 1], S);
    }
  }

  /** Cutting out the first (and only) occurrence of s[i] is the same as filtering it away. */
  lemma {:induction false} SpliceIsKeep<T(!new)>(s: seq<T>, i: nat, S: set<T>)
    requires NoDuplicates(s) && i < |s|
    requires forall x :: x in s ==> (x in S <==> x != s[i])
    ensures Splice(s, i) == Keep(s, S)
  {
    var before, at, after := s[..i], [s[i]], s[i + 1..];
    assert s == (before + at) + after;
    KeepConcat(before + at, after, S);
    KeepAppend(before, s[i], S);
    assert forall x :: x in before ==> x in S by {
      forall x | x in before ensures x in S {
        var j :| 0 <= j < |before| && before[j] == x;
        assert s[j] == x && s[j] != s[i];
      }
    }
    assert forall x :: x in after ==> x in S by {
      forall x | x in after ensures x in S {
        var j :| 0 <= j < |after| && after[j] == x;
        assert s[i + 1 + j] == x && s[i] != s[i + 1 + j];
      }
    }
    KeepAll(before, S);
    KeepAll(after, S);
  }

  /** The elements of a duplicate-free sequence are as many as its positions. */
  lemma {:induction false} NoDuplicatesCardinality<T(!new)>(s: seq<T>)
    requires NoDuplicates(s)
    ensures |Elements(s)| == |s|
  {
    if s == [] {
      assert Elements(s) == {};
    } else {
      var n := |s| - 1;
      NoDuplicatesCardinality(s[..n]);
      assert Elements(s) == Elements(s[..n]) + {s[n]};
      assert s[n] !in s[..n];
    }
  }

  lemma SubsetCardinality<T(!new)>(a: set<T>, b: set<T>)
    requires a <= b
    ensures |a| <= |b|
  {
    assert b == a + (b - a);
  }

  /** A sequence has as many distinct elements as positions exactly when it repeats none. */
  lemma {:induction false} CardinalityIff<T(!new)>(s: seq<T>)
    ensures |Elements(s)| <= |s|
    ensures |Elements(s)| == |s| <==> NoDuplicates(s)
  {
    if s == [] {
      assert Elements(s) == {};
    } else {
      var n := |s| - 1;
      var front, last := s[..n], s[n];
      CardinalityIff(front);
      assert Elements(s) == Elements(front) + {last};
      if last in front {
        assert Elements(s) == Elements(front);
        var i :| 0 <= i < n && front[i] == last;
        assert s[i] == s[n];
      } else {
        assert NoDuplicates(front) ==> NoDuplicates(s);
        assert NoDuplicates(s) ==> NoDuplicates(front);
      }
    }
  }
}
