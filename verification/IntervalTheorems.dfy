/** What reference reduction promises, for every list of references. */
module IntervalTheorems {
  import opened StableSorting
  import opened Intervals

  /** The result of the reduction. */
  ghost function Reduced(refs: seq<DetectedReference>): seq<DetectedReference> {
    Survivors(StableSort(refs))
  }

  /** Strictly increasing at both ends. */
  ghost predicate Increasing(xs: seq<Span>) {
    |xs| > 1 ==>
      && Increasing(xs[..|xs| - 1])
      && xs[|xs| - 2].lo < xs[|xs| - 1].lo && xs[|xs| - 2].hi < xs[|xs| - 1].hi
  }

  lemma {:induction false} IncreasingPairs(xs: seq<Span>, i: nat, j: nat)
    requires Increasing(xs) && i < j < |xs|
    ensures xs[i].lo < xs[j].lo && xs[i].hi < xs[j].hi
  {
    if j < |xs| - 1 {
      IncreasingPairs(xs[..|xs| - 1], i, j);
    } else if i < j - 1 {
      IncreasingPairs(xs[..|xs| - 1], i, j - 1);
    }
  }

  lemma IncreasingAppend(xs: seq<Span>, x: Span)
    requires Increasing(xs)
    requires xs != [] ==> xs[|xs| - 1].lo < x.lo && xs[|xs| - 1].hi < x.hi
    ensures Increasing(xs + [x])
  {
    assert (xs + [x])[..|xs|] == xs;
  }

  lemma SpansAppend(refs: seq<DetectedReference>, r: DetectedReference)
    ensures Spans(refs + [r]) == Spans(refs) + [SpanOf(r)]
  {
  }

  lemma SurvivorsApart(s: seq<DetectedReference>, i: nat, j: nat)
    requires SortedByStart(s) && i < j < |s| && Survives(s, i) && Survives(s, j)
    ensures SpanOf(s[i]).lo < SpanOf(s[j]).lo && SpanOf(s[i]).hi < SpanOf(s[j]).hi
  {
    SortedPairs(s, BY_START, i, j);
    assert !Within(SpanOf(s[j]), SpanOf(s[i]));
    assert !Within(SpanOf(s[i]), SpanOf(s[j]));
  }

  lemma {:induction false} SurvivorsIncreaseUpTo(s: seq<DetectedReference>, n: nat)
    requires SortedByStart(s) && n <= |s|
    ensures Increasing(Spans(SurvivorsUpTo(s, n)))
  {
    if n > 0 {
      SurvivorsIncreaseUpTo(s, n - 1);
      var kept, x := SurvivorsUpTo(s, n - 1), s[n - 1];
      if Survives(s, n - 1) {
        if kept != [] {
          LastSurvivorBefore(s, n);
        }
        hide Survives;
        hide Sorted;
        SpansAppend(kept, x);
        IncreasingAppend(Spans(kept), SpanOf(x));
      }
    }
  }

  lemma LastSurvivorBefore(s: seq<DetectedReference>, n: nat)
    requires SortedByStart(s) && 0 < n <= |s| && Survives(s, n - 1) && SurvivorsUpTo(s, n - 1) != []
    ensures var kept := SurvivorsUpTo(s, n - 1);
      var last, x := SpanOf(kept[|kept| - 1]), SpanOf(s[n - 1]);
      last.lo < x.lo && last.hi < x.hi
  {
    hide SurvivorsUpTo;
    hide Sorted;
    var kept := SurvivorsUpTo(s, n - 1);
    SurvivorIsInput(s, n - 1, kept[|kept| - 1]);
    hide Survives;
    var i :| 0 <= i < n - 1 && s[i] == kept[|kept| - 1] && Survives(s, i);
    SurvivorsApart(s, i, n - 1);
  }

  /** The result lies in text order, both its starts and its ends strictly increasing. */
  lemma {:induction false} ReducedIncreases(refs: seq<DetectedReference>)
    ensures Increasing(Spans(Reduced(refs)))
  {
    SortSorts(refs, BY_START);
    SurvivorsIncreaseUpTo(StableSort(refs), |refs|);
  }

  ghost predicate CoveredBy(x: Span, kept: seq<DetectedReference>) {
    exists r :: r in kept && Within(x, SpanOf(r))
  }

  lemma {:induction false} OutsideKeeps(kept: seq<DetectedReference>, x: Span, r: DetectedReference)
    requires r in kept && !Within(SpanOf(r), x)
    ensures r in Outside(kept, x)
  {
    if r in kept[..|kept| - 1] { OutsideKeeps(kept[..|kept| - 1], x, r); }
  }

  lemma {:induction false} SurvivorsCover(s: seq<DetectedReference>, r: DetectedReference)
    requires r in s
    ensures CoveredBy(SpanOf(r), Survivors(s))
    decreases |s|
  {
    var front, last := s[..|s| - 1], s[|s| - 1];
    assert s == front + [last];
    SurvivorsStep(front, last);
    if r in front {
      SurvivorsCover(front, r);
      var u :| u in Survivors(front) && Within(SpanOf(r), SpanOf(u));
      if !Covered(front, SpanOf(last)) {
        if Within(SpanOf(u), SpanOf(last)) {
          assert last in Survivors(s);
        } else {
          OutsideKeeps(Survivors(front), SpanOf(last), u);
          assert u in Survivors(s);
        }
      }
    } else if Covered(front, SpanOf(last)) {
      var j :| 0 <= j < |front| && Within(SpanOf(last), SpanOf(front[j]));
      SurvivorsCover(front, front[j]);
      var u :| u in Survivors(front) && Within(SpanOf(front[j]), SpanOf(u));
      assert u in Survivors(s) && Within(SpanOf(r), SpanOf(u));
    } else {
      assert last in Survivors(s);
    }
  }

  lemma SameMembers(a: seq<DetectedReference>, b: seq<DetectedReference>, r: DetectedReference)
    requires multiset(a) == multiset(b)
    ensures r in a <==> r in b
  {
    assert r in a <==> r in multiset(a);
    assert r in b <==> r in multiset(b);
  }

  /** No detected interval is lost: each input reference lies within one of the result. */
  lemma {:induction false} ReducedCovers(refs: seq<DetectedReference>, r: DetectedReference)
    requires r in refs
    ensures CoveredBy(SpanOf(r), Reduced(refs))
  {
    SameMembers(refs, StableSort(refs), r);
    SurvivorsCover(StableSort(refs), r);
  }

  lemma MaximalSame(a: seq<DetectedReference>, b: seq<DetectedReference>, x: Span)
    requires multiset(a) == multiset(b)
    ensures Maximal(a, x) <==> Maximal(b, x)
  {
    forall r ensures r in a <==> r in b { SameMembers(a, b, r); }
  }

  /** The surviving spans are the inclusion-maximal spans of the input, no more and no fewer. */
  lemma {:induction false} ReducedIsMaximal(refs: seq<DetectedReference>, x: Span)
    ensures x in Spans(Reduced(refs)) <==> Maximal(refs, x)
  {
    var s := StableSort(refs);
    MaximalSame(refs, s, x);
    if x in Spans(Reduced(refs)) {
      var i :| 0 <= i < |Reduced(refs)| && Spans(Reduced(refs))[i] == x;
      SurvivorsAreMaximal(s, Reduced(refs)[i]);
    }
    if Maximal(s, x) {
      var r := s[FirstWithSpan(s, x)];
      SurvivorsAreMaximal(s, r);
      var i :| 0 <= i < |Reduced(refs)| && Reduced(refs)[i] == r;
      assert Spans(Reduced(refs))[i] == x;
    }
  }

  // ---------------------------------------------------------------- which reference represents a span

  ghost predicate Spanned(s: seq<DetectedReference>, x: Span) {
    exists r :: r in s && SpanOf(r) == x
  }

  /** The first reference with a span stays the first when more references follow. */
  lemma FirstStaysFirst(s: seq<DetectedReference>, r: DetectedReference, x: Span)
    requires Spanned(s, x) || SpanOf(r) == x
    ensures Spanned(s + [r], x)
    ensures FirstWithSpan(s + [r], x) == if Spanned(s, x) then FirstWithSpan(s, x) else |s|
  {
    var all := s + [r];
    assert all[|s|] == r && forall j :: 0 <= j < |s| ==> all[j] == s[j];
    if Spanned(s, x) {
      var y :| y in s && SpanOf(y) == x;
      assert y in all;
    } else {
      assert r in all;
      forall j | 0 <= j < |s| ensures SpanOf(all[j]) != x { assert s[j] in s; }
    }
  }

  /** The references with the start of a span keep the first reference with that span. */
  lemma {:induction false} FirstWithStart(s: seq<DetectedReference>, x: Span)
    ensures Spanned(s, x) <==> Spanned(WithKey(s, BY_START, x.lo), x)
    ensures Spanned(s, x) ==>
      var w := WithKey(s, BY_START, x.lo); w[FirstWithSpan(w, x)] == s[FirstWithSpan(s, x)]
  {
    if s != [] {
      var front, last := s[..|s| - 1], s[|s| - 1];
      assert s == front + [last];
      FirstWithStart(front, x);
      if Spanned(front, x) || SpanOf(last) == x {
        FirstStaysFirst(front, last, x);
        if Start(last) == x.lo { FirstStaysFirst(WithKey(front, BY_START, x.lo), last, x); }
      }
    }
  }

  /**
    In terms of the given list: a reference is kept exactly when no other one strictly covers it and it is the first
    of those with its span. Neither its text nor its confidence matters.
  */
  lemma {:induction false} ReducedKeepsFirst(refs: seq<DetectedReference>, r: DetectedReference)
    ensures r in Reduced(refs) <==>
      Maximal(refs, SpanOf(r)) && r == refs[FirstWithSpan(refs, SpanOf(r))]
  {
    var s, x := StableSort(refs), SpanOf(r);
    SurvivorsAreMaximal(s, r);
    MaximalSame(refs, s, x);
    if Maximal(refs, x) {
      FirstWithStart(refs, x);
      FirstWithStart(s, x);
      SortIsStable(refs, BY_START, x.lo);
    }
    hide Survivors;
  }

  /**
    The reduction in terms of positions and texts alone. The result lies in text order with both ends strictly
    increasing, and a reference is in it exactly when, at some place of the given list, every reference that reaches
    as far on both sides has the very same ends and does not stand earlier.
  */
  lemma ReducedInPositions(refs: seq<DetectedReference>)
    ensures var at := (r: DetectedReference) => if r.position.Some? then r.position.value else 0; var kept := Reduced(refs);
      && (forall i, j :: 0 <= i < j < |kept| ==>
            at(kept[i]) < at(kept[j]) && at(kept[i]) + |kept[i].text| < at(kept[j]) + |kept[j].text|)
      && forall r :: r in kept <==>
           exists i :: 0 <= i < |refs| && refs[i] == r &&
             forall j :: 0 <= j < |refs| && at(refs[j]) <= at(r) && at(r) + |r.text| <= at(refs[j]) + |refs[j].text| ==>
               at(refs[j]) == at(r) && |refs[j].text| == |r.text| && i <= j
  {
    var kept := Reduced(refs);
    ReducedIncreases(refs);
    hide Reduced;
    forall i, j | 0 <= i < j < |kept|
      ensures SpanOf(kept[i]).lo < SpanOf(kept[j]).lo && SpanOf(kept[i]).hi < SpanOf(kept[j]).hi {
      IncreasingPairs(Spans(kept), i, j);
    }
    forall r ensures r in kept <==> exists i :: 0 <= i < |refs| && refs[i] == r && Survives(refs, i) {
      ReducedKeepsFirst(refs, r);
      KeptIffSurvives(refs, r);
    }
    hide Increasing;
  }

  lemma KeptIffSurvives(refs: seq<DetectedReference>, r: DetectedReference)
    ensures (Maximal(refs, SpanOf(r)) && r == refs[FirstWithSpan(refs, SpanOf(r))]) <==>
      exists i :: 0 <= i < |refs| && refs[i] == r && Survives(refs, i)
  {
    SurvivorsAreMaximal(refs, r);
    hide Maximal;
    hide FirstWithSpan;
    hide SurvivorsUpTo;
    if r in Survivors(refs) {
      SurvivorIsInput(refs, |refs|, r);
    }
    if i :| 0 <= i < |refs| && refs[i] == r && Survives(refs, i) {
      SurvivorIsKept(refs, |refs|, i);
    }
  }

  // ---------------------------------------------------------------- order and repetition

  /** An increasing list of spans is determined by which spans it holds. */
  lemma {:induction false} IncreasingUnique(xs: seq<Span>, ys: seq<Span>)
    requires Increasing(xs) && Increasing(ys)
    requires forall x :: x in xs <==> x in ys
    ensures xs == ys
  {
    assert xs != [] ==> xs[0] in xs;
    assert ys != [] ==> ys[0] in ys;
    if xs != [] {
      var front, last, front', last' := xs[..|xs| - 1], xs[|xs| - 1], ys[..|ys| - 1], ys[|ys| - 1];
      LastIsGreatest(xs, last');
      LastIsGreatest(ys, last);
      forall x ensures x in front <==> x in front' {
        LastIsGreatest(xs, x);
        LastIsGreatest(ys, x);
        assert x in xs <==> x in front || x == last;
        assert x in ys <==> x in front' || x == last';
      }
      IncreasingUnique(front, front');
      assert xs == front + [last] && ys == front' + [last'];
    }
  }

  lemma LastIsGreatest(xs: seq<Span>, x: Span)
    requires Increasing(xs) && xs != []
    ensures x in xs ==> x == xs[|xs| - 1] || x.lo < xs[|xs| - 1].lo
    ensures x in xs[..|xs| - 1] ==> x.lo < xs[|xs| - 1].lo
  {
    forall i | 0 <= i < |xs| - 1 ensures xs[i].lo < xs[|xs| - 1].lo {
      IncreasingPairs(xs, i, |xs| - 1);
    }
  }

  lemma MaximalBySpans(a: seq<DetectedReference>, b: seq<DetectedReference>, x: Span)
    requires forall y :: y in Spans(a) ==> y in Spans(b)
    requires Maximal(b, x) && x in Spans(a)
    ensures Maximal(a, x)
  {
    var i :| 0 <= i < |a| && Spans(a)[i] == x;
    assert a[i] in a && SpanOf(a[i]) == x;
    forall r | r in a && Within(x, SpanOf(r)) ensures SpanOf(r) == x {
      var j :| 0 <= j < |a| && a[j] == r;
      assert Spans(a)[j] in Spans(b);
      var k :| 0 <= k < |b| && Spans(b)[k] == SpanOf(r);
      assert b[k] in b;
    }
  }

  lemma MaximalIsSpan(a: seq<DetectedReference>, x: Span)
    requires Maximal(a, x)
    ensures x in Spans(a)
  {
    var r :| r in a && SpanOf(r) == x;
    var i :| 0 <= i < |a| && a[i] == r;
    assert Spans(a)[i] == x;
  }

  /**
    Only the spans decide what text the result covers: not the order in which the detection phases report,
    not repetitions, and not the confidence of a reference.
  */
  lemma {:induction false} OnlySpansMatter(a: seq<DetectedReference>, b: seq<DetectedReference>)
    requires forall x :: x in Spans(a) <==> x in Spans(b)
    ensures Spans(Reduced(a)) == Spans(Reduced(b))
  {
    forall x ensures x in Spans(Reduced(a)) <==> x in Spans(Reduced(b)) {
      ReducedIsMaximal(a, x);
      ReducedIsMaximal(b, x);
      if Maximal(a, x) { MaximalIsSpan(a, x); MaximalBySpans(b, a, x); }
      if Maximal(b, x) { MaximalIsSpan(b, x); MaximalBySpans(a, b, x); }
    }
    ReducedIncreases(a);
    ReducedIncreases(b);
    hide *;
    IncreasingUnique(Spans(Reduced(a)), Spans(Reduced(b)));
  }

  lemma {:induction false} OrderDoesNotMatter(a: seq<DetectedReference>, b: seq<DetectedReference>)
    requires multiset(a) == multiset(b)
    ensures Spans(Reduced(a)) == Spans(Reduced(b))
  {
    SpansOfPermutation(a, b);
    SpansOfPermutation(b, a);
    OnlySpansMatter(a, b);
  }

  lemma SpansOfPermutation(a: seq<DetectedReference>, b: seq<DetectedReference>)
    requires multiset(a) == multiset(b)
    ensures forall x :: x in Spans(a) ==> x in Spans(b)
  {
    forall x | x in Spans(a) ensures x in Spans(b) {
      var i :| 0 <= i < |a| && Spans(a)[i] == x;
      SameMembers(a, b, a[i]);
      var j :| 0 <= j < |b| && b[j] == a[i];
      assert Spans(b)[j] == x;
    }
  }

  lemma {:induction false} IncreasingIsSorted(s: seq<DetectedReference>)
    requires Increasing(Spans(s))
    ensures SortedByStart(s)
  {
    if |s| > 1 {
      assert Spans(s)[..|s| - 1] == Spans(s[..|s| - 1]);
      IncreasingIsSorted(s[..|s| - 1]);
    }
  }

  lemma {:induction false} AllSurvive(s: seq<DetectedReference>, n: nat)
    requires Increasing(Spans(s)) && n <= |s|
    ensures SurvivorsUpTo(s, n) == s[..n]
  {
    if n > 0 {
      AllSurvive(s, n - 1);
      assert s[..n] == s[..n - 1] + [s[n - 1]];
      forall j | 0 <= j < |s| && j != n - 1 ensures !Within(SpanOf(s[n - 1]), SpanOf(s[j])) {
        if j < n - 1 { IncreasingPairs(Spans(s), j, n - 1); } else { IncreasingPairs(Spans(s), n - 1, j); }
      }
      assert Survives(s, n - 1);
    }
  }

  /** Reducing twice changes nothing more; the closing sort of the source finds the list in order. */
  lemma {:induction false} ReducedIsFixed(refs: seq<DetectedReference>)
    ensures StableSort(Reduced(refs)) == Reduced(refs)
    ensures Reduced(Reduced(refs)) == Reduced(refs)
  {
    var r := Reduced(refs);
    ReducedIncreases(refs);
    IncreasingIsSorted(r);
    SortOfSorted(r, BY_START);
    AllSurvive(r, |r|);
  }
}
