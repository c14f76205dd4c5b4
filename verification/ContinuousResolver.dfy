/** `resolveContinuous`: references in text order, each resolved in the context the previous ones left. */
module ContinuousResolver {
  import opened Wrappers
  import opened Decimals
  import opened StableSorting
  import opened ArticleNormalizer
  import opened RelativeReferences
  import opened ResolverRuns
  import opened ArticleContexts

  datatype Placed = Placed(text: string, position: int)

  datatype Outcome = Outcome(original: string, resolved: Option<Resolved>, context: Context)

  function SortByPosition(refs: seq<Placed>): (s: seq<Placed>)
    ensures multiset(s) == multiset(refs) && |s| == |refs|
  {
    SortBy(refs, BY_POSITION)
  }

  /** The references at a position, in the order given. */
  function AtPosition(refs: seq<Placed>, p: int): seq<Placed> {
    if refs == [] then []
    else
      var front, last := AtPosition(refs[..|refs| - 1], p), refs[|refs| - 1];
      if last.position == p then front + [last] else front
  }

  ghost predicate Ascending(s: seq<Placed>) {
    forall i, j :: 0 <= i < j < |s| ==> s[i].position <= s[j].position
  }

  /** s is refs in the order of the text: by position, and as given where positions are equal. */
  ghost predicate InTextOrder(refs: seq<Placed>, s: seq<Placed>) {
    && multiset(s) == multiset(refs)
    && Ascending(s)
    && forall p :: AtPosition(s, p) == AtPosition(refs, p)
  }

  const BY_POSITION: Placed -> int := (r: Placed) => r.position

  lemma {:induction false} AtPositionIsWithKey(refs: seq<Placed>, p: int)
    ensures AtPosition(refs, p) == WithKey(refs, BY_POSITION, p)
  {
    if refs != [] { AtPositionIsWithKey(refs[..|refs| - 1], p); }
  }

  lemma {:induction false} SortIsTextOrder(refs: seq<Placed>)
    ensures InTextOrder(refs, SortByPosition(refs))
  {
    var s := SortByPosition(refs);
    SortSorts(refs, BY_POSITION);
    forall i, j | 0 <= i < j < |s| ensures s[i].position <= s[j].position {
      SortedPairs(s, BY_POSITION, i, j);
    }
    forall p ensures AtPosition(s, p) == AtPosition(refs, p) {
      AtPositionIsWithKey(s, p);
      AtPositionIsWithKey(refs, p);
      SortIsStable(refs, BY_POSITION, p);
    }
  }

  /** There is only one such order. */
  lemma {:induction false} TextOrderIsUnique(s: seq<Placed>, t: seq<Placed>)
    requires |s| == |t| && Ascending(s) && Ascending(t) && forall p :: AtPosition(s, p) == AtPosition(t, p)
    ensures s == t
  {
    if s != [] {
      var n := |s| - 1;
      LastIsHighest(s, t);
      LastIsHighest(t, s);
      var p := s[n].position;
      assert AtPosition(s, p)[|AtPosition(s, p)| - 1] == s[n] && AtPosition(t, p)[|AtPosition(t, p)| - 1] == t[n];
      forall q ensures AtPosition(s[..n], q) == AtPosition(t[..n], q) {
        assert AtPosition(s, q) == AtPosition(t, q);
        if q == p {
          assert AtPosition(s[..n], q) == AtPosition(s, q)[..|AtPosition(s, q)| - 1];
          assert AtPosition(t[..n], q) == AtPosition(t, q)[..|AtPosition(t, q)| - 1];
        }
      }
      TextOrderIsUnique(s[..n], t[..n]);
      assert s == s[..n] + [s[n]] && t == t[..n] + [t[n]];
    }
  }

  lemma {:induction false} HeldAtPosition(s: seq<Placed>, r: Placed)
    ensures r in AtPosition(s, r.position) <==> r in s
  {
    if s != [] {
      assert r in s <==> r in s[..|s| - 1] || r == s[|s| - 1];
      HeldAtPosition(s[..|s| - 1], r);
    }
  }

  lemma SameLength(refs: seq<Placed>, s: seq<Placed>)
    requires multiset(s) == multiset(refs)
    ensures |s| == |refs|
  {
    assert |multiset(s)| == |s| && |multiset(refs)| == |refs|;
  }

  lemma LastIsHighest(s: seq<Placed>, t: seq<Placed>)
    requires |s| == |t| > 0 && Ascending(t) && forall p :: AtPosition(s, p) == AtPosition(t, p)
    ensures s[|s| - 1].position <= t[|t| - 1].position
  {
    var r := s[|s| - 1];
    HeldAtPosition(s, r);
    HeldAtPosition(t, r);
    assert AtPosition(s, r.position) == AtPosition(t, r.position);
    var i :| 0 <= i < |t| && t[i] == r;
  }

  // ---------------------------------------------------------------- the run

  function Texts(refs: seq<Placed>): (r: seq<string>)
    ensures |r| == |refs|
    ensures forall i :: 0 <= i < |r| ==> r[i] == refs[i].text
  {
    seq(|refs|, i requires 0 <= i < |refs| => refs[i].text)
  }

  /** What the run records for its i-th text: the answer, and the context it was given in. */
  function OutcomeAt(c: Context, texts: seq<string>, i: nat): Outcome
    requires i < |texts|
  {
    var before := ContextAfter(c, texts[..i]);
    Outcome(texts[i], Resolve(texts[i], before), before)
  }

  function OutcomesOf(c: Context, texts: seq<string>): (r: seq<Outcome>)
    ensures |r| == |texts|
    ensures forall i :: 0 <= i < |r| ==> r[i] == OutcomeAt(c, texts, i)
  {
    seq(|texts|, i requires 0 <= i < |texts| => OutcomeAt(c, texts, i))
  }

  /** Each reference is resolved in the context recorded with it, and its answer moves the context of the next one. */
  ghost predicate Chained(c: Context, outcomes: seq<Outcome>) {
    && (outcomes != [] ==> outcomes[0].context == c)
    && (forall i :: 0 <= i < |outcomes| ==> outcomes[i].resolved == Resolve(outcomes[i].original, outcomes[i].context))
    && (forall i :: 0 < i < |outcomes| ==>
          outcomes[i].context == Advance(outcomes[i - 1].context, outcomes[i - 1].resolved))
  }

  lemma OutcomesAreChained(c: Context, texts: seq<string>)
    ensures Chained(c, OutcomesOf(c, texts))
  {
    hide Resolve;
    hide Advance;
    forall i | 0 < i < |texts| ensures OutcomeAt(c, texts, i).context ==
      Advance(OutcomeAt(c, texts, i - 1).context, OutcomeAt(c, texts, i - 1).resolved)
    {
      assert texts[..i][..i - 1] == texts[..i - 1];
    }
    assert texts != [] ==> texts[..0] == [];
  }

  /** What the contract of the run says of the sort. */
  lemma SortedOnly(references: seq<Placed>)
    ensures InTextOrder(references, SortByPosition(references))
    ensures forall s :: InTextOrder(references, s) ==> s == SortByPosition(references)
  {
    SortIsTextOrder(references);
    hide SortByPosition;
    forall s | InTextOrder(references, s) ensures s == SortByPosition(references) {
      SameLength(references, s);
      TextOrderIsUnique(s, SortByPosition(references));
    }
  }

  method ResolveContinuous(references: seq<Placed>, initialContext: Context) returns (results: seq<Outcome>)
    ensures results == OutcomesOf(initialContext, Texts(SortByPosition(references)))
    ensures InTextOrder(references, SortByPosition(references))
    ensures forall s :: InTextOrder(references, s) ==> results == OutcomesOf(initialContext, Texts(s))
    ensures Chained(initialContext, results)
  {
    hide *;
    var sorted := SortByPosition(references);
    results := ResolveInOrder(sorted, initialContext);
    OutcomesAreChained(initialContext, Texts(sorted));
    SortedOnly(references);
    assert Chained(initialContext, results);
  }

  /** The loop over the sorted references. */
  method ResolveInOrder(sorted: seq<Placed>, initialContext: Context) returns (results: seq<Outcome>)
    ensures results == OutcomesOf(initialContext, Texts(sorted))
  {
    ghost var texts := Texts(sorted);
    var currentContext := initialContext;
    results := [];
    RunUnfolds(initialContext, texts, 0);
    hide *;
    for k := 0 to |sorted|
      invariant currentContext == ContextAfter(initialContext, texts[..k])
      invariant results == OutcomesOf(initialContext, texts)[..k]
    {
      RunUnfolds(initialContext, texts, k);
      var resolved := Resolve(sorted[k].text, currentContext);
      results := results + [Outcome(sorted[k].text, resolved, currentContext)];
      currentContext := MoveContext(currentContext, resolved);
    }
  }

  lemma RunUnfolds(c: Context, texts: seq<string>, k: nat)
    requires k <= |texts|
    ensures k == 0 ==> ContextAfter(c, texts[..k]) == c
    ensures k < |texts| ==>
      var before := ContextAfter(c, texts[..k]);
      && ContextAfter(c, texts[..k + 1]) == Advance(before, Resolve(texts[k], before))
      && OutcomesOf(c, texts)[..k + 1] == OutcomesOf(c, texts)[..k] + [Outcome(texts[k], Resolve(texts[k], before), before)]
  {
    hide Resolve;
    hide Advance;
    assert k == 0 ==> texts[..k] == [];
    if k < |texts| {
      assert texts[..k + 1][..k] == texts[..k];
      assert ContextAfter(c, texts[..k + 1]) ==
        Advance(ContextAfter(c, texts[..k]), Resolve(texts[k], ContextAfter(c, texts[..k])));
      hide ContextAfter;
      assert OutcomesOf(c, texts)[k] == OutcomeAt(c, texts, k);
    }
  }

  /** The update of the context, branch by branch. */
  method MoveContext(currentContext: Context, resolved: Option<Resolved>) returns (c: Context)
    ensures c == Advance(currentContext, resolved)
  {
    c := currentContext;
    if resolved.Some? && resolved.value.confidence > 0.7 {
      var r := resolved.value;
      if r.articleNumber != "" && r.articleNumber != c.articleNumber {
        c := c.(articleNumber := r.articleNumber);
        c := c.(paragraphNumber := Some(if TruthyNumber(r.paragraphNumber) then r.paragraphNumber.value else 1));
        c := c.(itemNumber := r.itemNumber);
      } else if TruthyNumber(r.paragraphNumber) && r.paragraphNumber != c.paragraphNumber {
        c := c.(paragraphNumber := r.paragraphNumber);
        c := c.(itemNumber := r.itemNumber);
      } else if TruthyString(r.itemNumber) {
        c := c.(itemNumber := r.itemNumber);
      }
    }
  }

  lemma {:induction false} ContextStaysNumeral(c: Context, texts: seq<string>)
    requires IsNumeral(c.articleNumber)
    ensures IsNumeral(ContextAfter(c, texts).articleNumber)
  {
    if texts != [] {
      var n, before := |texts| - 1, ContextAfter(c, texts[..|texts| - 1]);
      ContextStaysNumeral(c, texts[..n]);
      NumeralShows(texts[n], before);
      AdvanceArticle(before, Resolve(texts[n], before));
      hide Resolve;
      hide Advance;
      hide ShowsItsArticle;
    }
  }

  /**
    Every context a run records is safe. From an article number in digits, every answer it records shows the
    article it names.
  */
  lemma EveryOutcomeIsSafe(c: Context, texts: seq<string>, i: nat)
    requires Safe(c) && i < |texts|
    ensures var o := OutcomeAt(c, texts, i);
      && Safe(o.context) && o.context.lawId == c.lawId
      && (IsNumeral(c.articleNumber) && o.resolved.Some? ==>
            ToNumericFormat(o.resolved.value.articleDisplay) == o.resolved.value.articleNumber)
  {
    ContextStaysSafe(c, texts[..i]);
    if IsNumeral(c.articleNumber) {
      ContextStaysNumeral(c, texts[..i]);
      NumeralShows(texts[i], ContextAfter(c, texts[..i]));
    }
    hide Resolve;
    hide ToNumericFormat;
  }
}
