/** Which of a set of text intervals survive: the specification of reference reduction. */
module Intervals {
  import opened Wrappers
  import opened Sequences
  import opened StableSorting

  datatype DetectedReference = DetectedReference(
    kind: string, text: string, position: Option<nat>, confidence: real)

  datatype Span = Span(lo: nat, hi: nat)

  /** A missing position counts as 0. */
  function Start(r: DetectedReference): nat {
    if r.position.Some? then r.position.value else 0
  }

  function SpanOf(r: DetectedReference): Span {
    Span(Start(r), Start(r) + |r.text|)
  }

  predicate Within(inner: Span, outer: Span) {
    outer.lo <= inner.lo && inner.hi <= outer.hi
  }

  function Spans(refs: seq<DetectedReference>): (r: seq<Span>)
    ensures |r| == |refs|
    ensures forall i :: 0 <= i < |r| ==> r[i] == SpanOf(refs[i])
  {
    seq(|refs|, i requires 0 <= i < |refs| => SpanOf(refs[i]))
  }

  const BY_START: DetectedReference -> int := (r: DetectedReference) => Start(r)

  /** The sort by start that precedes the reduction. */
  function StableSort(refs: seq<DetectedReference>): (s: seq<DetectedReference>)
    ensures multiset(s) == multiset(refs) && |s| == |refs|
  {
    SortBy(refs, BY_START)
  }

  ghost predicate SortedByStart(s: seq<DetectedReference>) {
    Sorted(s, BY_START)
  }

  // ---------------------------------------------------------------- the surviving references

  /** No other reference strictly covers s[i], and no earlier one has the very same span. */
  ghost predicate Survives(s: seq<DetectedReference>, i: nat)
    requires i < |s|
  {
    forall j :: 0 <= j < |s| && Within(SpanOf(s[i]), SpanOf(s[j])) ==> SpanOf(s[j]) == SpanOf(s[i]) && i <= j
  }

  ghost function SurvivorsUpTo(s: seq<DetectedReference>, n: nat): seq<DetectedReference>
    requires n <= |s|
  {
    if n == 0 then []
    else if Survives(s, n - 1) then SurvivorsUpTo(s, n - 1) + [s[n - 1]]
    else SurvivorsUpTo(s, n - 1)
  }

  ghost function Survivors(s: seq<DetectedReference>): seq<DetectedReference> {
    SurvivorsUpTo(s, |s|)
  }

  ghost predicate Covered(s: seq<DetectedReference>, x: Span) {
    exists j :: 0 <= j < |s| && Within(x, SpanOf(s[j]))
  }

  /** The references whose span is not within x, in order. */
  function Outside(refs: seq<DetectedReference>, x: Span): seq<DetectedReference> {
    if refs == [] then []
    else
      var front, last := refs[..|refs| - 1], refs[|refs| - 1];
      if Within(SpanOf(last), x) then Outside(front, x) else Outside(front, x) + [last]
  }

  lemma {:induction false} OutsideAppend(refs: seq<DetectedReference>, r: DetectedReference, x: Span)
    ensures Outside(refs + [r], x) == if Within(SpanOf(r), x) then Outside(refs, x) else Outside(refs, x) + [r]
  {
    assert (refs + [r])[..|refs|] == refs;
  }

  /** A later reference changes who survives only by covering it strictly. */
  lemma SurvivesWithOneMore(s: seq<DetectedReference>, r: DetectedReference, i: nat)
    requires i < |s|
    ensures Survives(s + [r], i) <==> Survives(s, i) && (Covered(s, SpanOf(r)) || !Within(SpanOf(s[i]), SpanOf(r)))
  {
    var t := s + [r];
    assert t[|s|] == r && t[i] == s[i];
    if Covered(s, SpanOf(r)) {
      var j :| 0 <= j < |s| && Within(SpanOf(r), SpanOf(s[j]));
      assert t[j] == s[j];
    }
    if Survives(t, i) {
      forall j | 0 <= j < |s| && Within(SpanOf(s[i]), SpanOf(s[j])) ensures SpanOf(s[j]) == SpanOf(s[i]) && i <= j {
        assert t[j] == s[j];
      }
    }
  }

  /** A covered reference drops nothing; any other one drops what lies within it. */
  ghost function Trimmed(s: seq<DetectedReference>, kept: seq<DetectedReference>, r: DetectedReference): seq<DetectedReference> {
    if Covered(s, SpanOf(r)) then kept else Outside(kept, SpanOf(r))
  }

  lemma TrimmedAppend(s: seq<DetectedReference>, kept: seq<DetectedReference>, x: DetectedReference, r: DetectedReference)
    ensures Trimmed(s, kept + [x], r) ==
      if Covered(s, SpanOf(r)) || !Within(SpanOf(x), SpanOf(r)) then Trimmed(s, kept, r) + [x] else Trimmed(s, kept, r)
  {
    OutsideAppend(kept, x, SpanOf(r));
  }

  lemma {:induction false} SurvivorsBefore(s: seq<DetectedReference>, all: seq<DetectedReference>, r: DetectedReference, n: nat)
    requires all == s + [r] && n <= |s|
    ensures SurvivorsUpTo(all, n) == Trimmed(s, SurvivorsUpTo(s, n), r)
  {
    if n == 0 {
      assert Outside([], SpanOf(r)) == [];
    } else {
      SurvivorsBefore(s, all, r, n - 1);
      SurvivesWithOneMore(s, r, n - 1);
      TrimmedAppend(s, SurvivorsUpTo(s, n - 1), s[n - 1], r);
      assert all[n - 1] == s[n - 1];
      hide Survives;
      hide Trimmed;
      hide Covered;
      hide Outside;
      hide Within;
      hide SpanOf;
    }
  }

  /** One more reference, starting no earlier than the others: what the loop does to its result. */
  lemma {:induction false} SurvivorsStep(s: seq<DetectedReference>, r: DetectedReference)
    ensures Survivors(s + [r]) ==
      if Covered(s, SpanOf(r)) then Survivors(s) else Outside(Survivors(s), SpanOf(r)) + [r]
  {
    var all := s + [r];
    SurvivorsBefore(s, all, r, |s|);
    LastSurvivesIff(s, r);
    hide Survives;
    hide Covered;
    hide Outside;
    hide SpanOf;
    assert Survivors(all) == if Covered(s, SpanOf(r)) then Survivors(s) else Outside(Survivors(s), SpanOf(r)) + [r];
  }

  lemma LastSurvivesIff(s: seq<DetectedReference>, r: DetectedReference)
    ensures Survives(s + [r], |s|) <==> !Covered(s, SpanOf(r))
  {
    var all := s + [r];
    assert all[|s|] == r && forall j :: 0 <= j < |s| ==> all[j] == s[j];
    if Covered(s, SpanOf(r)) {
      var j :| 0 <= j < |s| && Within(SpanOf(r), SpanOf(s[j]));
      assert all[j] == s[j];
    }
  }

  // ---------------------------------------------------------------- what survives, in terms of spans

  lemma {:induction false} SurvivorIsInput(s: seq<DetectedReference>, n: nat, r: DetectedReference)
    requires n <= |s| && r in SurvivorsUpTo(s, n)
    ensures exists i :: 0 <= i < n && s[i] == r && Survives(s, i)
  {
    if r in SurvivorsUpTo(s, n - 1) { SurvivorIsInput(s, n - 1, r); }
  }

  lemma {:induction false} SurvivorIsKept(s: seq<DetectedReference>, n: nat, i: nat)
    requires i < n <= |s| && Survives(s, i)
    ensures s[i] in SurvivorsUpTo(s, n)
  {
    if i < n - 1 { SurvivorIsKept(s, n - 1, i); }
  }

  /** x is the span of some reference and no reference strictly covers it. */
  ghost predicate Maximal(refs: seq<DetectedReference>, x: Span) {
    && (exists r :: r in refs && SpanOf(r) == x)
    && forall r :: r in refs && Within(x, SpanOf(r)) ==> SpanOf(r) == x
  }

  /** The first reference with the span x. */
  function FirstWithSpan(s: seq<DetectedReference>, x: Span): (i: nat)
    requires exists r :: r in s && SpanOf(r) == x
    ensures i < |s| && SpanOf(s[i]) == x && forall j :: 0 <= j < i ==> SpanOf(s[j]) != x
  {
    if SpanOf(s[0]) == x then 0
    else
      assert forall r :: r in s ==> r == s[0] || r in s[1..];
      1 + FirstWithSpan(s[1..], x)
  }

  /** The surviving spans are exactly the maximal ones, each represented by its first reference. */
  lemma {:induction false} SurvivorsAreMaximal(s: seq<DetectedReference>, r: DetectedReference)
    ensures r in Survivors(s) <==>
      Maximal(s, SpanOf(r)) && r == s[FirstWithSpan(s, SpanOf(r))]
  {
    if r in Survivors(s) {
      SurvivorIsInput(s, |s|, r);
      var i :| 0 <= i < |s| && s[i] == r && Survives(s, i);
      assert Maximal(s, SpanOf(r));
      var f := FirstWithSpan(s, SpanOf(r));
      assert Within(SpanOf(s[i]), SpanOf(s[f]));
    } else if Maximal(s, SpanOf(r)) && r == s[FirstWithSpan(s, SpanOf(r))] {
      var f := FirstWithSpan(s, SpanOf(r));
      assert Survives(s, f);
      SurvivorIsKept(s, |s|, f);
    }
  }
}
