/** `deduplicateAndSort` of scripts/detector.ts, in place, proved against the specification of reduction. */
module Deduplicate {
  import opened Intervals
  import opened IntervalTheorems
  import opened RangeStrings

  ghost predicate HasSpan(seen: seq<DetectedReference>, x: Span) {
    exists j :: 0 <= j < |seen| && SpanOf(seen[j]) == x
  }

  ghost predicate WithinSome(x: Span, ranges: seq<Span>) {
    exists y :: y in ranges && Within(x, y)
  }

  /** The covered ranges are spans of references seen, and every reference seen lies within one of them. */
  ghost predicate Tracks(ranges: seq<Span>, seen: seq<DetectedReference>) {
    && (forall x :: x in ranges ==> HasSpan(seen, x))
    && (forall j :: 0 <= j < |seen| ==> WithinSome(SpanOf(seen[j]), ranges))
  }

  /** Testing against the ranges, which are never withdrawn, tells whether a reference seen covers x. */
  lemma TracksCovered(ranges: seq<Span>, seen: seq<DetectedReference>, x: Span)
    requires Tracks(ranges, seen)
    ensures Covered(seen, x) <==> WithinSome(x, ranges)
  {
    hide SpanOf;
    hide Within;
    if Covered(seen, x) {
      var j :| 0 <= j < |seen| && Within(x, SpanOf(seen[j]));
      assert WithinSome(SpanOf(seen[j]), ranges);
      var y :| y in ranges && Within(SpanOf(seen[j]), y);
      WithinTransitive(x, SpanOf(seen[j]), y);
    }
    if WithinSome(x, ranges) {
      var y :| y in ranges && Within(x, y);
      assert HasSpan(seen, y);
      var j :| 0 <= j < |seen| && SpanOf(seen[j]) == y;
      assert Within(x, SpanOf(seen[j]));
    }
  }

  lemma WithinTransitive(x: Span, y: Span, z: Span)
    requires Within(x, y) && Within(y, z)
    ensures Within(x, z)
  {
  }

  lemma TracksOneMore(ranges: seq<Span>, more: seq<Span>, seen: seq<DetectedReference>, r: DetectedReference)
    requires Tracks(ranges, seen)
    requires more == ranges || more == ranges + [SpanOf(r)]
    requires WithinSome(SpanOf(r), more)
    ensures Tracks(more, seen + [r])
  {
    hide SpanOf;
    hide Within;
    var all := seen + [r];
    assert all[|seen|] == r;
    forall x | x in more ensures HasSpan(all, x) {
      if x in ranges {
        var j :| 0 <= j < |seen| && SpanOf(seen[j]) == x;
        assert all[j] == seen[j];
      }
    }
    forall j | 0 <= j < |all| ensures WithinSome(SpanOf(all[j]), more) {
      if j < |seen| {
        assert all[j] == seen[j];
        var y :| y in ranges && Within(SpanOf(seen[j]), y);
        assert y in more;
      }
    }
  }

  method IsSubsumed(covered: seq<string>, x: Span, ghost ranges: seq<Span>) returns (isSubsumed: bool)
    requires Encoded(covered, ranges)
    ensures isSubsumed <==> WithinSome(x, ranges)
  {
    hide EncodeRange;
    hide DecodeRange;
    hide IsRange;
    isSubsumed := false;
    for i := 0 to |covered|
      invariant forall j :: 0 <= j < i ==> !Within(x, ranges[j])
    {
      DecodeEncoded(ranges[i]);
      var range := DecodeRange(covered[i]);
      if x.lo >= range.lo && x.hi <= range.hi {
        assert ranges[i] in ranges;
        return true;
      }
    }
  }

  /** Sorts the given array by position and returns the references that survive. */
  method DeduplicateAndSort(references: array<DetectedReference>) returns (result: seq<DetectedReference>)
    modifies references
    ensures references[..] == StableSort(old(references[..]))
    ensures result == Reduced(old(references[..]))
  {
    var sorted := StableSort(references[..]);
    assert |sorted| == |multiset(sorted)| == references.Length;
    forall i | 0 <= i < references.Length {
      references[i] := sorted[i];
    }
    assert references[..] == sorted;
    var unique := DropSubsumed(sorted);
    ReducedIsFixed(old(references[..]));
    result := StableSort(unique);
  }

  method DropSubsumed(sorted: seq<DetectedReference>) returns (unique: seq<DetectedReference>)
    ensures unique == Survivors(sorted)
  {
    unique := [];
    var covered: seq<string> := [];
    ghost var ranges: seq<Span> := [];
    assert sorted[..0] == [] && Survivors([]) == [] && Tracks([], []) && Encoded([], []);
    hide Survivors;
    hide Tracks;
    hide Encoded;
    for k := 0 to |sorted|
      invariant unique == Survivors(sorted[..k])
      invariant Encoded(covered, ranges) && Tracks(ranges, sorted[..k])
    {
      assert sorted[..k + 1] == sorted[..k] + [sorted[k]];
      unique, covered, ranges := AddReference(unique, covered, ranges, sorted[..k], sorted[k]);
    }
    assert sorted[..|sorted|] == sorted;
  }

  /** The body of the loop: `unique` is emptied and refilled, `covered` only grows. */
  method AddReference(unique: seq<DetectedReference>, covered: seq<string>, ghost ranges: seq<Span>,
                      ghost seen: seq<DetectedReference>, ref: DetectedReference)
    returns (unique': seq<DetectedReference>, covered': seq<string>, ghost ranges': seq<Span>)
    requires unique == Survivors(seen) && Encoded(covered, ranges) && Tracks(ranges, seen)
    ensures unique' == Survivors(seen + [ref]) && Encoded(covered', ranges') && Tracks(ranges', seen + [ref])
  {
    hide Survivors;
    hide Tracks;
    hide Encoded;
    hide Covered;
    hide Outside;
    hide EncodeRange;
    var start := Start(ref);
    var end := start + |ref.text|;
    var isSubsumed := IsSubsumed(covered, Span(start, end), ranges);
    TracksCovered(ranges, seen, SpanOf(ref));
    SurvivorsStep(seen, ref);
    EncodedAppend(covered, ranges, SpanOf(ref));
    unique', covered', ranges' := unique, covered, ranges;
    if !isSubsumed {
      var filtered := Outside(unique, Span(start, end));
      filtered := filtered + [ref];
      unique' := filtered;
      if EncodeRange(Span(start, end)) !in covered {
        covered' := covered + [EncodeRange(Span(start, end))];
        ranges' := ranges + [SpanOf(ref)];
      }
      assert SpanOf(ref) in ranges' && Within(SpanOf(ref), SpanOf(ref));
    }
    TracksOneMore(ranges, ranges', seen, ref);
  }
}
