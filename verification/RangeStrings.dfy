/** Ranges kept as "start-end" strings, as the source keeps its set of covered ranges. */
module RangeStrings {
  import opened Decimals
  import opened Intervals

  function EncodeRange(x: Span): string {
    ToDecimal(x.lo) + "-" + ToDecimal(x.hi)
  }

  /** `split('-')` */
  function SplitDash(s: string): (parts: seq<string>)
    ensures parts != []
  {
    if s == "" then [""]
    else
      var parts := SplitDash(s[1..]);
      if s[0] == '-' then [""] + parts else [[s[0]] + parts[0]] + parts[1..]
  }

  predicate IsRange(s: string) {
    var parts := SplitDash(s);
    |parts| == 2 && IsNumeral(parts[0]) && IsNumeral(parts[1])
  }

  /** `split('-').map(Number)` on a well-formed range. */
  function DecodeRange(s: string): Span
    requires IsRange(s)
  {
    Span(ParseDecimal(SplitDash(s)[0]), ParseDecimal(SplitDash(s)[1]))
  }

  /** A run of digits extends the first part of whatever follows. */
  lemma {:induction false} SplitDigits(d: string, rest: string)
    requires AllDigits(d)
    ensures |SplitDash(d + rest)| == |SplitDash(rest)|
    ensures SplitDash(d + rest)[0] == d + SplitDash(rest)[0]
    ensures SplitDash(d + rest)[1..] == SplitDash(rest)[1..]
  {
    if d == "" {
      assert d + rest == rest;
      assert d + SplitDash(rest)[0] == SplitDash(rest)[0];
    } else {
      SplitDigits(d[1..], rest);
      assert (d + rest)[0] == d[0] && (d + rest)[1..] == d[1..] + rest;
      assert [d[0]] + (d[1..] + SplitDash(rest)[0]) == d + SplitDash(rest)[0];
    }
  }

  lemma SplitNumeral(d: string)
    requires AllDigits(d)
    ensures SplitDash(d) == [d]
  {
    SplitDigits(d, "");
    assert d + "" == d;
    assert SplitDash("") == [""];
  }

  /** A set of such strings is as good as a set of spans. */
  lemma {:induction false} DecodeEncoded(x: Span)
    ensures IsRange(EncodeRange(x)) && DecodeRange(EncodeRange(x)) == x
  {
    var lo, hi := ToDecimal(x.lo), ToDecimal(x.hi);
    PrintThenParse(x.lo);
    PrintThenParse(x.hi);
    var tail := "-" + hi;
    assert EncodeRange(x) == lo + tail;
    SplitNumeral(hi);
    assert tail[1..] == hi;
    assert SplitDash(tail) == [""] + [hi];
    SplitDigits(lo, tail);
    assert lo + "" == lo;
    assert SplitDash(EncodeRange(x))[1..] == [hi];
  }

  ghost predicate Encoded(covered: seq<string>, ranges: seq<Span>) {
    && |covered| == |ranges|
    && forall i :: 0 <= i < |ranges| ==> covered[i] == EncodeRange(ranges[i])
  }

  lemma EncodedAppend(covered: seq<string>, ranges: seq<Span>, x: Span)
    requires Encoded(covered, ranges)
    ensures Encoded(covered + [EncodeRange(x)], ranges + [x])
    ensures EncodeRange(x) in covered ==> x in ranges
  {
    hide EncodeRange;
    if EncodeRange(x) in covered {
      var i :| 0 <= i < |covered| && covered[i] == EncodeRange(x);
      DecodeEncoded(x);
      DecodeEncoded(ranges[i]);
    }
  }
}
