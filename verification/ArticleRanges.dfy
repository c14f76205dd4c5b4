/** Ranges of articles, printed and extracted again (src/utils/article-normalizer.ts). */
module ArticleRanges {
  import opened Wrappers
  import opened Sequences
  import opened Decimals
  import opened ArticleNormalizer
  import opened ArticleMatches
  import Numerals
  import NumeralTheorems

  // ---------------------------------------------------------------- printing a range

  /** The display forms of the articles lo to hi. */
  function ArticleRange(lo: nat, hi: nat): (r: seq<string>)
  {
    if lo == 0 || hi < lo then [] else seq(hi - lo + 1, i requires 0 <= i => Display(ToDecimal(lo + i)))
  }

  /** The numeric form has a digit other than 0. */
  ghost predicate ShowsNumber(s: string) {
    exists i :: 0 <= i < |ToNumericFormat(s)| && ToNumericFormat(s)[i] != '0'
  }

  lemma {:induction false} PositiveIff(d: string)
    requires AllDigits(d)
    ensures ParseDecimal(d) > 0 <==> exists i :: 0 <= i < |d| && d[i] != '0'
  {
    if d != "" {
      var n, front := |d| - 1, d[..|d| - 1];
      PositiveIff(front);
      assert d[n] != '0' <==> DigitValue(d[n]) > 0;
      assert forall i :: 0 <= i < n ==> front[i] == d[i];
    }
  }

  lemma ShowsNumberIff(s: string)
    ensures ShowsNumber(s) <==> NormalizeArticleNumber(s).value > 0
  {
    PositiveIff(ToNumericFormat(s));
    NumberShown(s);
    hide NormalizeArticleNumber;
    hide ParseDecimal;
  }

  lemma RangeEmptyIff(start: string, end: string)
    ensures ArticleRange(NormalizeArticleNumber(start).value, NormalizeArticleNumber(end).value) == [] <==>
      !ShowsNumber(start) || !ShowsNumber(end) || CompareArticleNumbers(start, end) > 0
  {
    ShowsNumberIff(start);
    ShowsNumberIff(end);
    hide ShowsNumber;
    hide NormalizeArticleNumber;
  }

  lemma RangeSpelled(lo: nat, hi: nat)
    ensures ArticleRange(lo, hi) != [] ==> |ArticleRange(lo, hi)| == hi - lo + 1
    ensures forall k :: 0 <= k < |ArticleRange(lo, hi)| ==> ArticleRange(lo, hi)[k] == "第" + ToDecimal(lo + k) + "条"
  {
    hide ToDecimal;
    forall k | 0 <= k < |ArticleRange(lo, hi)| ensures ArticleRange(lo, hi)[k] == "第" + ToDecimal(lo + k) + "条" {
      assert ArticleRange(lo, hi)[k] == Display(ToDecimal(lo + k));
    }
  }

  lemma NumberShown(s: string)
    ensures NormalizeArticleNumber(s).value == ParseDecimal(ToNumericFormat(s))
  {
  }

  /**
    The articles from the start to the end, one by one. The range is empty exactly when an end shows no digit but
    zeros, or the start comes after the end.
  */
  method GenerateArticleRange(start: string, end: string) returns (range: seq<string>)
    ensures range == ArticleRange(NormalizeArticleNumber(start).value, NormalizeArticleNumber(end).value)
    ensures range != [] ==> |range| == ParseDecimal(ToNumericFormat(end)) - ParseDecimal(ToNumericFormat(start)) + 1
    ensures forall k :: 0 <= k < |range| ==> range[k] == "第" + ToDecimal(ParseDecimal(ToNumericFormat(start)) + k) + "条"
    ensures range == [] <==> !ShowsNumber(start) || !ShowsNumber(end) || CompareArticleNumbers(start, end) > 0
  {
    RangeEmptyIff(start, end);
    RangeSpelled(NormalizeArticleNumber(start).value, NormalizeArticleNumber(end).value);
    NumberShown(start);
    NumberShown(end);
    hide ShowsNumber;
    hide NormalizeArticleNumber;
    hide ToNumericFormat;
    hide ParseDecimal;
    hide ToDecimal;
    hide Display;
    var startNorm := NormalizeArticleNumber(start);
    var endNorm := NormalizeArticleNumber(end);
    if startNorm.value <= 0 || endNorm.value <= 0 {
      return [];
    }
    range := [];
    var i := startNorm.value;
    while i <= endNorm.value
      invariant startNorm.value <= i
      invariant i <= endNorm.value + 1 || range == []
      invariant |range| == i - startNorm.value
      invariant forall k :: 0 <= k < |range| ==> range[k] == Display(ToDecimal(startNorm.value + k))
    {
      range := range + [Display(ToDecimal(i))];
      i := i + 1;
    }
  }

  /** Printed articles compare like their numbers, so a range is strictly increasing. */
  lemma RangeIncreases(lo: nat, hi: nat, i: nat, j: nat)
    requires i < j < |ArticleRange(lo, hi)|
    ensures CompareArticleNumbers(ArticleRange(lo, hi)[i], ArticleRange(lo, hi)[j]) == i - j
  {
    hide NormalizeArticleNumber;
    hide ToDecimal;
    hide ParseDecimal;
    hide Display;
    DisplayOfNumber(lo + i);
    DisplayOfNumber(lo + j);
    assert ArticleRange(lo, hi)[i] == Display(ToDecimal(lo + i)) && ArticleRange(lo, hi)[j] == Display(ToDecimal(lo + j));
    assert CompareArticleNumbers(Display(ToDecimal(lo + i)), Display(ToDecimal(lo + j))) == i - j;
  }

  lemma DisplayOfNumber(n: nat)
    ensures var d := ToDecimal(n);
      NormalizeArticleNumber(Display(d)) == NormalizedArticle(d, Display(d), Display(d), n)
  {
    DisplayIsNumeric(ToDecimal(n));
    PrintThenParse(n);
  }

  // ---------------------------------------------------------------- extracting

  /** The digits of every match of the article pattern, from left to right. */
  function Matches(text: string): seq<string>
    decreases |text|
  {
    if FirstArticle(text).None? then []
    else
      var (d, rest) := FirstArticle(text).value;
      [d] + Matches(rest)
  }

  /** The repeated search finds the article at every position where there is one, and nothing else. */
  lemma {:induction false} MatchesAreFound(s: string, i: nat)
    requires i <= |s|
    ensures Matches(s[i..]) == FoundFrom(s, i)
    decreases |s| - i
  {
    var t := s[i..];
    if i < |s| {
      assert t[1..] == s[i + 1..];
      forall d ensures ArticleAt(s, i, d) <==> ArticleAtStart(t) == Some(d) { ArticleAtIs(s, i, d); }
      if ArticleAtStart(t).Some? {
        var d := ArticleAtStart(t).value;
        var j := i + |d| + 2;
        assert t[|d| + 2..] == s[j..] && ArticleAt(s, i, d);
        forall k | i + 1 <= k < j ensures s[k] != '第' {
          if k < j - 1 { assert s[k] == d[k - i - 1]; }
        }
        MatchesAreFound(s, j);
        NothingBetween(s, i + 1, j);
      } else {
        MatchesAreFound(s, i + 1);
      }
      hide ArticleAt;
      hide ArticleAtStart;
    }
  }

  /** The first occurrence of each element. */
  function Distinct(ds: seq<string>): (r: seq<string>)
    ensures NoDuplicates(r) && forall x :: x in r <==> x in ds
  {
    if ds == [] then []
    else
      var front, last := Distinct(ds[..|ds| - 1]), ds[|ds| - 1];
      assert forall x :: x in ds <==> x in ds[..|ds| - 1] || x == last;
      if last in front then front else front + [last]
  }

  /** The elements stand in the order of their first occurrences. */
  lemma {:induction false} DistinctInOrder(ds: seq<string>, i: nat, j: nat)
    requires i < j < |Distinct(ds)|
    ensures IndexOf(ds, Distinct(ds)[i]) < IndexOf(ds, Distinct(ds)[j])
  {
    var n, front := |ds| - 1, ds[..|ds| - 1];
    var r := Distinct(front);
    assert ds == front + [ds[n]];
    assert r[i] in r && (j < |r| ==> r[j] in r);
    IndexOfAppend(front, ds[n], r[i]);
    if j < |r| {
      IndexOfAppend(front, ds[n], r[j]);
      DistinctInOrder(front, i, j);
    } else {
      IndexOfAppend(front, ds[n], ds[n]);
    }
    hide IndexOf;
  }

  lemma {:induction false} IndexOfAppend(s: seq<string>, last: string, x: string)
    requires x in s || x == last
    ensures IndexOf(s + [last], x) == if x in s then IndexOf(s, x) else |s|
  {
    if s != [] {
      assert (s + [last])[1..] == s[1..] + [last];
      assert x in s <==> x == s[0] || x in s[1..];
      if s[0] != x { IndexOfAppend(s[1..], last, x); }
    }
  }

  function NormalizedAll(ds: seq<string>): (r: seq<NormalizedArticle>)
    ensures |r| == |ds|
    ensures forall i :: 0 <= i < |r| ==> r[i] == NormalizeArticleNumber(Display(ds[i]))
  {
    seq(|ds|, i requires 0 <= i < |ds| => NormalizeArticleNumber(Display(ds[i])))
  }

  function ExtractedArticles(text: string): seq<NormalizedArticle> {
    NormalizedAll(Distinct(Matches(text)))
  }

  lemma NormalizedAppend(ds: seq<string>, d: string)
    ensures NormalizedAll(ds + [d]) == NormalizedAll(ds) + [NormalizeArticleNumber(Display(d))]
  {
  }

  lemma DistinctAppend(ds: seq<string>, d: string)
    ensures Distinct(ds + [d]) == if d in ds then Distinct(ds) else Distinct(ds) + [d]
  {
    assert (ds + [d])[..|ds|] == ds;
  }

  /** What the loop keeps: the matches already taken, the keys seen and the articles emitted. */
  predicate Progress(text: string, done: seq<string>, rest: string, seen: seq<string>, articles: seq<NormalizedArticle>) {
    Matches(text) == done + Matches(rest) && seen == Distinct(done) && articles == NormalizedAll(seen)
  }

  lemma ProgressKept(text: string, done: seq<string>, rest: string, seen: seq<string>, articles: seq<NormalizedArticle>)
    requires Progress(text, done, rest, seen, articles) && FirstArticle(rest).Some?
    ensures var (d, after) := FirstArticle(rest).value;
      var normalized := NormalizeArticleNumber(Display(d));
      && (normalized.numeric in seen ==> Progress(text, done + [d], after, seen, articles))
      && (normalized.numeric !in seen ==>
            Progress(text, done + [d], after, seen + [normalized.numeric], articles + [normalized]))
  {
    var (d, after) := FirstArticle(rest).value;
    assert done + ([d] + Matches(after)) == (done + [d]) + Matches(after);
    hide NormalizeArticleNumber;
    hide FirstArticle;
    DisplayIsNumeric(d);
    DistinctAppend(done, d);
    NormalizedAppend(seen, d);
    hide NormalizedAll;
  }

  function NumericOf(articles: seq<NormalizedArticle>): (r: seq<string>)
    ensures |r| == |articles| && forall i :: 0 <= i < |r| ==> r[i] == articles[i].numeric
  {
    seq(|articles|, i requires 0 <= i < |articles| => articles[i].numeric)
  }

  lemma {:induction false} FoundAreNumerals(s: string, i: nat)
    requires i <= |s|
    ensures forall d :: d in FoundFrom(s, i) ==> IsNumeral(d)
    decreases |s| - i
  {
    if i < |s| { FoundAreNumerals(s, i + 1); }
  }

  lemma {:induction false} ExtractedAre(text: string)
    ensures NumericOf(ExtractedArticles(text)) == Distinct(FoundFrom(text, 0))
    ensures forall a :: a in ExtractedArticles(text) ==> a == NormalizeArticleNumber("第" + a.numeric + "条")
  {
    assert text[0..] == text;
    MatchesAreFound(text, 0);
    FoundAreNumerals(text, 0);
    var ds := Distinct(Matches(text));
    forall i | 0 <= i < |ds| ensures NormalizedAll(ds)[i].numeric == ds[i] {
      DisplayIsNumeric(ds[i]);
    }
    hide NormalizeArticleNumber;
    hide Distinct;
    hide FoundFrom;
    hide Matches;
  }

  /** The article numbers are those of all matches in the text, each once, in the order of their first occurrence. */
  method ExtractArticleNumbers(text: string) returns (articles: seq<NormalizedArticle>)
    ensures articles == ExtractedArticles(text)
    ensures NumericOf(articles) == Distinct(FoundFrom(text, 0))
    ensures forall a :: a in articles ==> a == NormalizeArticleNumber("第" + a.numeric + "条")
  {
    ExtractedAre(text);
    articles := [];
    var seen: seq<string> := [];
    ghost var done: seq<string> := [];
    var rest := text;
    var match' := FirstArticle(rest);
    assert Progress(text, done, rest, seen, articles);
    while match'.Some?
      invariant match' == FirstArticle(rest)
      invariant Progress(text, done, rest, seen, articles)
      decreases |rest|
    {
      hide *;
      var (d, after) := match'.value;
      var normalized := NormalizeArticleNumber(Display(d));
      var key := normalized.numeric;
      ProgressKept(text, done, rest, seen, articles);
      done := done + [d];
      if key !in seen {
        seen := seen + [key];
        articles := articles + [normalized];
      }
      rest := after;
      match' := FirstArticle(rest);
    }
    assert Matches(text) == done;
  }

  // ---------------------------------------------------------------- round trip

  function Joined(items: seq<string>, separator: string): string {
    if items == [] then "" else items[0] + (separator + Joined(items[1..], separator))
  }

  lemma {:induction false} SkipSeparator(separator: string, rest: string)
    requires '第' !in separator
    ensures FirstArticle(separator + rest) == FirstArticle(rest)
  {
    if separator == "" {
      assert separator + rest == rest;
    } else {
      var s := separator + rest;
      assert s[1..] == separator[1..] + rest;
      assert s[0] == separator[0] && separator[0] in separator;
      SkipSeparator(separator[1..], rest);
    }
  }

  function DecimalsOf(lo: nat, hi: nat): (r: seq<string>)
    ensures |r| == if hi < lo then 0 else hi - lo + 1
    ensures forall i :: 0 <= i < |r| ==> r[i] == ToDecimal(lo + i)
  {
    if hi < lo then [] else seq(hi - lo + 1, i requires 0 <= i => ToDecimal(lo + i))
  }

  lemma JoinedRange(lo: nat, hi: nat, separator: string)
    requires 0 < lo <= hi
    ensures Joined(ArticleRange(lo, hi), separator) ==
      Display(ToDecimal(lo)) + (separator + Joined(ArticleRange(lo + 1, hi), separator))
  {
    hide Display;
    hide ToDecimal;
    assert ArticleRange(lo, hi)[0] == Display(ToDecimal(lo)) && ArticleRange(lo, hi)[1..] == ArticleRange(lo + 1, hi);
  }

  lemma {:induction false} MatchesOfRange(lo: nat, hi: nat, separator: string)
    requires 0 < lo && '第' !in separator
    ensures Matches(Joined(ArticleRange(lo, hi), separator)) == DecimalsOf(lo, hi)
    decreases if hi < lo then 0 else hi - lo + 1
  {
    hide FirstArticle;
    hide Display;
    hide ToDecimal;
    if lo <= hi {
      var d, rest := ToDecimal(lo), Joined(ArticleRange(lo + 1, hi), separator);
      JoinedRange(lo, hi, separator);
      ArticleFirst(d, separator + rest);
      SkipSeparator(separator, rest);
      MatchesOfRange(lo + 1, hi, separator);
      hide Joined;
      hide ArticleRange;
      assert Matches(separator + rest) == Matches(rest);
      assert DecimalsOf(lo, hi) == [d] + DecimalsOf(lo + 1, hi);
    } else {
      NoArticleInDigits("");
    }
  }

  lemma {:induction false} DistinctOfDistinct(ds: seq<string>)
    requires NoDuplicates(ds)
    ensures Distinct(ds) == ds
  {
    if ds != [] {
      var front, last := ds[..|ds| - 1], ds[|ds| - 1];
      DistinctOfDistinct(front);
      assert last !in front;
    }
  }

  /** One normalised article for each number from lo to hi, in order. */
  ghost predicate IsRange(articles: seq<NormalizedArticle>, lo: nat, hi: nat) {
    && |articles| == (if hi < lo then 0 else hi - lo + 1)
    && forall i :: 0 <= i < |articles| ==>
      var d := ToDecimal(lo + i);
      articles[i] == NormalizedArticle(d, Display(d), Display(d), lo + i)
  }

  lemma NormalizedRange(lo: nat, hi: nat)
    ensures IsRange(NormalizedAll(DecimalsOf(lo, hi)), lo, hi)
  {
    hide ToDecimal;
    hide Display;
    hide NormalizeArticleNumber;
    var articles := NormalizedAll(DecimalsOf(lo, hi));
    forall i | 0 <= i < |articles|
      ensures var d := ToDecimal(lo + i); articles[i] == NormalizedArticle(d, Display(d), Display(d), lo + i)
    {
      DisplayOfNumber(lo + i);
    }
  }

  lemma DistinctDecimals(lo: nat, hi: nat)
    ensures Distinct(DecimalsOf(lo, hi)) == DecimalsOf(lo, hi)
  {
    var ds := DecimalsOf(lo, hi);
    hide ToDecimal;
    hide Distinct;
    forall i, j | 0 <= i < j < |ds| ensures ds[i] != ds[j] {
      if ds[i] == ds[j] { DistinctPrints(lo + i, lo + j); }
    }
    DistinctOfDistinct(ds);
  }

  /**
    Printing a range and extracting from the text gives every number of the range once, in order, whatever
    separates the articles, as long as it does not contain 第.
  */
  lemma {:induction false} RangeRoundTrip(lo: nat, hi: nat, separator: string)
    requires 0 < lo && '第' !in separator
    ensures IsRange(ExtractedArticles(Joined(ArticleRange(lo, hi), separator)), lo, hi)
  {
    MatchesOfRange(lo, hi, separator);
    DistinctDecimals(lo, hi);
    NormalizedRange(lo, hi);
  }

  // ---------------------------------------------------------------- articles numbered in kanji

  lemma {:induction false} KanjiRunOf(w: string, rest: string)
    requires forall i :: 0 <= i < |w| ==> IsKanjiNumeral(w[i])
    requires rest != "" ==> !IsKanjiNumeral(rest[0])
    ensures KanjiRun(w + rest) == w
  {
    if w == "" {
      assert w + rest == rest;
    } else {
      assert (w + rest)[1..] == w[1..] + rest;
      KanjiRunOf(w[1..], rest);
    }
  }

  /** The conversion replaces each whole run of kanji numerals and leaves the text around it as it is. */
  lemma {:induction false} ConvertReplacesRuns(before: string, w: string, after: string)
    requires NoKanji(before)
    requires w != "" && forall i :: 0 <= i < |w| ==> IsKanjiNumeral(w[i])
    requires after != "" ==> !IsKanjiNumeral(after[0])
    ensures ConvertKanji(before + (w + after)) == before + (ToDecimal(Numerals.RunValue(w)) + ConvertKanji(after))
  {
    if before == "" {
      assert before + (w + after) == w + after && (w + after)[0] == w[0];
      KanjiRunOf(w, after);
      assert (w + after)[|w|..] == after;
    } else {
      var s := before + (w + after);
      assert s[1..] == before[1..] + (w + after) && s[0] == before[0];
      assert ConvertKanji(s) == [s[0]] + ConvertKanji(s[1..]);
      hide ConvertKanji;
      ConvertReplacesRuns(before[1..], w, after);
      assert ConvertKanji(s) == before + (ToDecimal(Numerals.RunValue(w)) + ConvertKanji(after));
    }
  }

  /** An article numbered in kanji has the display form of the number the kanji denote. */
  lemma {:induction false} KanjiArticle(w: string)
    requires Numerals.IsNumeral(w)
    ensures ToDisplayFormat("第" + w + "条") == Display(ToDecimal(Numerals.Value(w)))
    ensures NormalizeArticleNumber("第" + w + "条").value == Numerals.Value(w)
  {
    var s, n := "第" + w + "条", Numerals.Value(w);
    NumeralTheorems.ThreeReadersAgree(w);
    ConvertKanjiArticle(w);
    hide ConvertKanji;
    hide ToDecimal;
    hide Display;
    DisplayFirst(ToDecimal(n));
    PrintThenParse(n);
  }

  lemma DisplayFirst(d: string)
    requires IsNumeral(d)
    ensures NumericPart(Display(d)) == d
  {
    ArticleFirst(d, "");
    assert Display(d) + "" == Display(d);
  }

  lemma {:induction false} ConvertKanjiArticle(w: string)
    requires Numerals.IsNumeral(w)
    ensures ConvertKanji("第" + w + "条") == Display(ToDecimal(Numerals.RunValue(w)))
  {
    var s, tail := "第" + w + "条", w + "条";
    hide ToDecimal;
    hide Numerals.RunValue;
    assert s[0] == '第' && s[1..] == tail;
    KanjiRunOf(w, "条");
    assert tail[0] == w[0] && tail[|w|..] == "条";
    assert ConvertKanji("条") == "条" by { assert "条"[1..] == ""; }
    assert ConvertKanji(tail) == ToDecimal(Numerals.RunValue(w)) + "条";
    assert ConvertKanji(s) == ['第'] + ConvertKanji(tail);
  }

  /** 第一条 to 第九千九百九十九条 normalise to 1 to 9999. */
  lemma WrittenArticle(n: nat)
    requires 0 < n < 10000
    ensures ToNumericFormat("第" + NumeralTheorems.Written(n) + "条") == ToDecimal(n)
  {
    var w := NumeralTheorems.Written(n);
    NumeralTheorems.WrittenDenotes(n);
    KanjiArticle(w);
    FormatsAreStable("第" + w + "条");
    DisplayIsNumeric(ToDecimal(n));
  }
}
