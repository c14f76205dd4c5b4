/** Whole runs of relative references: where the context goes, and what it can never become. */
module ResolverRuns {
  import opened Wrappers
  import opened Decimals
  import opened ArticleNormalizer
  import opened RelativeReferences

  // ---------------------------------------------------------------- the texts the resolvers share out

  /** A text of the given shape ends in the suffix and has a kanji digit right after the prefix. */
  lemma ShapeOf(text: string, prefix: string, suffix: string)
    requires Between(text, prefix, suffix).Some? && |suffix| == 1
    ensures |text| > |prefix| + 1 && text[..|prefix|] == prefix
    ensures IsTenKanji(text[|prefix|]) && text[|text| - 1] == suffix[0]
  {
    assert text[|text| - 1..][0] == text[|text| - 1];
  }

  /** Only the first and the fourth resolver ever name another article. */
  lemma ParagraphTextsStay(text: string)
    requires text == "前項" || text == "次項" || text == "前各項"
      || Between(text, "前", "項").Some? || Between(text, "次", "項").Some?
    ensures ArticleStep(text) == 0
  {
    if Between(text, "前", "項").Some? { ShapeOf(text, "前", "項"); }
    if Between(text, "次", "項").Some? { ShapeOf(text, "次", "項"); }
    NotAnArticleText(text);
  }

  lemma NotAnArticleText(text: string)
    requires |text| >= 2 && text[1] != '条' && text[|text| - 1] != '条'
    ensures ArticleStep(text) == 0
  {
    if Between(text, "前", "条").Some? { ShapeOf(text, "前", "条"); }
    if Between(text, "次", "条").Some? { ShapeOf(text, "次", "条"); }
    if Between(text, "前条第", "項").Some? { ShapeOf(text, "前条第", "項"); }
    if Between(text, "次条第", "項").Some? { ShapeOf(text, "次条第", "項"); }
  }

  lemma ItemTextsStay(text: string, c: Context)
    requires ResolveItemRelative(text, c).Some?
    ensures ArticleStep(text) == 0 && ResolveItemRelative(text, c).value.articleNumber == c.articleNumber
  {
    NotAnArticleText(text);
  }

  lemma SameTextsStay(text: string, c: Context)
    requires ResolveSameReference(text, c).Some?
    ensures ArticleStep(text) == 0 && ResolveSameReference(text, c).value.articleNumber == c.articleNumber
  {
    assert |text| == 2;
  }

  /** The article the context has after an answer is taken over. */
  lemma ArticleAfter(c: Context, r: Resolved)
    requires Numbered(c) && ParseInt(r.articleNumber).Some?
    ensures Numbered(Advance(c, Some(r)))
    ensures ArticleOf(Advance(c, Some(r))) == if r.confidence > 0.7 then ParseInt(r.articleNumber).value else ArticleOf(c)
  {
    assert ParseInt("").None?;
    hide ParseInt;
  }

  lemma NumeralReads(d: string)
    requires IsNumeral(d)
    ensures ParseInt(d) == Some(ParseDecimal(d))
  {
    assert IsDigit(d[0]) && SkipSpaces(d) == d && d + "" == d;
    DigitRunOf(d, "");
    hide ParseDecimal;
  }

  /** What is printed reads back. */
  lemma PrintedReads(n: nat)
    ensures Print(Some(n)) == ToDecimal(n) && ParseInt(ToDecimal(n)) == Some(n)
  {
    PrintThenParse(n);
    NumeralReads(ToDecimal(n));
    hide ParseInt;
    hide ToDecimal;
    hide ParseDecimal;
    assert Print(Some(n)) == ToDecimal(n) && ParseInt(ToDecimal(n)) == Some(n);
  }

  /** The two ways an answer names an article: the current one, or a number. */
  lemma ArticleAnswer(text: string, c: Context)
    requires Numbered(c) && ArticleOf(c) >= 1 && ResolveArticleRelative(text, c).Some?
    ensures var r := ResolveArticleRelative(text, c).value;
      && r.paragraphNumber == None && r.itemNumber == None
      && (if text == "前条" && ArticleOf(c) <= 1 then r.articleNumber == c.articleNumber && r.confidence <= 0.7
          else r.articleNumber == Print(Some(Max(1, ArticleOf(c) + ArticleStep(text)))) && r.confidence > 0.7)
  {
    hide Between;
    hide ToDisplayFormat;
    hide IntToString;
    hide ParseInt;
  }

  lemma ArticleTextsMove(text: string, c: Context)
    requires Numbered(c) && ArticleOf(c) >= 1 && ResolveArticleRelative(text, c).Some?
    ensures Numbered(Advance(c, ResolveArticleRelative(text, c)))
    ensures ArticleOf(Advance(c, ResolveArticleRelative(text, c))) == Max(1, ArticleOf(c) + ArticleStep(text))
  {
    ArticleAnswer(text, c);
    PrintedReads(Max(1, ArticleOf(c) + ArticleStep(text)));
    hide ResolveArticleRelative;
    ArticleAfter(c, ResolveArticleRelative(text, c).value);
    hide Between;
    hide ParseInt;
    hide Advance;
  }

  lemma ComplexAnswer(text: string, c: Context)
    requires Numbered(c) && ArticleOf(c) >= 1
    requires ResolveArticleRelative(text, c).None? && ResolveComplexRelative(text, c).Some?
    ensures var r := ResolveComplexRelative(text, c).value;
      && r.confidence == 0.90
      && (if ArticleStep(text) == 0 then r.articleNumber == c.articleNumber
          else r.articleNumber == Print(Some(Max(1, ArticleOf(c) + ArticleStep(text)))))
      && (ArticleStep(text) == -1 ==> ArticleOf(c) > 1)
  {
    hide Between;
    hide ToDisplayFormat;
    hide IntToString;
    hide ParseInt;
  }

  lemma ComplexTextsMove(text: string, c: Context)
    requires Numbered(c) && ArticleOf(c) >= 1
    requires ResolveArticleRelative(text, c).None? && ResolveComplexRelative(text, c).Some?
    ensures Numbered(Advance(c, ResolveComplexRelative(text, c)))
    ensures ArticleOf(Advance(c, ResolveComplexRelative(text, c))) == Max(1, ArticleOf(c) + ArticleStep(text))
  {
    ComplexAnswer(text, c);
    PrintedReads(Max(1, ArticleOf(c) + ArticleStep(text)));
    hide ResolveComplexRelative;
    hide ResolveArticleRelative;
    hide ArticleStep;
    hide Print;
    hide ParseInt;
    ArticleAfter(c, ResolveComplexRelative(text, c).value);
  }

  /** An unanswered text asks for no move, or for the article before the first. */
  lemma UnansweredStays(text: string, c: Context)
    requires Numbered(c) && ArticleOf(c) >= 1
    requires ResolveArticleRelative(text, c).None? && ResolveComplexRelative(text, c).None?
    ensures Max(1, ArticleOf(c) + ArticleStep(text)) == ArticleOf(c)
  {
    hide Between;
  }

  /**
    One reference moves the context by the step its text asks for, never below article 1. The fallbacks, the
    missing answers and the clamps of the separate resolvers all amount to this.
  */
  lemma {:induction false} ResolveMoves(referenceText: string, c: Context)
    requires Numbered(c) && ArticleOf(c) >= 1
    ensures var c' := Advance(c, Resolve(referenceText, c));
      Numbered(c') && ArticleOf(c') == Max(1, ArticleOf(c) + ArticleStep(Trim(referenceText)))
  {
    var text := Trim(referenceText);
    if ResolveArticleRelative(text, c).Some? {
      ArticleTextsMove(text, c);
    } else if ResolveParagraphRelative(text, c).Some? {
      ParagraphTextsStay(text);
      ArticleAfter(c, ResolveParagraphRelative(text, c).value);
    } else if ResolveItemRelative(text, c).Some? {
      ItemTextsStay(text, c);
      ArticleAfter(c, ResolveItemRelative(text, c).value);
    } else if ResolveComplexRelative(text, c).Some? {
      ComplexTextsMove(text, c);
    } else {
      UnansweredStays(text, c);
      if ResolveSameReference(text, c).Some? {
        SameTextsStay(text, c);
        ArticleAfter(c, ResolveSameReference(text, c).value);
      }
    }
  }

  // ---------------------------------------------------------------- whole runs

  /** The context after resolving the given texts one after another. */
  function ContextAfter(c: Context, texts: seq<string>): Context {
    if texts == [] then c
    else
      var before := ContextAfter(c, texts[..|texts| - 1]);
      Advance(before, Resolve(texts[|texts| - 1], before))
  }

  /** The steps the texts ask for. */
  function Steps(texts: seq<string>): (r: seq<int>)
    ensures |r| == |texts|
    ensures forall i :: 0 <= i < |r| ==> r[i] == ArticleStep(Trim(texts[i]))
  {
    seq(|texts|, i requires 0 <= i < |texts| => ArticleStep(Trim(texts[i])))
  }

  /** A walk that is stopped at 1 on every step. */
  function Walk(a: int, steps: seq<int>): int {
    if steps == [] then a else Max(1, Walk(a, steps[..|steps| - 1]) + steps[|steps| - 1])
  }

  /** The article of the context is such a walk. */
  lemma {:induction false} RunIsWalk(c: Context, texts: seq<string>)
    requires Numbered(c) && ArticleOf(c) >= 1
    ensures Numbered(ContextAfter(c, texts))
    ensures ArticleOf(ContextAfter(c, texts)) == Walk(ArticleOf(c), Steps(texts)) >= 1
  {
    if texts != [] {
      var n, front := |texts| - 1, texts[..|texts| - 1];
      RunIsWalk(c, front);
      ResolveMoves(texts[n], ContextAfter(c, front));
      hide Resolve;
      hide Advance;
      hide ArticleStep;
      hide ParseDecimal;
      assert Steps(texts)[..n] == Steps(front);
    }
  }

  function Sum(steps: seq<int>): int {
    if steps == [] then 0 else Sum(steps[..|steps| - 1]) + steps[|steps| - 1]
  }

  lemma SuffixSum(steps: seq<int>, k: nat)
    requires k < |steps|
    ensures Sum(steps[k..]) == Sum(steps[..|steps| - 1][k..]) + steps[|steps| - 1]
  {
    assert steps[k..][..|steps| - k - 1] == steps[..|steps| - 1][k..];
  }

  /** a is the start plus all steps, or 1 plus the steps after some position. */
  ghost predicate Reached(start: int, steps: seq<int>, a: int) {
    a == start + Sum(steps) || exists k :: 0 < k <= |steps| && a == 1 + Sum(steps[k..])
  }

  ghost predicate AtLeastAll(start: int, steps: seq<int>, a: int) {
    a >= start + Sum(steps) && forall k :: 0 < k <= |steps| ==> a >= 1 + Sum(steps[k..])
  }

  lemma {:induction false} WalkClosedForm(start: int, steps: seq<int>)
    ensures Reached(start, steps, Walk(start, steps)) && AtLeastAll(start, steps, Walk(start, steps))
  {
    if steps != [] {
      var n, front := |steps| - 1, steps[..|steps| - 1];
      var before, after := Walk(start, front), Walk(start, steps);
      WalkClosedForm(start, front);
      assert Sum(steps[n + 1..]) == 0;
      forall k | 0 < k <= |steps| ensures after >= 1 + Sum(steps[k..]) {
        if k <= n { SuffixSum(steps, k); }
      }
      if after == 1 {
        assert after == 1 + Sum(steps[n + 1..]);
      } else if before != start + Sum(front) {
        var k :| 0 < k <= n && before == 1 + Sum(front[k..]);
        SuffixSum(steps, k);
      }
    }
  }

  /**
    A whole run in closed form: the article at the end is the greatest of the start plus all the steps and, for
    every position, 1 plus the steps after that position.
  */
  lemma {:induction false} ClosedForm(c: Context, texts: seq<string>)
    requires Numbered(c) && ArticleOf(c) >= 1
    ensures Numbered(ContextAfter(c, texts))
    ensures var a := ArticleOf(ContextAfter(c, texts));
      Reached(ArticleOf(c), Steps(texts), a) && AtLeastAll(ArticleOf(c), Steps(texts), a)
  {
    RunIsWalk(c, texts);
    WalkClosedForm(ArticleOf(c), Steps(texts));
  }

  /** Going back n articles and forth again returns to the article exactly when it was past the n-th. */
  lemma {:induction false} ForthUndoesBackIff(c: Context, back: string, forth: string)
    requires Numbered(c) && ArticleOf(c) >= 1
    requires ArticleStep(Trim(forth)) > 0 && ArticleStep(Trim(back)) == -ArticleStep(Trim(forth))
    ensures Numbered(ContextAfter(c, [back, forth]))
    ensures ArticleOf(ContextAfter(c, [back, forth])) == ArticleOf(c) <==> ArticleOf(c) > ArticleStep(Trim(forth))
  {
    var steps := Steps([back, forth]);
    RunIsWalk(c, [back, forth]);
    assert steps[..1][..0] == [] && Walk(ArticleOf(c), steps[..1]) == Max(1, ArticleOf(c) + steps[0]);
  }

  // ---------------------------------------------------------------- contexts that never go wrong

  /** A positive article, and a paragraph that is absent or positive. */
  ghost predicate Safe(c: Context) {
    && Numbered(c) && ArticleOf(c) >= 1
    && (c.paragraphNumber.Some? ==> c.paragraphNumber.value >= 1)
  }

  ghost predicate PositiveParagraph(r: Option<Resolved>) {
    r.Some? && r.value.paragraphNumber.Some? ==> r.value.paragraphNumber.value >= 1
  }

  lemma NotRelativeToArticle(text: string, c: Context)
    requires |text| >= 2 && text[|text| - 1] != '条'
    ensures ResolveArticleRelative(text, c).None?
  {
    if Between(text, "前", "条").Some? { ShapeOf(text, "前", "条"); }
    if Between(text, "次", "条").Some? { ShapeOf(text, "次", "条"); }
    hide Between;
    hide ParseInt;
    hide Print;
  }

  lemma AllPrecedingParagraphs(c: Context)
    ensures Resolve("前各項", c).Some? && Resolve("前各項", c).value.paragraphNumber == Some(CurrentParagraph(c) - 1)
  {
    var text := "前各項";
    assert Trim(text) == text;
    NotRelativeToArticle(text, c);
    if Between(text, "前", "項").Some? { ShapeOf(text, "前", "項"); }
    if Between(text, "次", "項").Some? { ShapeOf(text, "次", "項"); }
    hide Trim;
    hide Between;
    hide ToDisplayFormat;
    hide IntToString;
    hide ResolveArticleRelative;
    hide ResolveItemRelative;
    hide ResolveComplexRelative;
    hide ResolveSameReference;
    assert Resolve(text, c) == ResolveParagraphRelative(text, c);
    assert Resolve(text, c).Some? && Resolve(text, c).value.paragraphNumber == Some(CurrentParagraph(c) - 1);
  }

  lemma OtherParagraphsPositive(text: string, c: Context)
    requires Safe(c) && text != "前各項"
    ensures PositiveParagraph(ResolveArticleRelative(text, c)) && PositiveParagraph(ResolveParagraphRelative(text, c))
    ensures PositiveParagraph(ResolveItemRelative(text, c)) && PositiveParagraph(ResolveSameReference(text, c))
    ensures PositiveParagraph(ResolveComplexRelative(text, c))
  {
    hide Between;
    hide ToDisplayFormat;
    hide ToDecimal;
    hide ParseItemNumber;
    hide ParseDecimal;
    hide ParseInt;
    hide Print;
    hide IntToString;
    assert PositiveParagraph(ResolveArticleRelative(text, c));
    assert PositiveParagraph(ResolveParagraphRelative(text, c));
    assert PositiveParagraph(ResolveItemRelative(text, c));
    assert PositiveParagraph(ResolveSameReference(text, c));
    assert PositiveParagraph(ResolveComplexRelative(text, c));
  }

  /** Trimming is all that separates a text from its meaning. */
  lemma ResolveTrimmed(referenceText: string, text: string, c: Context)
    requires Trim(referenceText) == text == Trim(text)
    ensures Resolve(referenceText, c) == Resolve(text, c)
  {
  }

  /** Paragraph 0 is answered in one case: "all preceding paragraphs", asked in the first paragraph. */
  lemma ParagraphZeroIff(referenceText: string, c: Context)
    requires Safe(c)
    ensures PositiveParagraph(Resolve(referenceText, c)) <==> !(Trim(referenceText) == "前各項" && CurrentParagraph(c) == 1)
    ensures !PositiveParagraph(Resolve(referenceText, c)) ==> Resolve(referenceText, c).value.paragraphNumber == Some(0)
  {
    var text := Trim(referenceText);
    if text == "前各項" {
      assert Trim("前各項") == "前各項";
      ResolveTrimmed(referenceText, text, c);
      AllPrecedingParagraphs(c);
    } else {
      OtherParagraphsPositive(text, c);
      hide ResolveArticleRelative;
      hide ResolveParagraphRelative;
      hide ResolveItemRelative;
      hide ResolveSameReference;
      hide ResolveComplexRelative;
      assert PositiveParagraph(Resolve(referenceText, c));
    }
  }

  lemma AdvanceParagraph(c: Context, r: Option<Resolved>)
    requires c.paragraphNumber.Some? ==> c.paragraphNumber.value >= 1
    requires PositiveParagraph(r) || r.value.paragraphNumber == Some(0)
    ensures Advance(c, r).paragraphNumber.Some? ==> Advance(c, r).paragraphNumber.value >= 1
    ensures Advance(c, r).lawId == c.lawId
  {
  }

  /** No run leaves the safe contexts: the paragraph 0 of an answer is never stored. */
  lemma {:induction false} ContextStaysSafe(c: Context, texts: seq<string>)
    requires Safe(c)
    ensures Safe(ContextAfter(c, texts))
    ensures ContextAfter(c, texts).lawId == c.lawId
  {
    if texts != [] {
      var before, text := ContextAfter(c, texts[..|texts| - 1]), texts[|texts| - 1];
      ContextStaysSafe(c, texts[..|texts| - 1]);
      ParagraphZeroIff(text, before);
      AdvanceParagraph(before, Resolve(text, before));
      ResolveMoves(text, before);
      hide Resolve;
      hide Advance;
      hide PositiveParagraph;
    }
  }
}
