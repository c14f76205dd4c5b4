/** Where a run of relative references stands: the article and the paragraph of its context, as two numbers. */
module ParagraphRuns {
  import opened Wrappers
  import opened Decimals
  import opened ArticleNormalizer
  import opened RelativeReferences
  import opened ResolverRuns

  /** The signed number of paragraphs a text moves by within its article. */
  function ParagraphStep(text: string): int {
    if text == "前項" then -1
    else if text == "次項" then 1
    else if Between(text, "前", "項").Some? then -(Between(text, "前", "項").value as int)
    else if Between(text, "次", "項").Some? then Between(text, "次", "項").value
    else if text == "前各項" then -1
    else if Between(text, "前項第", "号").Some? then -1
    else 0
  }

  /** The paragraph of another article a text leads to: the one it names, or the first. */
  function Landing(text: string): nat {
    if Between(text, "前条第", "項").Some? then Between(text, "前条第", "項").value
    else if Between(text, "次条第", "項").Some? then Between(text, "次条第", "項").value
    else 1
  }

  /** Where a context stands: its article number as it is written, and its paragraph. */
  datatype Spot = Spot(article: string, paragraph: int)

  function SpotOf(c: Context): Spot {
    Spot(c.articleNumber, CurrentParagraph(c))
  }

  /** "The preceding article", which an article that is not past the first does not have. */
  predicate OneBack(text: string) {
    text == "前条" || Between(text, "前条第", "項").Some?
  }

  /** The article number a text leads to: the current one as it stands, or another one in plain digits. */
  function Target(article: string, text: string): string {
    var n := if ParseInt(article).Some? then ParseInt(article).value else 0;
    if ArticleStep(text) == 0 || (OneBack(text) && n <= 1) then article
    else Print(Some(Max(1, n + ArticleStep(text))))
  }

  /** A change of article sets the paragraph; otherwise the paragraph walks and stops at 1. */
  function Move(s: Spot, text: string): Spot {
    var article := Target(s.article, text);
    Spot(article, if article != s.article then Landing(text) else Max(1, s.paragraph + ParagraphStep(text)))
  }

  function SpotAfter(s: Spot, texts: seq<string>): Spot {
    if texts == [] then s else Move(SpotAfter(s, texts[..|texts| - 1]), Trim(texts[|texts| - 1]))
  }

  // ---------------------------------------------------------------- one reference

  /** Texts for whole articles, items and the current place ask for no other paragraph. */
  lemma NotAParagraphText(text: string)
    requires
      || (|text| == 2 && text != "前項" && text != "次項")
      || (|text| > 2 && text[|text| - 1] == '条')
      || text == "前各号"
    ensures ParagraphStep(text) == 0 && Landing(text) == 1
  {
    if Between(text, "前", "項").Some? { ShapeOf(text, "前", "項"); }
    if Between(text, "次", "項").Some? { ShapeOf(text, "次", "項"); }
    if Between(text, "前項第", "号").Some? { ShapeOf(text, "前項第", "号"); }
    if Between(text, "前条第", "項").Some? { ShapeOf(text, "前条第", "項"); }
    if Between(text, "次条第", "項").Some? { ShapeOf(text, "次条第", "項"); }
  }

  lemma ArticleTextEnd(text: string, c: Context)
    requires ResolveArticleRelative(text, c).Some?
    ensures |text| >= 2 && text[|text| - 1] == '条'
  {
    if Between(text, "前", "条").Some? { ShapeOf(text, "前", "条"); }
    if Between(text, "次", "条").Some? { ShapeOf(text, "次", "条"); }
  }

  /** An answer takes the context to its paragraph, or to the first one of another article. */
  lemma AdvanceParagraphTo(c: Context, r: Resolved)
    requires r.paragraphNumber.Some? ==> r.paragraphNumber.value >= 1
    ensures var c' := Advance(c, Some(r));
      && CurrentParagraph(c') ==
           (if c'.articleNumber != c.articleNumber then (if r.paragraphNumber.Some? then r.paragraphNumber.value else 1)
            else if r.confidence > 0.7 && r.paragraphNumber.Some? then r.paragraphNumber.value
            else CurrentParagraph(c))
      && (r.articleNumber == c.articleNumber ==> c'.articleNumber == c.articleNumber)
      && (r.confidence > 0.7 && r.articleNumber != "" ==> c'.articleNumber == r.articleNumber)
  {
  }

  lemma ArticleTextsLand(text: string, c: Context)
    requires Safe(c) && ResolveArticleRelative(text, c).Some?
    ensures CurrentParagraph(Advance(c, ResolveArticleRelative(text, c))) ==
      if Advance(c, ResolveArticleRelative(text, c)).articleNumber != c.articleNumber then Landing(text)
      else Max(1, CurrentParagraph(c) + ParagraphStep(text))
  {
    ArticleTextEnd(text, c);
    NotAParagraphText(text);
    var r := ResolveArticleRelative(text, c).value;
    ArticleAnswer(text, c);
    AdvanceParagraphTo(c, r);
    hide ResolveArticleRelative;
    hide ParagraphStep;
    hide Landing;
    hide Advance;
    assert CurrentParagraph(c) >= 1;
  }

  lemma ParagraphTextsWalk(text: string, c: Context)
    requires Safe(c) && ResolveParagraphRelative(text, c).Some?
    ensures Advance(c, ResolveParagraphRelative(text, c)).articleNumber == c.articleNumber
    ensures CurrentParagraph(Advance(c, ResolveParagraphRelative(text, c))) == Max(1, CurrentParagraph(c) + ParagraphStep(text))
  {
    hide Between;
    hide ToDisplayFormat;
    hide IntToString;
  }

  lemma ItemTextsRemain(text: string, c: Context)
    requires Safe(c) && ResolveItemRelative(text, c).Some?
    ensures Advance(c, ResolveItemRelative(text, c)).articleNumber == c.articleNumber
    ensures CurrentParagraph(Advance(c, ResolveItemRelative(text, c))) == CurrentParagraph(c)
  {
    hide ToDisplayFormat;
    hide ToDecimal;
    hide ParseItemNumber;
    hide ParseDecimal;
  }

  lemma SameTextsRemain(text: string, c: Context)
    requires Safe(c) && ResolveSameReference(text, c).Some?
    ensures |text| == 2 && text != "前項" && text != "次項"
    ensures Advance(c, ResolveSameReference(text, c)).articleNumber == c.articleNumber
    ensures CurrentParagraph(Advance(c, ResolveSameReference(text, c))) == CurrentParagraph(c)
  {
    hide ToDisplayFormat;
  }

  lemma OtherwiseOnlyComplex(text: string, c: Context)
    requires ResolveParagraphRelative(text, c).None?
    ensures ParagraphStep(text) == if Between(text, "前項第", "号").Some? then -1 else 0
  {
    hide Between;
    hide ToDisplayFormat;
    hide IntToString;
  }

  /** "第二項" of another article. */
  predicate NamesParagraph(text: string) {
    Between(text, "前条第", "項").Some? || Between(text, "次条第", "項").Some?
  }

  lemma StepIffParagraph(text: string, c: Context)
    requires ResolveArticleRelative(text, c).None?
    ensures -1 <= ArticleStep(text) <= 1
    ensures ArticleStep(text) != 0 <==> NamesParagraph(text)
  {
    hide Between;
    hide ParseInt;
    hide Print;
    hide ToDisplayFormat;
  }

  lemma ComplexParagraph(text: string, c: Context)
    requires c.paragraphNumber.Some? ==> c.paragraphNumber.value >= 1
    requires ResolveParagraphRelative(text, c).None? && ResolveComplexRelative(text, c).Some?
    ensures var r := ResolveComplexRelative(text, c).value;
      && r.confidence > 0.7
      && r.paragraphNumber ==
           Some(if NamesParagraph(text) then Landing(text) else Max(1, CurrentParagraph(c) + ParagraphStep(text)))
  {
    OtherwiseOnlyComplex(text, c);
    hide ParagraphStep;
    hide ResolveParagraphRelative;
    hide Between;
    hide ToDisplayFormat;
    hide Print;
    hide ParseInt;
    hide ToDecimal;
  }

  lemma ComplexAnswerLands(text: string, c: Context)
    requires Safe(c) && ResolveArticleRelative(text, c).None?
    requires ResolveParagraphRelative(text, c).None? && ResolveComplexRelative(text, c).Some?
    ensures var r := ResolveComplexRelative(text, c).value;
      && r.confidence > 0.7 && r.articleNumber != ""
      && r.paragraphNumber ==
           Some(if r.articleNumber != c.articleNumber then Landing(text) else Max(1, CurrentParagraph(c) + ParagraphStep(text)))
  {
    hide ResolveArticleRelative;
    hide ResolveParagraphRelative;
    hide ResolveComplexRelative;
    hide ArticleStep;
    hide ParagraphStep;
    hide Landing;
    hide NamesParagraph;
    hide Print;
    ComplexAnswer(text, c);
    ComplexParagraph(text, c);
    StepIffParagraph(text, c);
    PrintedReads(Max(1, ArticleOf(c) + ArticleStep(text)));
    assert ParseInt("").None?;
    hide ParseInt;
    var r := ResolveComplexRelative(text, c).value;
    assert r.articleNumber != c.articleNumber <==> NamesParagraph(text);
    assert r.articleNumber != "";
  }

  lemma ComplexTextsLand(text: string, c: Context)
    requires Safe(c) && ResolveArticleRelative(text, c).None?
    requires ResolveParagraphRelative(text, c).None? && ResolveComplexRelative(text, c).Some?
    ensures CurrentParagraph(Advance(c, ResolveComplexRelative(text, c))) ==
      if Advance(c, ResolveComplexRelative(text, c)).articleNumber != c.articleNumber then Landing(text)
      else Max(1, CurrentParagraph(c) + ParagraphStep(text))
  {
    ComplexAnswerLands(text, c);
    AdvanceParagraphTo(c, ResolveComplexRelative(text, c).value);
    hide *;
  }

  /** A text nobody answers asks for no other paragraph, or for one before the first. */
  lemma UnansweredRemains(text: string, c: Context)
    requires Safe(c)
    requires ResolveParagraphRelative(text, c).None? && ResolveComplexRelative(text, c).None?
    ensures Max(1, CurrentParagraph(c) + ParagraphStep(text)) == CurrentParagraph(c)
  {
    OtherwiseOnlyComplex(text, c);
    hide ParagraphStep;
    hide ResolveParagraphRelative;
    if Between(text, "前項第", "号").Some? {
      ShapeOf(text, "前項第", "号");
      if Between(text, "前条第", "項").Some? { ShapeOf(text, "前条第", "項"); }
      if Between(text, "次条第", "項").Some? { ShapeOf(text, "次条第", "項"); }
    }
    hide Between;
    hide ToDisplayFormat;
    hide ToDecimal;
    assert Max(1, CurrentParagraph(c) + ParagraphStep(text)) == CurrentParagraph(c);
  }

  lemma {:induction false} ResolveMovesParagraph(referenceText: string, c: Context)
    requires Safe(c)
    ensures var c' := Advance(c, Resolve(referenceText, c));
      CurrentParagraph(c') ==
        if c'.articleNumber != c.articleNumber then Landing(Trim(referenceText))
        else Max(1, CurrentParagraph(c) + ParagraphStep(Trim(referenceText)))
  {
    var text := Trim(referenceText);
    if ResolveArticleRelative(text, c).Some? {
      ArticleTextsLand(text, c);
    } else if ResolveParagraphRelative(text, c).Some? {
      ParagraphTextsWalk(text, c);
    } else if ResolveItemRelative(text, c).Some? {
      ItemTextsRemain(text, c);
      NotAParagraphText(text);
    } else if ResolveComplexRelative(text, c).Some? {
      ComplexTextsLand(text, c);
    } else if ResolveSameReference(text, c).Some? {
      SameTextsRemain(text, c);
      NotAParagraphText(text);
    } else {
      UnansweredRemains(text, c);
    }
  }

  // ---------------------------------------------------------------- whole runs

  /** Where the article number of an answer comes from. */
  lemma ResolvedTarget(referenceText: string, c: Context)
    requires Safe(c)
    ensures Advance(c, Resolve(referenceText, c)).articleNumber == Target(c.articleNumber, Trim(referenceText))
  {
    var text := Trim(referenceText);
    if ResolveArticleRelative(text, c).Some? {
      ArticleTarget(text, c);
    } else if ResolveParagraphRelative(text, c).Some? {
      ParagraphTextsStay(text);
      ParagraphTextsWalk(text, c);
    } else if ResolveItemRelative(text, c).Some? {
      ItemTextsStay(text, c);
      ItemTextsRemain(text, c);
    } else if ResolveComplexRelative(text, c).Some? {
      ComplexTarget(text, c);
    } else {
      UnansweredTarget(text, c);
      if ResolveSameReference(text, c).Some? { SameTextsRemain(text, c); }
    }
    hide Target;
  }

  lemma ArticleTarget(text: string, c: Context)
    requires Safe(c) && ResolveArticleRelative(text, c).Some?
    ensures Advance(c, ResolveArticleRelative(text, c)).articleNumber == Target(c.articleNumber, text)
  {
    ArticleTextEnd(text, c);
    if Between(text, "前条第", "項").Some? { ShapeOf(text, "前条第", "項"); }
    ArticleAnswer(text, c);
    PrintedReads(Max(1, ArticleOf(c) + ArticleStep(text)));
    assert text == "前条" ==> ArticleStep(text) == -1;
    ArticleTextSteps(text, c);
    hide ResolveArticleRelative;
    hide Between;
    hide ParseInt;
    hide ArticleStep;
    hide Print;
  }

  lemma ArticleTextSteps(text: string, c: Context)
    requires ResolveArticleRelative(text, c).Some?
    ensures ArticleStep(text) != 0
  {
    hide Between;
    hide ParseInt;
    hide Print;
    hide ToDisplayFormat;
  }

  lemma AdvanceNames(c: Context, r: Resolved)
    requires r.confidence > 0.7 && r.articleNumber != ""
    ensures Advance(c, Some(r)).articleNumber == r.articleNumber
  {
  }

  lemma ComplexTarget(text: string, c: Context)
    requires Safe(c) && ResolveArticleRelative(text, c).None? && ResolveComplexRelative(text, c).Some?
    ensures Advance(c, ResolveComplexRelative(text, c)).articleNumber == Target(c.articleNumber, text)
  {
    hide ResolveArticleRelative;
    hide ResolveComplexRelative;
    hide OneBack;
    hide ArticleStep;
    hide Print;
    hide Advance;
    ComplexAnswer(text, c);
    PrintedReads(Max(1, ArticleOf(c) + ArticleStep(text)));
    if OneBack(text) { OneBackSteps(text, c); }
    assert c.articleNumber != "" by { assert ParseInt("").None?; }
    hide ParseInt;
    AdvanceNames(c, ResolveComplexRelative(text, c).value);
    assert Advance(c, ResolveComplexRelative(text, c)).articleNumber == Target(c.articleNumber, text);
  }

  lemma OneBackSteps(text: string, c: Context)
    requires ResolveArticleRelative(text, c).None? && OneBack(text)
    ensures ArticleStep(text) == -1
  {
    hide Between;
    hide ParseInt;
    hide Print;
    hide ToDisplayFormat;
  }

  lemma UnansweredTarget(text: string, c: Context)
    requires Safe(c) && ResolveArticleRelative(text, c).None? && ResolveComplexRelative(text, c).None?
    ensures Target(c.articleNumber, text) == c.articleNumber
  {
    hide Between;
    hide ParseInt;
    hide Print;
    hide ToDisplayFormat;
  }

  lemma SafeKept(referenceText: string, c: Context)
    requires Safe(c)
    ensures Safe(Advance(c, Resolve(referenceText, c)))
  {
    ParagraphZeroIff(referenceText, c);
    AdvanceParagraph(c, Resolve(referenceText, c));
    ResolveMoves(referenceText, c);
    hide Resolve;
    hide Advance;
    hide PositiveParagraph;
  }

  /**
    The run of the resolver over any texts, as the walk of a place: article number and paragraph of the context are
    those of `SpotAfter`.
  */
  lemma {:induction false} RunIsMoves(c: Context, texts: seq<string>)
    requires Safe(c)
    ensures Safe(ContextAfter(c, texts)) && SpotOf(ContextAfter(c, texts)) == SpotAfter(SpotOf(c), texts)
  {
    if texts != [] {
      var n, front := |texts| - 1, texts[..|texts| - 1];
      var before := ContextAfter(c, front);
      RunIsMoves(c, front);
      SafeKept(texts[n], before);
      ResolvedTarget(texts[n], before);
      ResolveMovesParagraph(texts[n], before);
      hide Resolve;
      hide Advance;
      hide Safe;
      hide Target;
      hide Landing;
      hide ParagraphStep;
      hide CurrentParagraph;
      assert SpotOf(ContextAfter(c, texts)) == SpotAfter(SpotOf(c), texts);
    }
  }

  function ParagraphSteps(texts: seq<string>): (r: seq<int>)
    ensures |r| == |texts|
    ensures forall i :: 0 <= i < |r| ==> r[i] == ParagraphStep(Trim(texts[i]))
  {
    seq(|texts|, i requires 0 <= i < |texts| => ParagraphStep(Trim(texts[i])))
  }

  lemma {:induction false} StaysInArticle(s: Spot, texts: seq<string>)
    requires forall i :: 0 <= i < |texts| ==> ArticleStep(Trim(texts[i])) == 0
    ensures SpotAfter(s, texts) == Spot(s.article, Walk(s.paragraph, ParagraphSteps(texts)))
  {
    if texts != [] {
      var n, front := |texts| - 1, texts[..|texts| - 1];
      StaysInArticle(s, front);
      assert ParagraphSteps(texts)[..n] == ParagraphSteps(front);
      hide ParagraphStep;
      hide ArticleStep;
      hide Landing;
    }
  }

  /** Within one article the paragraph has the closed form that the article has over the whole law. */
  lemma ParagraphClosedForm(c: Context, texts: seq<string>)
    requires Safe(c)
    requires forall i :: 0 <= i < |texts| ==> ArticleStep(Trim(texts[i])) == 0
    ensures ContextAfter(c, texts).articleNumber == c.articleNumber
    ensures var p := CurrentParagraph(ContextAfter(c, texts));
      Reached(CurrentParagraph(c), ParagraphSteps(texts), p) && AtLeastAll(CurrentParagraph(c), ParagraphSteps(texts), p)
  {
    RunIsMoves(c, texts);
    StaysInArticle(SpotOf(c), texts);
    WalkClosedForm(CurrentParagraph(c), ParagraphSteps(texts));
  }
}
