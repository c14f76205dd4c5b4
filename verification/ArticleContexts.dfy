/** Contexts whose article number is any text: what it takes for the answers to be numbers, and to be shown as named. */
module ArticleContexts {
  import opened Wrappers
  import opened Decimals
  import opened ArticleNormalizer
  import opened RelativeReferences
  import opened ResolverRuns

  /** The number a text for another article leads to; NaN when the current article is not a number. */
  function NumberFor(text: string, c: Context): Option<int> {
    var n := Shift(ParseInt(c.articleNumber), ArticleStep(text));
    if Between(text, "前", "条").Some? then AtLeastOne(n) else n
  }

  /** An answer names the current article, or another one by its number. */
  predicate NamesByNumber(text: string, c: Context, r: Option<Resolved>) {
    r.Some? && r.value.articleNumber != c.articleNumber ==>
      && r.value.articleNumber == Print(NumberFor(text, c))
      && (Numbered(c) && ArticleOf(c) >= 0 ==> NumberFor(text, c).value >= 0)
  }

  lemma ArticleNamesByNumber(text: string, c: Context)
    ensures NamesByNumber(text, c, ResolveArticleRelative(text, c))
  {
    hide ParseInt;
    hide Print;
    hide ToDisplayFormat;
    if Between(text, "前", "条").Some? { ShapeOf(text, "前", "条"); }
    hide Between;
    assert NamesByNumber(text, c, ResolveArticleRelative(text, c));
  }

  lemma ComplexNamesByNumber(text: string, c: Context)
    requires ResolveArticleRelative(text, c).None?
    ensures NamesByNumber(text, c, ResolveComplexRelative(text, c))
  {
    hide ParseInt;
    hide Print;
    hide ToDisplayFormat;
    hide ToDecimal;
    hide Between;
    assert NamesByNumber(text, c, ResolveComplexRelative(text, c));
  }

  ghost predicate NamesCurrent(c: Context, r: Option<Resolved>) {
    r.Some? ==> r.value.articleNumber == c.articleNumber
  }

  lemma OthersNameCurrent(text: string, c: Context)
    ensures NamesCurrent(c, ResolveParagraphRelative(text, c)) && NamesCurrent(c, ResolveItemRelative(text, c))
    ensures NamesCurrent(c, ResolveSameReference(text, c))
  {
    hide Between;
    hide ToDisplayFormat;
    hide ToDecimal;
    hide IntToString;
    hide ParseItemNumber;
    hide ParseDecimal;
    assert NamesCurrent(c, ResolveParagraphRelative(text, c));
    assert NamesCurrent(c, ResolveItemRelative(text, c));
    assert NamesCurrent(c, ResolveSameReference(text, c));
  }

  lemma ResolvedByNumber(referenceText: string, c: Context)
    ensures NamesByNumber(Trim(referenceText), c, Resolve(referenceText, c))
  {
    hide ResolveArticleRelative;
    hide ResolveParagraphRelative;
    hide ResolveItemRelative;
    hide ResolveComplexRelative;
    hide ResolveSameReference;
    hide NumberFor;
    hide Trim;
    var text := Trim(referenceText);
    ArticleNamesByNumber(text, c);
    OthersNameCurrent(text, c);
    if ResolveArticleRelative(text, c).None? { ComplexNamesByNumber(text, c); }
    assert NamesByNumber(text, c, Resolve(referenceText, c));
  }

  // ---------------------------------------------------------------- numbers and NaN

  /** A printed number reads as a number, and NaN does not. */
  lemma PrintedIsNumber(n: Option<int>)
    ensures ParseInt(Print(n)).Some? <==> n.Some?
  {
    if n.Some? && n.value >= 0 {
      PrintedReads(n.value);
    } else if n.Some? {
      var d := ToDecimal(-n.value);
      assert Print(n)[1..] == d && d + "" == d;
      DigitRunOf(d, "");
    } else {
      assert SkipSpaces("NaN") == "NaN" && DigitRun("NaN") == "";
    }
  }

  lemma AdvanceArticle(c: Context, r: Option<Resolved>)
    ensures Advance(c, r).articleNumber == c.articleNumber || (r.Some? && Advance(c, r).articleNumber == r.value.articleNumber)
  {
  }

  /** No run turns a numbered context into one without a number, or back. */
  lemma {:induction false} NumberedThroughout(c: Context, texts: seq<string>)
    ensures Numbered(ContextAfter(c, texts)) <==> Numbered(c)
  {
    if texts != [] {
      var n, before := |texts| - 1, ContextAfter(c, texts[..|texts| - 1]);
      NumberedThroughout(c, texts[..n]);
      ResolvedByNumber(texts[n], before);
      AdvanceArticle(before, Resolve(texts[n], before));
      PrintedIsNumber(NumberFor(Trim(texts[n]), before));
      hide Resolve;
      hide Advance;
      hide ParseInt;
      hide Print;
      hide ArticleStep;
      assert Numbered(ContextAfter(c, texts)) <==> Numbered(before);
    }
  }

  /** The clamped steps hold for every text exactly when the current article is positive. */
  lemma StepsHoldIff(c: Context)
    requires Numbered(c)
    ensures ArticleOf(c) >= 1 <==> forall text: string ::
      var c' := Advance(c, Resolve(text, c));
      Numbered(c') && ArticleOf(c') == Max(1, ArticleOf(c) + ArticleStep(Trim(text)))
  {
    if ArticleOf(c) >= 1 {
      forall text: string
        ensures var c' := Advance(c, Resolve(text, c));
          Numbered(c') && ArticleOf(c') == Max(1, ArticleOf(c) + ArticleStep(Trim(text)))
      {
        ResolveMoves(text, c);
      }
    } else {
      var text := "同条";
      ThisArticle(text, c);
      hide Resolve;
      hide Advance;
      hide ArticleStep;
      assert ArticleOf(Advance(c, Resolve(text, c))) != Max(1, ArticleOf(c) + ArticleStep(Trim(text)));
    }
  }

  /** "The same article" names the current one, whatever it is. */
  lemma ThisArticle(text: string, c: Context)
    requires text == "同条"
    ensures Trim(text) == text && ArticleStep(text) == 0
    ensures Resolve(text, c).Some? && Resolve(text, c).value.articleNumber == c.articleNumber
    ensures Advance(c, Resolve(text, c)).articleNumber == c.articleNumber
  {
    assert Trim(text) == text;
    if Between(text, "前", "条").Some? { ShapeOf(text, "前", "条"); }
    if Between(text, "次", "条").Some? { ShapeOf(text, "次", "条"); }
    if Between(text, "前", "項").Some? { ShapeOf(text, "前", "項"); }
    if Between(text, "次", "項").Some? { ShapeOf(text, "次", "項"); }
    if Between(text, "前条第", "項").Some? { ShapeOf(text, "前条第", "項"); }
    if Between(text, "次条第", "項").Some? { ShapeOf(text, "次条第", "項"); }
    if Between(text, "前項第", "号").Some? { ShapeOf(text, "前項第", "号"); }
    hide Between;
    hide Trim;
    hide ParseInt;
    hide ToDisplayFormat;
    hide ParseItemNumber;
    assert Resolve(text, c).Some? && Resolve(text, c).value.articleNumber == c.articleNumber;
  }

  // ---------------------------------------------------------------- what the answers display

  /** Every answer shows the article it names. */
  ghost predicate ShowsItsArticle(text: string, c: Context) {
    Resolve(text, c).Some? ==>
      var r := Resolve(text, c).value; ToNumericFormat(r.articleDisplay) == r.articleNumber
  }

  lemma NumeralShows(text: string, c: Context)
    requires IsNumeral(c.articleNumber)
    ensures ShowsItsArticle(text, c)
    ensures Resolve(text, c).Some? ==> IsNumeral(Resolve(text, c).value.articleNumber)
  {
    if Resolve(text, c).Some? {
      NumeralReads(c.articleNumber);
      ResolvedByNumber(text, c);
      DisplayNamesArticle(text, c);
      hide Resolve;
      hide ParseInt;
      hide NumberFor;
      hide ToNumericFormat;
      hide ToDecimal;
    }
  }

  /** The next article of an article without a number is "NaN". */
  lemma NextOfNothing(c: Context)
    requires !Numbered(c)
    ensures Resolve("次条", c).Some? && Resolve("次条", c).value.articleNumber == "NaN"
  {
    assert Trim("次条") == "次条";
    hide ToDisplayFormat;
    hide ParseInt;
    hide Between;
    assert ResolveArticleRelative("次条", c).Some?;
  }

  /**
    Every answer's display form normalises back to the article number it names exactly when the current article
    number is a string of digits: not for a branch number, a supplementary provision or an empty one.
  */
  lemma EveryAnswerShowsIff(c: Context)
    ensures IsNumeral(c.articleNumber) <==> forall text :: ShowsItsArticle(text, c)
  {
    if IsNumeral(c.articleNumber) {
      forall text ensures ShowsItsArticle(text, c) { NumeralShows(text, c); }
    } else if c.articleNumber == "" {
      NextOfNothing(c);
      DisplayNamesArticle("次条", c);
      hide Resolve;
      assert !ShowsItsArticle("次条", c);
    } else {
      ThisArticle("同条", c);
      DisplayNamesArticle("同条", c);
      hide Resolve;
      assert !ShowsItsArticle("同条", c);
    }
  }
}
