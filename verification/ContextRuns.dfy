/** Whole contexts over whole runs: article number, paragraph and item after any mix of references. */
module ContextRuns {
  import opened Wrappers
  import opened Decimals
  import opened ArticleNormalizer
  import opened RelativeReferences
  import opened ResolverRuns
  import opened ParagraphRuns
  import opened ItemRuns

  /** What moves in a context, as it is written there. */
  datatype Place = Place(article: string, paragraph: Option<int>, item: Option<string>)

  function PlaceOf(c: Context): Place {
    Place(c.articleNumber, c.paragraphNumber, c.itemNumber)
  }

  /** References to what comes just before, which the first paragraph does not have. */
  predicate OneBefore(text: string) {
    text == "前項" || text == "前各項" || Between(text, "前項第", "号").Some?
  }

  /** The paragraph of the current article that a text names. */
  function NamedParagraph(text: string, paragraph: Option<int>): Option<int> {
    var p := if paragraph.Some? && paragraph.value != 0 then paragraph.value else 1;
    if ParagraphStep(text) != 0 then
      if OneBefore(text) && p <= 1 then None else Some(Max(1, p + ParagraphStep(text)))
    else if text == "同項" || text == "本項" then Some(p)
    else None
  }

  /** The item that 前項第二号 names. */
  function NamedItem(text: string): Option<string> {
    if Between(text, "前項第", "号").Some? then Some(ToDecimal(Between(text, "前項第", "号").value)) else None
  }

  /** The item a reference to an item leads to; every other text leaves it. */
  function SteppedItem(text: string, item: Option<string>): Option<string> {
    if !IsItemText(text) || item.None? || item.value == "" then item
    else
      var current := ParseItemNumber(item.value);
      var n := ParseDecimal(current);
      if text == "前各号" then Some(current)
      else if text == "次号" then Some(ToDecimal(n + 1))
      else if n <= 1 then item
      else Some(ToDecimal(n - 1))
  }

  /** Another article or paragraph takes the item with it; otherwise only references to items move the item. */
  function Follow(s: Place, text: string): Place {
    var article, paragraph := Target(s.article, text), NamedParagraph(text, s.paragraph);
    if article != s.article then Place(article, Some(Landing(text)), None)
    else if paragraph.Some? && paragraph != s.paragraph then Place(article, paragraph, NamedItem(text))
    else Place(article, s.paragraph, SteppedItem(text, s.item))
  }

  function PlaceAfter(s: Place, texts: seq<string>): Place {
    if texts == [] then s else Follow(PlaceAfter(s, texts[..|texts| - 1]), Trim(texts[|texts| - 1]))
  }

  // ---------------------------------------------------------------- how an answer moves a context

  /** The answer moves the context to the given place, and nothing else in it. */
  ghost predicate MovesTo(c: Context, r: Option<Resolved>, s: Place) {
    Advance(c, r) == c.(articleNumber := s.article, paragraphNumber := s.paragraph, itemNumber := s.item)
  }

  lemma AdvanceStays(c: Context, r: Resolved)
    requires r.confidence <= 0.7
      || (r.articleNumber == c.articleNumber && !TruthyString(r.itemNumber)
          && (!TruthyNumber(r.paragraphNumber) || r.paragraphNumber == c.paragraphNumber))
    ensures Advance(c, Some(r)) == c
  {
  }

  lemma AdvanceToItem(c: Context, r: Resolved)
    requires r.confidence > 0.7 && r.articleNumber == c.articleNumber && r.paragraphNumber == c.paragraphNumber
    requires TruthyString(r.itemNumber)
    ensures Advance(c, Some(r)) == c.(itemNumber := r.itemNumber)
  {
  }

  lemma AdvanceToParagraph(c: Context, r: Resolved)
    requires r.confidence > 0.7 && r.articleNumber == c.articleNumber
    requires TruthyNumber(r.paragraphNumber) && r.paragraphNumber != c.paragraphNumber
    ensures Advance(c, Some(r)) == c.(paragraphNumber := r.paragraphNumber, itemNumber := r.itemNumber)
  {
  }

  lemma AdvanceToArticle(c: Context, r: Resolved)
    requires r.confidence > 0.7 && r.articleNumber != c.articleNumber && r.articleNumber != ""
    requires r.paragraphNumber.None? || r.paragraphNumber.value >= 1
    ensures Advance(c, Some(r)) == c.(
      articleNumber := r.articleNumber,
      paragraphNumber := Some(if r.paragraphNumber.Some? then r.paragraphNumber.value else 1),
      itemNumber := r.itemNumber)
  {
  }

  lemma StaysOnItem(text: string, item: Option<string>)
    requires !IsItemText(text)
    ensures SteppedItem(text, item) == item
  {
  }

  lemma PrintedIsSome(n: int)
    requires n >= 1
    ensures Print(Some(n)) != ""
  {
    PrintedReads(n);
  }

  lemma ArticleMoves(text: string, c: Context)
    requires Safe(c) && ResolveArticleRelative(text, c).Some?
    ensures MovesTo(c, ResolveArticleRelative(text, c), Follow(PlaceOf(c), text))
  {
    ArticleTextEnd(text, c);
    NotAParagraphText(text);
    ArticleTarget(text, c);
    ArticleAnswer(text, c);
    StaysOnItem(text, c.itemNumber);
    PrintedIsSome(Max(1, ArticleOf(c) + ArticleStep(text)));
    assert NamedParagraph(text, c.paragraphNumber) == None;
    var r := ResolveArticleRelative(text, c).value;
    assert r.confidence > 0.7 ==> r.articleNumber != "";
    hide ResolveArticleRelative;
    hide Target;
    hide NamedParagraph;
    hide NamedItem;
    hide SteppedItem;
    hide ArticleStep;
    hide ParagraphStep;
    hide Landing;
    hide ParseInt;
    hide Print;
    hide ArticleOf;
    hide CurrentParagraph;
    hide Safe;
    if r.confidence <= 0.7 || r.articleNumber == c.articleNumber {
      AdvanceStays(c, r);
    } else {
      AdvanceToArticle(c, r);
    }
    hide Advance;
    assert MovesTo(c, Some(r), Follow(PlaceOf(c), text));
  }

  lemma ParagraphByStep(text: string, c: Context)
    requires ResolveParagraphRelative(text, c).Some? && CurrentParagraph(c) >= 1
    requires text == "前各項" ==> Between(text, "前", "項").None? && Between(text, "次", "項").None?
    ensures ParagraphStep(text) != 0
    ensures var r, p := ResolveParagraphRelative(text, c).value, CurrentParagraph(c);
      && r.articleNumber == c.articleNumber && r.itemNumber == None
      && (if text == "前項" && p <= 1 then r.confidence <= 0.7 else r.confidence > 0.7)
      && (if text == "前各項" then r.paragraphNumber == Some(p - 1) && ParagraphStep(text) == -1
          else r.paragraphNumber == Some(Max(1, p + ParagraphStep(text))))
  {
    hide Between;
    hide ToDisplayFormat;
    hide IntToString;
    hide CurrentParagraph;
  }

  lemma ParagraphAnswer(text: string, c: Context)
    requires Safe(c) && ResolveParagraphRelative(text, c).Some?
    ensures var r, named := ResolveParagraphRelative(text, c).value, NamedParagraph(text, c.paragraphNumber);
      && r.articleNumber == c.articleNumber && r.itemNumber == None
      && (named.Some? ==> r.confidence > 0.7 && r.paragraphNumber == named && named.value >= 1)
      && (named.None? ==> r.confidence <= 0.7 || r.paragraphNumber == Some(0))
  {
    ParagraphTextShape(text, c);
    NamedByStep(text, c);
    ParagraphByStep(text, c);
    hide ResolveParagraphRelative;
    hide NamedParagraph;
    hide CurrentParagraph;
    hide ParagraphStep;
    hide Between;
  }

  lemma NamedByStep(text: string, c: Context)
    requires Safe(c)
    ensures CurrentParagraph(c) >= 1
    ensures ParagraphStep(text) != 0 ==>
      NamedParagraph(text, c.paragraphNumber) ==
        if OneBefore(text) && CurrentParagraph(c) <= 1 then None else Some(Max(1, CurrentParagraph(c) + ParagraphStep(text)))
  {
    hide OneBefore;
    hide ParagraphStep;
  }

  /** A text for a paragraph names no item, and 前各項 no number. */
  lemma ParagraphTextShape(text: string, c: Context)
    requires ResolveParagraphRelative(text, c).Some?
    ensures Between(text, "前項第", "号").None? && !IsItemText(text)
    ensures text == "前各項" ==> Between(text, "前", "項").None? && Between(text, "次", "項").None?
  {
    if Between(text, "前", "項").Some? { ShapeOf(text, "前", "項"); }
    if Between(text, "次", "項").Some? { ShapeOf(text, "次", "項"); }
    if Between(text, "前項第", "号").Some? { ShapeOf(text, "前項第", "号"); }
    hide ToDisplayFormat;
    hide IntToString;
    hide Between;
  }

  lemma ParagraphMoves(text: string, c: Context)
    requires Safe(c) && ResolveParagraphRelative(text, c).Some?
    ensures MovesTo(c, ResolveParagraphRelative(text, c), Follow(PlaceOf(c), text))
  {
    ParagraphTextsStay(text);
    ParagraphTextShape(text, c);
    ParagraphAnswer(text, c);
    StaysOnItem(text, c.itemNumber);
    assert Target(c.articleNumber, text) == c.articleNumber && NamedItem(text) == None;
    var r, named := ResolveParagraphRelative(text, c).value, NamedParagraph(text, c.paragraphNumber);
    hide ResolveParagraphRelative;
    hide Between;
    hide Target;
    hide NamedParagraph;
    hide NamedItem;
    hide SteppedItem;
    hide ArticleStep;
    hide ParagraphStep;
    hide Landing;
    hide ParseInt;
    hide Print;
    hide ArticleOf;
    hide CurrentParagraph;
    hide Safe;
    if named.Some? && named != c.paragraphNumber {
      AdvanceToParagraph(c, r);
    } else {
      AdvanceStays(c, r);
    }
    hide Advance;
    assert MovesTo(c, Some(r), Follow(PlaceOf(c), text));
  }

  lemma ItemTextShape(text: string)
    requires IsItemText(text)
    ensures ArticleStep(text) == 0 && ParagraphStep(text) == 0
  {
    NotAnArticleText(text);
    NotAParagraphText(text);
  }

  lemma ItemAnswered(text: string, c: Context)
    requires ResolveItemRelative(text, c).Some?
    ensures IsItemText(text)
    ensures var r, stepped := ResolveItemRelative(text, c).value, SteppedItem(text, c.itemNumber);
      && r.articleNumber == c.articleNumber && r.paragraphNumber == c.paragraphNumber
      && (r.confidence > 0.7 ==> r.itemNumber == stepped && TruthyString(stepped))
      && (r.confidence <= 0.7 ==> stepped == c.itemNumber)
  {
    hide ToDisplayFormat;
    hide ToDecimal;
    hide ParseItemNumber;
    hide ParseDecimal;
  }

  lemma ItemMoves(text: string, c: Context)
    requires Safe(c) && ResolveItemRelative(text, c).Some?
    ensures MovesTo(c, ResolveItemRelative(text, c), Follow(PlaceOf(c), text))
  {
    ItemAnswered(text, c);
    ItemTextShape(text);
    assert Target(c.articleNumber, text) == c.articleNumber && NamedParagraph(text, c.paragraphNumber) == None;
    var r := ResolveItemRelative(text, c).value;
    hide ResolveItemRelative;
    hide Target;
    hide NamedParagraph;
    hide NamedItem;
    hide SteppedItem;
    hide ArticleStep;
    hide ParagraphStep;
    hide Landing;
    hide ParseInt;
    hide Print;
    hide ArticleOf;
    hide CurrentParagraph;
    hide Safe;
    if r.confidence > 0.7 {
      AdvanceToItem(c, r);
    } else {
      AdvanceStays(c, r);
    }
    hide Advance;
    assert MovesTo(c, Some(r), Follow(PlaceOf(c), text));
  }

  lemma ComplexItem(text: string, c: Context)
    requires ResolveParagraphRelative(text, c).None? && ResolveComplexRelative(text, c).Some?
    ensures !IsItemText(text)
    ensures var r := ResolveComplexRelative(text, c).value;
      && r.itemNumber == (if NamesParagraph(text) then None else NamedItem(text))
      && (!NamesParagraph(text) ==> NamedItem(text).Some? && CurrentParagraph(c) > 1 && OneBefore(text))
  {
    if Between(text, "前条第", "項").Some? { ShapeOf(text, "前条第", "項"); }
    if Between(text, "次条第", "項").Some? { ShapeOf(text, "次条第", "項"); }
    if Between(text, "前項第", "号").Some? { ShapeOf(text, "前項第", "号"); }
    hide Between;
    hide ToDisplayFormat;
    hide Print;
    hide ParseInt;
    hide ToDecimal;
  }

  lemma ComplexNamed(text: string, c: Context)
    requires Safe(c) && ResolveArticleRelative(text, c).None?
    requires ResolveParagraphRelative(text, c).None? && ResolveComplexRelative(text, c).Some?
    ensures var r := ResolveComplexRelative(text, c).value;
      && r.articleNumber == Target(c.articleNumber, text)
      && (r.articleNumber == c.articleNumber ==>
            && r.itemNumber == NamedItem(text)
            && r.paragraphNumber == NamedParagraph(text, c.paragraphNumber)
            && r.paragraphNumber != c.paragraphNumber)
      && (r.articleNumber != c.articleNumber ==> r.itemNumber == None)
  {
    var r := ResolveComplexRelative(text, c).value;
    ComplexTarget(text, c);
    ComplexAnswerLands(text, c);
    AdvanceNames(c, r);
    ComplexItem(text, c);
    StepIffParagraph(text, c);
    OtherwiseOnlyComplex(text, c);
    ComplexAnswer(text, c);
    PrintedReads(Max(1, ArticleOf(c) + ArticleStep(text)));
    hide ResolveArticleRelative;
    hide ResolveParagraphRelative;
    hide ResolveComplexRelative;
    hide Advance;
    hide Target;
    hide Landing;
    hide ArticleStep;
    hide ParagraphStep;
    hide NamesParagraph;
    hide ParseInt;
    hide Print;
    hide ToDecimal;
    hide Between;
    hide OneBefore;
  }

  lemma ComplexMoves(text: string, c: Context)
    requires Safe(c) && ResolveArticleRelative(text, c).None?
    requires ResolveParagraphRelative(text, c).None? && ResolveComplexRelative(text, c).Some?
    ensures MovesTo(c, ResolveComplexRelative(text, c), Follow(PlaceOf(c), text))
  {
    ComplexNamed(text, c);
    ComplexAnswerLands(text, c);
    AnswerLandsPositive(text, c);
    var r := ResolveComplexRelative(text, c).value;
    hide ResolveArticleRelative;
    hide ResolveParagraphRelative;
    hide ResolveComplexRelative;
    hide Target;
    hide NamedParagraph;
    hide NamedItem;
    hide SteppedItem;
    hide ArticleStep;
    hide ParagraphStep;
    hide Landing;
    hide ParseInt;
    hide Print;
    hide ArticleOf;
    hide CurrentParagraph;
    hide Safe;
    if r.articleNumber == c.articleNumber {
      AdvanceToParagraph(c, r);
    } else {
      AdvanceToArticle(c, r);
    }
    hide Advance;
    assert MovesTo(c, Some(r), Follow(PlaceOf(c), text));
  }

  lemma AnswerLandsPositive(text: string, c: Context)
    ensures Landing(text) >= 1 && Max(1, CurrentParagraph(c) + ParagraphStep(text)) >= 1
  {
    hide Between;
  }

  lemma SameAnswer(text: string, c: Context)
    requires Safe(c) && ResolveSameReference(text, c).Some?
    ensures ParagraphStep(text) == 0 && !IsItemText(text)
    ensures var r, named := ResolveSameReference(text, c).value, NamedParagraph(text, c.paragraphNumber);
      && r.articleNumber == c.articleNumber && r.itemNumber == None && r.confidence > 0.7
      && (if named.Some? then r.paragraphNumber == named && named.value >= 1
          else r.paragraphNumber.None? || r.paragraphNumber == c.paragraphNumber)
      && (named.Some? ==> NamedItem(text) == None)
  {
    SameTextsRemain(text, c);
    NotAParagraphText(text);
    if Between(text, "前項第", "号").Some? { ShapeOf(text, "前項第", "号"); }
    hide ParagraphStep;
    hide Between;
    hide ToDisplayFormat;
  }

  lemma SameMoves(text: string, c: Context)
    requires Safe(c) && ResolveSameReference(text, c).Some?
    ensures MovesTo(c, ResolveSameReference(text, c), Follow(PlaceOf(c), text))
  {
    SameTextsStay(text, c);
    SameAnswer(text, c);
    StaysOnItem(text, c.itemNumber);
    assert Target(c.articleNumber, text) == c.articleNumber;
    var r, named := ResolveSameReference(text, c).value, NamedParagraph(text, c.paragraphNumber);
    hide ResolveSameReference;
    hide Target;
    hide NamedParagraph;
    hide NamedItem;
    hide SteppedItem;
    hide ArticleStep;
    hide ParagraphStep;
    hide Landing;
    hide ParseInt;
    hide Print;
    hide ArticleOf;
    hide CurrentParagraph;
    hide Safe;
    if named.Some? && named != c.paragraphNumber {
      AdvanceToParagraph(c, r);
    } else {
      AdvanceStays(c, r);
    }
    hide Advance;
    assert MovesTo(c, Some(r), Follow(PlaceOf(c), text));
  }

  lemma UnansweredMoves(text: string, c: Context)
    requires Safe(c)
    requires ResolveArticleRelative(text, c).None? && ResolveParagraphRelative(text, c).None?
    requires ResolveItemRelative(text, c).None? && ResolveComplexRelative(text, c).None?
    requires ResolveSameReference(text, c).None?
    ensures Follow(PlaceOf(c), text) == PlaceOf(c)
  {
    UnansweredTarget(text, c);
    OtherwiseOnlyComplex(text, c);
    UnansweredItem(text, c);
    if Between(text, "前項第", "号").Some? {
      ShapeOf(text, "前項第", "号");
      if Between(text, "前条第", "項").Some? { ShapeOf(text, "前条第", "項"); }
      if Between(text, "次条第", "項").Some? { ShapeOf(text, "次条第", "項"); }
    }
    hide Target;
    hide ParagraphStep;
    hide SteppedItem;
    hide Between;
    hide ResolveArticleRelative;
    hide ResolveParagraphRelative;
    hide ResolveItemRelative;
    hide ToDisplayFormat;
    hide Print;
    hide ParseInt;
    hide ToDecimal;
    assert NamedParagraph(text, c.paragraphNumber) == None;
  }

  lemma UnansweredItem(text: string, c: Context)
    requires ResolveItemRelative(text, c).None?
    ensures SteppedItem(text, c.itemNumber) == c.itemNumber
  {
    hide ToDisplayFormat;
    hide ToDecimal;
    hide ParseItemNumber;
    hide ParseDecimal;
  }

  lemma ResolveFollows(referenceText: string, c: Context)
    requires Safe(c)
    ensures MovesTo(c, Resolve(referenceText, c), Follow(PlaceOf(c), Trim(referenceText)))
  {
    hide ResolveArticleRelative;
    hide ResolveParagraphRelative;
    hide ResolveItemRelative;
    hide ResolveComplexRelative;
    hide ResolveSameReference;
    hide Follow;
    hide Trim;
    var text := Trim(referenceText);
    if ResolveArticleRelative(text, c).Some? {
      ArticleMoves(text, c);
    } else if ResolveParagraphRelative(text, c).Some? {
      ParagraphMoves(text, c);
    } else if ResolveItemRelative(text, c).Some? {
      ItemMoves(text, c);
    } else if ResolveComplexRelative(text, c).Some? {
      ComplexMoves(text, c);
    } else if ResolveSameReference(text, c).Some? {
      SameMoves(text, c);
    } else {
      UnansweredMoves(text, c);
    }
    assert MovesTo(c, Resolve(referenceText, c), Follow(PlaceOf(c), text));
  }

  // ---------------------------------------------------------------- whole runs

  /** After any mix of references the context is the one it started as, at the place the texts lead to. */
  lemma {:induction false} RunFollows(c: Context, texts: seq<string>)
    requires Safe(c)
    ensures Safe(ContextAfter(c, texts))
    ensures var s := PlaceAfter(PlaceOf(c), texts);
      ContextAfter(c, texts) == c.(articleNumber := s.article, paragraphNumber := s.paragraph, itemNumber := s.item)
  {
    if texts != [] {
      var n, front := |texts| - 1, texts[..|texts| - 1];
      RunFollows(c, front);
      ResolveFollows(texts[n], ContextAfter(c, front));
      SafeKept(texts[n], ContextAfter(c, front));
      hide Resolve;
      hide Advance;
      hide Follow;
      hide Safe;
    }
  }
}
