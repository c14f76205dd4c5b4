/** What an answer says besides its article and paragraph: the item it names, and how sure it is. */
module ResolverAnswers {
  import opened Wrappers
  import opened Decimals
  import opened ArticleNormalizer
  import opened RelativeReferences
  import opened ResolverRuns
  import opened ParagraphRuns
  import opened ItemRuns
  import opened ContextRuns

  /** The item of an answer. Before the first item an answer repeats the number of the current one. */
  lemma AnswerItem(referenceText: string, c: Context)
    requires Resolve(referenceText, c).Some?
    ensures var text, r := Trim(referenceText), Resolve(referenceText, c).value;
      r.itemNumber ==
        if IsItemText(text) && TruthyString(c.itemNumber) then
          if text == "前号" && ItemOf(c) <= 1 then Some(ParseItemNumber(c.itemNumber.value)) else SteppedItem(text, c.itemNumber)
        else NamedItem(text)
  {
    var text := Trim(referenceText);
    if ResolveArticleRelative(text, c).Some? {
      ArticleItem(text, c);
    } else if ResolveParagraphRelative(text, c).Some? {
      ParagraphTextShape(text, c);
      ParagraphItemNone(text, c);
    } else if ResolveItemRelative(text, c).Some? {
      ItemItem(text, c);
    } else if ResolveComplexRelative(text, c).Some? {
      ComplexItem(text, c);
      if NamesParagraph(text) { NamesNoItem(text); }
    } else {
      SameItem(text, c);
    }
    hide ResolveArticleRelative;
    hide ResolveParagraphRelative;
    hide ResolveItemRelative;
    hide ResolveComplexRelative;
    hide ResolveSameReference;
    hide SteppedItem;
    hide NamedItem;
    hide Trim;
    hide ItemOf;
    hide ParseItemNumber;
  }

  lemma NamesNoItem(text: string)
    requires NamesParagraph(text)
    ensures NamedItem(text) == None
  {
    if Between(text, "前条第", "項").Some? { ShapeOf(text, "前条第", "項"); }
    if Between(text, "次条第", "項").Some? { ShapeOf(text, "次条第", "項"); }
    if Between(text, "前項第", "号").Some? { ShapeOf(text, "前項第", "号"); }
    hide Between;
  }

  lemma ArticleItem(text: string, c: Context)
    requires ResolveArticleRelative(text, c).Some?
    ensures ResolveArticleRelative(text, c).value.itemNumber == None && !IsItemText(text) && NamedItem(text) == None
  {
    ArticleTextEnd(text, c);
    if Between(text, "前項第", "号").Some? { ShapeOf(text, "前項第", "号"); }
    hide Between;
    hide ParseInt;
    hide Print;
    hide ToDisplayFormat;
  }

  lemma ParagraphItemNone(text: string, c: Context)
    requires ResolveParagraphRelative(text, c).Some?
    ensures ResolveParagraphRelative(text, c).value.itemNumber == None
  {
    hide Between;
    hide ToDisplayFormat;
    hide IntToString;
  }

  lemma ItemItem(text: string, c: Context)
    requires ResolveItemRelative(text, c).Some?
    ensures IsItemText(text) && TruthyString(c.itemNumber)
    ensures ResolveItemRelative(text, c).value.itemNumber ==
      if text == "前号" && ItemOf(c) <= 1 then Some(ParseItemNumber(c.itemNumber.value)) else SteppedItem(text, c.itemNumber)
  {
    hide ToDisplayFormat;
    hide ToDecimal;
    hide ParseItemNumber;
    hide ParseDecimal;
  }

  lemma SameItem(text: string, c: Context)
    requires ResolveSameReference(text, c).Some?
    ensures ResolveSameReference(text, c).value.itemNumber == None && !IsItemText(text) && NamedItem(text) == None
  {
    if Between(text, "前項第", "号").Some? { ShapeOf(text, "前項第", "号"); }
    hide Between;
    hide ToDisplayFormat;
  }

  /** References to items, spelled out. */
  lemma ItemTextsSpelled(n: nat)
    requires n >= 1
    ensures SteppedItem("次号", Some(ToDecimal(n))) == Some(ToDecimal(n + 1))
    ensures SteppedItem("前号", Some(ToDecimal(n + 1))) == Some(ToDecimal(n))
    ensures SteppedItem("前号", Some("1")) == Some("1")
    ensures ItemStep("次号") == 1 && ItemStep("前号") == -1
  {
    ItemReads(n);
    ItemReads(n + 1);
    ItemReads(1);
    DigitsSpelled(1);
    hide ParseItemNumber;
    hide ParseDecimal;
  }

  /** A context without a paragraph, or at paragraph 0, is answered as one at paragraph 1. */
  lemma MissingParagraphIsFirst(text: string, c: Context, missing: Option<int>)
    requires missing == None || missing == Some(0)
    ensures ResolveParagraphRelative(text, c.(paragraphNumber := missing)) == ResolveParagraphRelative(text, c.(paragraphNumber := Some(1)))
    ensures ResolveComplexRelative(text, c.(paragraphNumber := missing)) == ResolveComplexRelative(text, c.(paragraphNumber := Some(1)))
  {
    hide Between;
    hide ToDisplayFormat;
    hide IntToString;
    hide ParseInt;
    hide Print;
  }

  /** One of the texts with a number in them. */
  predicate HasNumber(text: string) {
    || Between(text, "前", "条").Some? || Between(text, "次", "条").Some?
    || Between(text, "前", "項").Some? || Between(text, "次", "項").Some?
    || Between(text, "前条第", "項").Some? || Between(text, "次条第", "項").Some? || Between(text, "前項第", "号").Some?
  }

  /** How sure an answer is follows from how it was found, and whether it came by a number; only exact ones say no more. */
  ghost predicate SureAsFound(r: Option<Resolved>, text: string) {
    r.Some? ==>
      && (r.value.error.None? <==> r.value.resolutionMethod.Exact?)
      && (match r.value.resolutionMethod
          case Exact => r.value.confidence == (if HasNumber(text) then 0.90 else 0.95)
          case Inferred => r.value.confidence == 0.85
          case Fallback => r.value.confidence == if text == "前項" then 0.4 else 0.3)
  }

  lemma NoNumber(text: string)
    requires |text| == 2 || text == "前各項" || text == "前各号"
    ensures !HasNumber(text)
  {
    if Between(text, "前", "条").Some? { ShapeOf(text, "前", "条"); }
    if Between(text, "次", "条").Some? { ShapeOf(text, "次", "条"); }
    if Between(text, "前", "項").Some? { ShapeOf(text, "前", "項"); }
    if Between(text, "次", "項").Some? { ShapeOf(text, "次", "項"); }
    if Between(text, "前条第", "項").Some? { ShapeOf(text, "前条第", "項"); }
    if Between(text, "次条第", "項").Some? { ShapeOf(text, "次条第", "項"); }
    if Between(text, "前項第", "号").Some? { ShapeOf(text, "前項第", "号"); }
    hide Between;
  }

  lemma ArticlesSure(text: string, c: Context)
    ensures SureAsFound(ResolveArticleRelative(text, c), text) && SureAsFound(ResolveComplexRelative(text, c), text)
  {
    if text == "前条" || text == "次条" { NoNumber(text); }
    hide Between;
    hide ToDisplayFormat;
    hide Print;
    hide ParseInt;
    hide ToDecimal;
    assert SureAsFound(ResolveArticleRelative(text, c), text);
    assert SureAsFound(ResolveComplexRelative(text, c), text);
  }

  lemma ParagraphsSure(text: string, c: Context)
    ensures SureAsFound(ResolveParagraphRelative(text, c), text)
  {
    if text in {"前項", "次項", "前各項"} { NoNumber(text); }
    hide Between;
    hide ToDisplayFormat;
    hide IntToString;
  }

  lemma OthersSure(text: string, c: Context)
    ensures SureAsFound(ResolveItemRelative(text, c), text) && SureAsFound(ResolveSameReference(text, c), text)
  {
    if |text| == 2 || text == "前各号" { NoNumber(text); }
    hide HasNumber;
    hide ToDisplayFormat;
    hide ToDecimal;
    hide ParseItemNumber;
    hide ParseDecimal;
    assert SureAsFound(ResolveItemRelative(text, c), text);
    assert SureAsFound(ResolveSameReference(text, c), text);
  }

  lemma AnswersAreSure(referenceText: string, c: Context)
    ensures SureAsFound(Resolve(referenceText, c), Trim(referenceText))
  {
    hide SureAsFound;
    hide ResolveArticleRelative;
    hide ResolveParagraphRelative;
    hide ResolveItemRelative;
    hide ResolveComplexRelative;
    hide ResolveSameReference;
    hide Trim;
    var text := Trim(referenceText);
    ArticlesSure(text, c);
    ParagraphsSure(text, c);
    OthersSure(text, c);
    assert SureAsFound(Resolve(referenceText, c), text);
  }
}
