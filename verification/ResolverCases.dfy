/** Which texts are answered, and what an answer says: its article, its paragraph, and how it was found. */
module ResolverCases {
  import opened Wrappers
  import opened Decimals
  import opened ArticleNormalizer
  import opened RelativeReferences
  import opened ResolverRuns
  import opened ParagraphRuns
  import opened ItemRuns
  import opened ResolverTexts

  /** The seven shapes with a number in them, in the order in which they are looked for. */
  datatype Shape = Shape(prefix: string, suffix: string)

  const SHAPES: seq<Shape> := [
    Shape("前", "条"), Shape("次", "条"), Shape("前", "項"), Shape("次", "項"),
    Shape("前条第", "項"), Shape("次条第", "項"), Shape("前項第", "号")]

  predicate Has(text: string, i: nat)
    requires i < |SHAPES|
  {
    Between(text, SHAPES[i].prefix, SHAPES[i].suffix).Some?
  }

  /** The texts without a number. */
  predicate IsPlain(text: string) {
    text in {"前条", "次条", "前項", "次項", "前各項", "前号", "次号", "前各号", "同条", "本条", "同項", "本項", "各項", "各号"}
  }

  /** What a shape says of the characters of a text. */
  lemma HasEnds(text: string, i: nat)
    requires i < |SHAPES| && Has(text, i)
    ensures var s := SHAPES[i];
      && |text| > |s.prefix| + 1 && text[..|s.prefix|] == s.prefix
      && IsTenKanji(text[|s.prefix|]) && text[|text| - 1] == s.suffix[0]
  {
    ShapeOf(text, SHAPES[i].prefix, SHAPES[i].suffix);
  }

  lemma ShapesDiffer(i: nat, j: nat)
    requires i < |SHAPES| && j < |SHAPES|
    requires SHAPES[i].prefix == SHAPES[j].prefix && SHAPES[i].suffix[0] == SHAPES[j].suffix[0]
    ensures i == j
  {
    assert SHAPES[i].prefix[0] == SHAPES[j].prefix[0];
    assert |SHAPES[i].prefix| == 3 ==> SHAPES[i].prefix[1] == SHAPES[j].prefix[1];
  }

  /** A prefix is one character, or three of which the second is no kanji digit. */
  lemma PrefixIs(i: nat)
    requires i < |SHAPES|
    ensures |SHAPES[i].suffix| == 1
    ensures |SHAPES[i].prefix| == 1 || (|SHAPES[i].prefix| == 3 && !IsTenKanji(SHAPES[i].prefix[1]))
  {
  }

  /** No text has two shapes. */
  lemma OneShape(text: string, i: nat, j: nat)
    requires i < |SHAPES| && j < |SHAPES| && Has(text, i) && Has(text, j)
    ensures i == j
  {
    HasEnds(text, i);
    HasEnds(text, j);
    var p, q := SHAPES[i].prefix, SHAPES[j].prefix;
    PrefixIs(i);
    PrefixIs(j);
    hide *;
    assert |p| == 3 ==> text[..3][1] == text[1];
    assert |q| == 3 ==> text[..3][1] == text[1];
    assert p == q;
    ShapesDiffer(i, j);
  }

  lemma PlainHasNone(text: string, i: nat)
    requires IsPlain(text) && i < |SHAPES|
    ensures !Has(text, i)
  {
    if Has(text, i) {
      HasEnds(text, i);
      PrefixIs(i);
      PlainIs(text);
      hide *;
      assert false;
    }
  }

  lemma PlainIs(text: string)
    requires IsPlain(text)
    ensures |text| == 2 || (|text| == 3 && !IsTenKanji(text[1]))
  {
  }

  /** The shape of a text, spelled out. */
  lemma HasIff(text: string, i: nat)
    requires i < |SHAPES|
    ensures Has(text, i) <==> exists w :: IsTenNumber(w) && text == SHAPES[i].prefix + w + SHAPES[i].suffix
  {
    if Has(text, i) {
      var w := BetweenOnly(text, SHAPES[i].prefix, SHAPES[i].suffix);
    }
    if w :| IsTenNumber(w) && text == SHAPES[i].prefix + w + SHAPES[i].suffix {
      BetweenSpelled(SHAPES[i].prefix, w, SHAPES[i].suffix);
    }
    hide Between;
  }

  /** Whether the text has one of the shapes, under the names the resolvers use. */
  lemma ShapesOf(text: string)
    ensures Has(text, 0) <==> Between(text, "前", "条").Some?
    ensures Has(text, 1) <==> Between(text, "次", "条").Some?
    ensures Has(text, 2) <==> Between(text, "前", "項").Some?
    ensures Has(text, 3) <==> Between(text, "次", "項").Some?
    ensures Has(text, 4) <==> Between(text, "前条第", "項").Some?
    ensures Has(text, 5) <==> Between(text, "次条第", "項").Some?
    ensures Has(text, 6) <==> Between(text, "前項第", "号").Some?
    ensures forall i: nat, j: nat :: i < |SHAPES| && j < |SHAPES| && Has(text, i) && Has(text, j) ==> i == j
    ensures IsPlain(text) ==> forall i: nat :: i < |SHAPES| ==> !Has(text, i)
  {
    forall i: nat, j: nat | i < |SHAPES| && j < |SHAPES| && Has(text, i) && Has(text, j) ensures i == j {
      OneShape(text, i, j);
    }
    if IsPlain(text) {
      forall i: nat | i < |SHAPES| ensures !Has(text, i) { PlainHasNone(text, i); }
    }
    hide Between;
  }

  // ---------------------------------------------------------------- which texts are answered

  /** A text asks for another article, for another paragraph, for an item, or for where it stands. */
  lemma AskedFor(text: string)
    ensures ArticleStep(text) != 0 <==> text in {"前条", "次条"} || Has(text, 0) || Has(text, 1) || Has(text, 4) || Has(text, 5)
    ensures ParagraphStep(text) != 0 <==> text in {"前項", "次項", "前各項"} || Has(text, 2) || Has(text, 3) || Has(text, 6)
  {
    ShapesOf(text);
    hide Between;
    hide Has;
  }

  /** Which of the five resolvers answer a text. */
  lemma AnsweredByShape(text: string, c: Context)
    ensures ResolveArticleRelative(text, c).Some? <==> text in {"前条", "次条"} || Has(text, 0) || Has(text, 1)
    ensures ResolveParagraphRelative(text, c).Some? <==> text in {"前項", "次項", "前各項"} || Has(text, 2) || Has(text, 3)
    ensures ResolveItemRelative(text, c).Some? <==> text in {"前号", "次号", "前各号"} && TruthyString(c.itemNumber)
    ensures ResolveComplexRelative(text, c).Some? <==>
      (Has(text, 4) && !AtMostOne(ParseInt(c.articleNumber))) || Has(text, 5) || (Has(text, 6) && CurrentParagraph(c) > 1)
    ensures ResolveSameReference(text, c).Some? <==> text in {"同条", "本条", "同項", "本項", "各項", "各号"}
  {
    ShapesOf(text);
    hide Between;
    hide Has;
    hide ToDisplayFormat;
    hide Print;
    hide ParseInt;
    hide IntToString;
    hide ToDecimal;
    hide ParseItemNumber;
    hide ParseDecimal;
  }

  ghost predicate Spelled(text: string, prefix: string, suffix: string) {
    exists w :: IsTenNumber(w) && text == prefix + w + suffix
  }

  /**
    A text is answered exactly when it is one of these. An article before the first, a paragraph before the first, and
    an item outside of any item have no answer.
  */
  lemma AnsweredIff(referenceText: string, c: Context)
    ensures var text, n := Trim(referenceText), ParseInt(c.articleNumber);
      Resolve(referenceText, c).Some? <==>
        || text in {"前条", "次条", "前項", "次項", "前各項", "同条", "本条", "同項", "本項", "各項", "各号"}
        || Spelled(text, "前", "条") || Spelled(text, "次", "条") || Spelled(text, "前", "項") || Spelled(text, "次", "項")
        || (Spelled(text, "前条第", "項") && !(n.Some? && n.value <= 1))
        || Spelled(text, "次条第", "項")
        || (Spelled(text, "前項第", "号") && c.paragraphNumber.Some? && c.paragraphNumber.value > 1)
        || (text in {"前号", "次号", "前各号"} && c.itemNumber.Some? && c.itemNumber.value != "")
  {
    var text := Trim(referenceText);
    AnsweredByShape(text, c);
    forall i: nat | i < |SHAPES| ensures Has(text, i) <==> Spelled(text, SHAPES[i].prefix, SHAPES[i].suffix) { HasIff(text, i); }
    assert Has(text, 0) <==> Spelled(text, SHAPES[0].prefix, SHAPES[0].suffix);
    assert Has(text, 1) <==> Spelled(text, SHAPES[1].prefix, SHAPES[1].suffix);
    assert Has(text, 2) <==> Spelled(text, SHAPES[2].prefix, SHAPES[2].suffix);
    assert Has(text, 3) <==> Spelled(text, SHAPES[3].prefix, SHAPES[3].suffix);
    assert Has(text, 4) <==> Spelled(text, SHAPES[4].prefix, SHAPES[4].suffix);
    assert Has(text, 5) <==> Spelled(text, SHAPES[5].prefix, SHAPES[5].suffix);
    assert Has(text, 6) <==> Spelled(text, SHAPES[6].prefix, SHAPES[6].suffix);
    hide Has;
    hide Spelled;
    hide ResolveArticleRelative;
    hide ResolveParagraphRelative;
    hide ResolveItemRelative;
    hide ResolveComplexRelative;
    hide ResolveSameReference;
    hide Trim;
    hide ParseInt;
  }

  // ---------------------------------------------------------------- what an answer says

  /** The article number, the paragraph, the manner and the remark of an answer, from the steps of its text. */
  ghost predicate Says(c: Context, r: Option<Resolved>, text: string) {
    r.Some? ==>
      && r.value.articleNumber == SaidArticle(c.articleNumber, text)
      && r.value.paragraphNumber == SaidParagraph(c.paragraphNumber, text)
      && r.value.resolutionMethod == SaidHow(c, text)
      && r.value.error == SaidError(c, text)
  }

  /** Steps backwards stop at article 1; where no number is read, none comes out. */
  function SaidArticle(article: string, text: string): string {
    var n, step := ParseInt(article), ArticleStep(text);
    if step == 0 || (text == "前条" && n.Some? && n.value <= 1) then article
    else if n.None? then "NaN"
    else IntToString(if step < 0 then Max(1, n.value + step) else n.value + step)
  }

  /** 同項 and 本項 name the paragraph, items stay in it, and 前各項 alone can name paragraph 0. */
  function SaidParagraph(paragraph: Option<int>, text: string): Option<int> {
    var p := if paragraph.Some? && paragraph.value != 0 then paragraph.value else 1;
    if text == "同項" || text == "本項" then Some(p)
    else if text in {"前号", "次号", "前各号", "各号"} then paragraph
    else if NamesParagraph(text) then Some(Landing(text))
    else if text == "前各項" then Some(p - 1)
    else if text == "前項" && p <= 1 then Some(1)
    else if ParagraphStep(text) < 0 then Some(Max(1, p + ParagraphStep(text)))
    else if ParagraphStep(text) > 0 then Some(p + ParagraphStep(text))
    else None
  }

  function SaidHow(c: Context, text: string): Resolution {
    var n, p := ParseInt(c.articleNumber), if c.paragraphNumber.Some? && c.paragraphNumber.value != 0 then c.paragraphNumber.value else 1;
    if text in {"前各項", "前各号", "各項", "各号"} then Inferred
    else if text == "前条" && n.Some? && n.value <= 1 then Fallback
    else if text == "前項" && p <= 1 then Fallback
    else if text == "前号" && TruthyString(c.itemNumber) && ItemOf(c) <= 1 then Fallback
    else Exact
  }

  /** The remark that goes with an answer that is not exact. */
  function SaidError(c: Context, text: string): Option<string> {
    var p := if c.paragraphNumber.Some? && c.paragraphNumber.value != 0 then c.paragraphNumber.value else 1;
    if SaidHow(c, text).Exact? then None
    else if text == "前条" then Some("前条が存在しません（第1条）")
    else if text == "前項" then Some("前項が存在しません（第1項）")
    else if text == "前号" then Some("前号が存在しません")
    else if text == "前各項" then Some("第1項から第" + IntToString(p - 1) + "項までを指します")
    else if text == "前各号" then Some("第1号から前号までを指します")
    else if text == "各項" then Some("当該条のすべての項を指します")
    else Some("当該項のすべての号を指します")
  }

  lemma ArticlesSay(text: string, c: Context)
    ensures Says(c, ResolveArticleRelative(text, c), text)
  {
    ShapesOf(text);
    AskedFor(text);
    hide Between;
    hide Has;
    hide ToDisplayFormat;
    hide ParseInt;
    hide IntToString;
    hide ItemOf;
    if ResolveArticleRelative(text, c).Some? {
      assert ParagraphStep(text) == 0 && !NamesParagraph(text);
    }
  }

  lemma ParagraphsSay(text: string, c: Context)
    ensures Says(c, ResolveParagraphRelative(text, c), text)
  {
    ShapesOf(text);
    AskedFor(text);
    hide Between;
    hide Has;
    hide ToDisplayFormat;
    hide ParseInt;
    hide IntToString;
    hide ItemOf;
    if ResolveParagraphRelative(text, c).Some? {
      assert ArticleStep(text) == 0 && !NamesParagraph(text);
    }
  }

  lemma ItemsSay(text: string, c: Context)
    ensures Says(c, ResolveItemRelative(text, c), text)
  {
    ShapesOf(text);
    AskedFor(text);
    hide Between;
    hide Has;
    hide ToDisplayFormat;
    hide ParseInt;
    hide IntToString;
    hide ToDecimal;
    hide ParseItemNumber;
    hide ParseDecimal;
  }

  lemma ComplexSay(text: string, c: Context)
    ensures Says(c, ResolveComplexRelative(text, c), text)
  {
    ShapesOf(text);
    AskedFor(text);
    hide Between;
    hide Has;
    hide ToDisplayFormat;
    hide ParseInt;
    hide IntToString;
    hide ToDecimal;
    hide ItemOf;
    if ResolveComplexRelative(text, c).Some? {
      assert NamesParagraph(text) <==> Has(text, 4) || Has(text, 5);
      assert !IsPlain(text);
    }
  }

  lemma SameSay(text: string, c: Context)
    ensures Says(c, ResolveSameReference(text, c), text)
  {
    ShapesOf(text);
    AskedFor(text);
    hide Between;
    hide Has;
    hide ToDisplayFormat;
    hide ParseInt;
    hide IntToString;
    hide ItemOf;
    if ResolveSameReference(text, c).Some? {
      assert !NamesParagraph(text);
    }
  }

  /** Every answer says what its text asks for, from any context, also one whose article number is no number. */
  lemma AnswerSays(referenceText: string, c: Context)
    ensures Says(c, Resolve(referenceText, c), Trim(referenceText))
  {
    var text := Trim(referenceText);
    ArticlesSay(text, c);
    ParagraphsSay(text, c);
    ItemsSay(text, c);
    ComplexSay(text, c);
    SameSay(text, c);
    hide Says;
    hide ResolveArticleRelative;
    hide ResolveParagraphRelative;
    hide ResolveItemRelative;
    hide ResolveComplexRelative;
    hide ResolveSameReference;
    hide Trim;
    assert Says(c, Resolve(referenceText, c), text);
  }
}
