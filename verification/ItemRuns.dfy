/** Runs of references to items: the item of the context walks as its article and its paragraph do. */
module ItemRuns {
  import opened Wrappers
  import opened Decimals
  import opened ArticleNormalizer
  import opened RelativeReferences
  import opened ResolverRuns

  predicate IsItemText(text: string) {
    text == "前号" || text == "次号" || text == "前各号"
  }

  function ItemStep(text: string): int {
    if text == "前号" then -1 else if text == "次号" then 1 else 0
  }

  /** The number read from the item of a context. */
  function ItemOf(c: Context): nat
    requires TruthyString(c.itemNumber)
  {
    ParseDecimal(ParseItemNumber(c.itemNumber.value))
  }

  /** What the item number of an answer reads as. */
  lemma ItemReads(n: nat)
    ensures ParseItemNumber(ToDecimal(n)) == ToDecimal(n) && ParseDecimal(ToDecimal(n)) == n
  {
    PrintThenParse(n);
    assert ToDecimal(n) + "" == ToDecimal(n);
    DigitRunOf(ToDecimal(n), "");
  }

  lemma ItemOnly(text: string, c: Context)
    requires IsItemText(text)
    ensures ResolveArticleRelative(text, c).None? && ResolveParagraphRelative(text, c).None?
  {
    if Between(text, "前", "条").Some? { ShapeOf(text, "前", "条"); }
    if Between(text, "次", "条").Some? { ShapeOf(text, "次", "条"); }
    if Between(text, "前", "項").Some? { ShapeOf(text, "前", "項"); }
    if Between(text, "次", "項").Some? { ShapeOf(text, "次", "項"); }
    hide Between;
    hide ParseInt;
  }

  lemma ItemAnswer(text: string, c: Context)
    requires IsItemText(text) && TruthyString(c.itemNumber) && ItemOf(c) >= 1
    ensures ResolveItemRelative(text, c).Some?
    ensures var r := ResolveItemRelative(text, c).value;
      && r.articleNumber == c.articleNumber && r.paragraphNumber == c.paragraphNumber
      && (r.confidence > 0.7 ==> TruthyString(r.itemNumber))
      && (r.confidence > 0.7 ==>
            ParseDecimal(ParseItemNumber(r.itemNumber.value)) == Max(1, ItemOf(c) + ItemStep(text)))
      && (r.confidence <= 0.7 ==> Max(1, ItemOf(c) + ItemStep(text)) == ItemOf(c))
  {
    var item := ParseItemNumber(c.itemNumber.value);
    ItemReads(ItemOf(c) - 1);
    ItemReads(ItemOf(c) + 1);
    assert item + "" == item;
    DigitRunOf(item, "");
    assert ParseItemNumber(item) == DigitRun(item) == item;
    hide ParseItemNumber;
    hide ToDecimal;
    hide ParseDecimal;
    hide ToDisplayFormat;
  }

  /** One reference to an item moves the item by one, never below 1, and nothing else. */
  lemma ItemMove(referenceText: string, c: Context)
    requires IsItemText(Trim(referenceText))
    requires TruthyString(c.itemNumber) && ItemOf(c) >= 1
    ensures var c' := Advance(c, Resolve(referenceText, c));
      && TruthyString(c'.itemNumber) && ItemOf(c') == Max(1, ItemOf(c) + ItemStep(Trim(referenceText)))
      && c' == c.(itemNumber := c'.itemNumber)
  {
    var text := Trim(referenceText);
    ItemOnly(text, c);
    ItemAnswer(text, c);
    hide ResolveItemRelative;
    hide ResolveArticleRelative;
    hide ResolveParagraphRelative;
    hide ParseItemNumber;
    hide ParseDecimal;
    hide ItemStep;
    assert Resolve(referenceText, c) == ResolveItemRelative(text, c);
  }

  function ItemSteps(texts: seq<string>): (r: seq<int>)
    ensures |r| == |texts|
    ensures forall i :: 0 <= i < |r| ==> r[i] == ItemStep(Trim(texts[i]))
  {
    seq(|texts|, i requires 0 <= i < |texts| => ItemStep(Trim(texts[i])))
  }

  lemma {:induction false} ItemRunIsWalk(c: Context, texts: seq<string>)
    requires TruthyString(c.itemNumber) && ItemOf(c) >= 1
    requires forall i :: 0 <= i < |texts| ==> IsItemText(Trim(texts[i]))
    ensures var c' := ContextAfter(c, texts);
      && TruthyString(c'.itemNumber) && ItemOf(c') == Walk(ItemOf(c), ItemSteps(texts)) >= 1
      && c' == c.(itemNumber := c'.itemNumber)
  {
    if texts != [] {
      var n, front := |texts| - 1, texts[..|texts| - 1];
      ItemRunIsWalk(c, front);
      assert ItemSteps(texts)[..n] == ItemSteps(front);
      ItemMove(texts[n], ContextAfter(c, front));
      hide IsItemText;
      hide Resolve;
      hide Advance;
      hide ItemOf;
      hide ItemStep;
      assert ItemOf(ContextAfter(c, texts)) == Walk(ItemOf(c), ItemSteps(texts));
    }
  }

  /** The item has the closed form the article and the paragraph have, and they stay where they are. */
  lemma ItemClosedForm(c: Context, texts: seq<string>)
    requires TruthyString(c.itemNumber) && ItemOf(c) >= 1
    requires forall i :: 0 <= i < |texts| ==> IsItemText(Trim(texts[i]))
    ensures var c' := ContextAfter(c, texts);
      && c' == c.(itemNumber := c'.itemNumber) && TruthyString(c'.itemNumber)
      && Reached(ItemOf(c), ItemSteps(texts), ItemOf(c')) && AtLeastAll(ItemOf(c), ItemSteps(texts), ItemOf(c'))
  {
    ItemRunIsWalk(c, texts);
    WalkClosedForm(ItemOf(c), ItemSteps(texts));
  }
}
