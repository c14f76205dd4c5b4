/** Resolution of relative references such as 前条 and 次項 (src/services/relative-reference-resolver.ts). */
module RelativeReferences {
  import opened Wrappers
  import opened Decimals
  import opened ArticleNormalizer

  datatype Resolution = Exact | Inferred | Fallback

  datatype Context = Context(
    lawId: string, lawName: Option<string>, articleNumber: string,
    paragraphNumber: Option<int>, itemNumber: Option<string>, totalParagraphs: Option<int>)

  datatype Resolved = Resolved(
    lawId: string, articleNumber: string, articleDisplay: string,
    paragraphNumber: Option<int>, itemNumber: Option<string>,
    confidence: real, resolutionMethod: Resolution, error: Option<string>)

  /** The value JavaScript's `||` and `&&` see: neither missing nor zero. */
  predicate TruthyNumber(n: Option<int>) {
    n.Some? && n.value != 0
  }

  predicate TruthyString(s: Option<string>) {
    s.Some? && s.value != ""
  }

  const KANJI_NUMBER_MAP: map<string, nat> := map[
    "一" := 1, "二" := 2, "三" := 3, "四" := 4, "五" := 5,
    "六" := 6, "七" := 7, "八" := 8, "九" := 9, "十" := 10,
    "十一" := 11, "十二" := 12, "十三" := 13, "十四" := 14, "十五" := 15,
    "十六" := 16, "十七" := 17, "十八" := 18, "十九" := 19, "二十" := 20,
    "二十一" := 21, "二十二" := 22, "二十三" := 23, "二十四" := 24, "二十五" := 25,
    "三十" := 30, "四十" := 40, "五十" := 50, "六十" := 60, "七十" := 70,
    "八十" := 80, "九十" := 90, "百" := 100]

  /** Numbers that are not in the table count as 1. */
  function KanjiToNumber(kanji: string): (n: nat)
    ensures n >= 1
  {
    if kanji in KANJI_NUMBER_MAP && KANJI_NUMBER_MAP[kanji] != 0 then KANJI_NUMBER_MAP[kanji] else 1
  }

  predicate IsTenKanji(c: char) {
    c in "一二三四五六七八九十"
  }

  /** The kanji number that stands between a prefix and a suffix, when the whole text has that shape. */
  function Between(text: string, prefix: string, suffix: string): (n: Option<nat>)
    ensures n.Some? ==> n.value >= 1
  {
    var middle := |text| - |prefix| - |suffix|;
    if middle >= 1 && text[..|prefix|] == prefix && text[|prefix| + middle..] == suffix
       && forall i :: |prefix| <= i < |prefix| + middle ==> IsTenKanji(text[i])
    then Some(KanjiToNumber(text[|prefix|..|prefix| + middle]))
    else None
  }

  function CurrentParagraph(c: Context): int {
    if TruthyNumber(c.paragraphNumber) then c.paragraphNumber.value else 1
  }

  // ---------------------------------------------------------------- article numbers as numbers

  /** `parseInt(s, 10)`: spaces, a sign, and the digits that follow, whatever comes after them. NaN is None. */
  function ParseInt(s: string): Option<int> {
    var t := SkipSpaces(s);
    var signed := t != "" && (t[0] == '-' || t[0] == '+');
    var d := DigitRun(if signed then t[1..] else t);
    var n: int := ParseDecimal(d);
    if d == "" then None else Some(if signed && t[0] == '-' then -n else n)
  }

  /** `toString` of a number or NaN. */
  function Print(n: Option<int>): string {
    if n.None? then "NaN" else IntToString(n.value)
  }

  function Shift(n: Option<int>, k: int): Option<int> {
    if n.None? then None else Some(n.value + k)
  }

  /** `Math.max(1, n)` */
  function AtLeastOne(n: Option<int>): Option<int> {
    if n.None? then None else Some(Max(1, n.value))
  }

  /** `n <= 1`, which NaN is not. */
  predicate AtMostOne(n: Option<int>) {
    n.Some? && n.value <= 1
  }

  function Max(a: int, b: int): int {
    if a < b then b else a
  }

  predicate Numbered(c: Context) {
    ParseInt(c.articleNumber).Some?
  }

  /** The article of a context, as a number. */
  function ArticleOf(c: Context): int
    requires Numbered(c)
  {
    ParseInt(c.articleNumber).value
  }

  // ---------------------------------------------------------------- the resolvers

  /** A reference to another article, or to the whole of this one. */
  function ToArticle(c: Context, article: string, confidence: real): Resolved {
    Resolved(c.lawId, article, ToDisplayFormat(article), None, None, confidence, Exact, None)
  }

  function ToParagraph(c: Context, article: string, paragraph: int): Resolved {
    Resolved(c.lawId, article, ToDisplayFormat(article), Some(paragraph), None, 0.90, Exact, None)
  }

  /** A reference into the current article. */
  function Here(c: Context, paragraph: Option<int>, item: Option<string>, confidence: real, how: Resolution, error: Option<string>): Resolved {
    Resolved(c.lawId, c.articleNumber, ToDisplayFormat(c.articleNumber), paragraph, item, confidence, how, error)
  }

  function ResolveArticleRelative(text: string, c: Context): Option<Resolved> {
    var current := ParseInt(c.articleNumber);
    if text == "前条" then
      if AtMostOne(current) then Some(Here(c, None, None, 0.3, Fallback, Some("前条が存在しません（第1条）")))
      else Some(ToArticle(c, Print(Shift(current, -1)), 0.95))
    else if text == "次条" then Some(ToArticle(c, Print(Shift(current, 1)), 0.95))
    else if Between(text, "前", "条").Some? then
      Some(ToArticle(c, Print(AtLeastOne(Shift(current, -(Between(text, "前", "条").value as int)))), 0.90))
    else if Between(text, "次", "条").Some? then
      Some(ToArticle(c, Print(Shift(current, Between(text, "次", "条").value)), 0.90))
    else None
  }

  function ResolveParagraphRelative(text: string, c: Context): Option<Resolved> {
    var current := CurrentParagraph(c);
    if text == "前項" then
      if current <= 1 then Some(Here(c, Some(1), None, 0.4, Fallback, Some("前項が存在しません（第1項）")))
      else Some(Here(c, Some(current - 1), None, 0.95, Exact, None))
    else if text == "次項" then Some(Here(c, Some(current + 1), None, 0.95, Exact, None))
    else if Between(text, "前", "項").Some? then
      Some(Here(c, Some(Max(1, current - Between(text, "前", "項").value)), None, 0.90, Exact, None))
    else if Between(text, "次", "項").Some? then
      Some(Here(c, Some(current + Between(text, "次", "項").value), None, 0.90, Exact, None))
    else if text == "前各項" then
      Some(Here(c, Some(current - 1), None, 0.85, Inferred,
                Some("第1項から第" + IntToString(current - 1) + "項までを指します")))
    else None
  }

  function TenKanjiRun(s: string): string {
    if s != "" && IsTenKanji(s[0]) then [s[0]] + TenKanjiRun(s[1..]) else ""
  }

  /** The first run of digits or kanji digits in an item number, in digits. */
  function ParseItemNumber(s: string): (n: string)
    ensures IsNumeral(n)
  {
    if s == "" then "1"
    else if IsDigit(s[0]) then DigitRun(s)
    else if IsTenKanji(s[0]) then ToDecimal(KanjiToNumber(TenKanjiRun(s)))
    else ParseItemNumber(s[1..])
  }

  function ResolveItemRelative(text: string, c: Context): Option<Resolved> {
    if !TruthyString(c.itemNumber) then None
    else
      var current := ParseItemNumber(c.itemNumber.value);
      var number := ParseDecimal(current);
      if text == "前号" then
        if number <= 1 then Some(Here(c, c.paragraphNumber, Some(current), 0.3, Fallback, Some("前号が存在しません")))
        else Some(Here(c, c.paragraphNumber, Some(ToDecimal(number - 1)), 0.95, Exact, None))
      else if text == "次号" then
        Some(Here(c, c.paragraphNumber, Some(ToDecimal(number + 1)), 0.95, Exact, None))
      else if text == "前各号" then
        Some(Here(c, c.paragraphNumber, Some(current), 0.85, Inferred, Some("第1号から前号までを指します")))
      else None
  }

  function ResolveComplexRelative(text: string, c: Context): Option<Resolved> {
    var current := ParseInt(c.articleNumber);
    if Between(text, "前条第", "項").Some? then
      if AtMostOne(current) then None
      else Some(ToParagraph(c, Print(Shift(current, -1)), Between(text, "前条第", "項").value))
    else if Between(text, "次条第", "項").Some? then
      Some(ToParagraph(c, Print(Shift(current, 1)), Between(text, "次条第", "項").value))
    else if Between(text, "前項第", "号").Some? then
      if CurrentParagraph(c) <= 1 then None
      else Some(Here(c, Some(CurrentParagraph(c) - 1), Some(ToDecimal(Between(text, "前項第", "号").value)), 0.90, Exact, None))
    else None
  }

  function ResolveSameReference(text: string, c: Context): Option<Resolved> {
    if text == "同条" || text == "本条" then Some(Here(c, None, None, 0.95, Exact, None))
    else if text == "同項" || text == "本項" then Some(Here(c, Some(CurrentParagraph(c)), None, 0.95, Exact, None))
    else if text == "各項" then Some(Here(c, None, None, 0.85, Inferred, Some("当該条のすべての項を指します")))
    else if text == "各号" then
      Some(Here(c, c.paragraphNumber, None, 0.85, Inferred, Some("当該項のすべての号を指します")))
    else None
  }

  function TrimEnd(s: string): string {
    if s != "" && IsSpace(s[|s| - 1]) then TrimEnd(s[..|s| - 1]) else s
  }

  function Trim(s: string): string {
    TrimEnd(SkipSpaces(s))
  }

  /** The first resolver that has an answer gives it. */
  function Resolve(referenceText: string, c: Context): Option<Resolved> {
    var text := Trim(referenceText);
    if ResolveArticleRelative(text, c).Some? then ResolveArticleRelative(text, c)
    else if ResolveParagraphRelative(text, c).Some? then ResolveParagraphRelative(text, c)
    else if ResolveItemRelative(text, c).Some? then ResolveItemRelative(text, c)
    else if ResolveComplexRelative(text, c).Some? then ResolveComplexRelative(text, c)
    else ResolveSameReference(text, c)
  }

  /** How an answer moves the context: only a confident one does, and only by values that are not missing or zero. */
  function Advance(c: Context, resolved: Option<Resolved>): Context {
    if resolved.None? || resolved.value.confidence <= 0.7 then c
    else
      var r := resolved.value;
      if r.articleNumber != "" && r.articleNumber != c.articleNumber then
        c.(articleNumber := r.articleNumber,
           paragraphNumber := Some(if TruthyNumber(r.paragraphNumber) then r.paragraphNumber.value else 1),
           itemNumber := r.itemNumber)
      else if TruthyNumber(r.paragraphNumber) && r.paragraphNumber != c.paragraphNumber then
        c.(paragraphNumber := r.paragraphNumber, itemNumber := r.itemNumber)
      else if TruthyString(r.itemNumber) then c.(itemNumber := r.itemNumber)
      else c
  }

  // ---------------------------------------------------------------- what a text asks for

  /** The signed number of articles a text moves by. */
  function ArticleStep(text: string): int {
    if text == "前条" then -1
    else if text == "次条" then 1
    else if Between(text, "前", "条").Some? then -(Between(text, "前", "条").value as int)
    else if Between(text, "次", "条").Some? then Between(text, "次", "条").value
    else if Between(text, "前条第", "項").Some? then -1
    else if Between(text, "次条第", "項").Some? then 1
    else 0
  }

  /** An answer stays in the law, and shows the article it names. */
  ghost predicate NamesArticle(c: Context, r: Option<Resolved>) {
    r.Some? ==> r.value.articleDisplay == ToDisplayFormat(r.value.articleNumber) && r.value.lawId == c.lawId
  }

  lemma ArticleResolversName(t: string, c: Context)
    ensures NamesArticle(c, ResolveArticleRelative(t, c)) && NamesArticle(c, ResolveComplexRelative(t, c))
  {
    hide Between;
    hide Print;
    hide ParseInt;
    hide ToDisplayFormat;
    assert NamesArticle(c, ResolveArticleRelative(t, c));
    assert NamesArticle(c, ResolveComplexRelative(t, c));
  }

  lemma LocalResolversName(t: string, c: Context)
    ensures NamesArticle(c, ResolveParagraphRelative(t, c)) && NamesArticle(c, ResolveItemRelative(t, c))
    ensures NamesArticle(c, ResolveSameReference(t, c))
  {
    hide Between;
    hide ToDecimal;
    hide ToDisplayFormat;
    hide ParseItemNumber;
    assert NamesArticle(c, ResolveParagraphRelative(t, c));
    assert NamesArticle(c, ResolveItemRelative(t, c));
    assert NamesArticle(c, ResolveSameReference(t, c));
  }

  lemma ResolvedNames(text: string, c: Context)
    ensures NamesArticle(c, Resolve(text, c))
  {
    ArticleResolversName(Trim(text), c);
    LocalResolversName(Trim(text), c);
    hide NamesArticle;
    hide Trim;
    hide ResolveArticleRelative;
    hide ResolveComplexRelative;
    hide ResolveParagraphRelative;
    hide ResolveItemRelative;
    hide ResolveSameReference;
    assert NamesArticle(c, Resolve(text, c));
  }

  /** The display form of an answer normalises back to its article number exactly when that is a numeral, or nothing. */
  lemma DisplayNamesArticle(text: string, c: Context)
    requires Resolve(text, c).Some?
    ensures var r := Resolve(text, c).value;
      ToNumericFormat(r.articleDisplay) == r.articleNumber <==> r.articleNumber == "" || IsNumeral(r.articleNumber)
  {
    ResolvedNames(text, c);
    ShownIffNumeral(Resolve(text, c).value.articleNumber);
  }
}
