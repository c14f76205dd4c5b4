/** Article numbers in their numeric and display forms (src/utils/article-normalizer.ts). */
module ArticleNormalizer {
  import opened Wrappers
  import opened Decimals
  import Numerals

  // ---------------------------------------------------------------- kanji to digits

  predicate IsKanjiNumeral(c: char) {
    Numerals.KanjiDigit(c).Some? || Numerals.KanjiUnit(c).Some?
  }

  /** The longest prefix of kanji numerals. */
  function KanjiRun(s: string): (r: string)
    ensures r <= s && (forall i :: 0 <= i < |r| ==> IsKanjiNumeral(r[i]))
    ensures s != "" && IsKanjiNumeral(s[0]) ==> r != ""
  {
    if s != "" && IsKanjiNumeral(s[0]) then [s[0]] + KanjiRun(s[1..]) else ""
  }

  /** Every maximal run of kanji numerals replaced by its decimal value. */
  function ConvertKanji(s: string): string
    decreases |s|
  {
    if s == "" then ""
    else if IsKanjiNumeral(s[0]) then ToDecimal(Numerals.RunValue(KanjiRun(s))) + ConvertKanji(s[|KanjiRun(s)|..])
    else [s[0]] + ConvertKanji(s[1..])
  }

  // ---------------------------------------------------------------- the patterns, in the order they are tried

  /** A match at the very start: 第, digits, 条. */
  function ArticleAtStart(s: string): Option<string> {
    if s != "" && s[0] == '第' then
      var d := DigitRun(s[1..]);
      if d != "" && 1 + |d| < |s| && s[1 + |d|] == '条' then Some(d) else None
    else None
  }

  /** The first match anywhere, with the text after it. */
  function FirstArticle(s: string): (r: Option<(string, string)>)
    ensures r.Some? ==> |r.value.1| < |s| && IsNumeral(r.value.0)
  {
    if s == "" then None
    else if ArticleAtStart(s).Some? then
      var d := ArticleAtStart(s).value;
      Some((d, s[2 + |d|..]))
    else FirstArticle(s[1..])
  }

  /** The whole text is digits followed by 条. */
  function DigitsJou(s: string): (r: Option<string>)
    ensures r.Some? ==> IsNumeral(r.value)
  {
    var d := DigitRun(s);
    if d != "" && s[|d|..] == "条" then Some(d) else None
  }

  predicate IsSpace(c: char) {
    c in "\t\n\r \U{b}\U{c}\U{a0}\U{1680}\U{2028}\U{2029}\U{202f}\U{205f}\U{3000}\U{feff}" || '\U{2000}' <= c <= '\U{200a}'
  }

  function SkipSpaces(s: string): string {
    if s != "" && IsSpace(s[0]) then SkipSpaces(s[1..]) else s
  }

  predicate SameLetter(c: char, lower: char)
    requires 'a' <= lower <= 'z'
  {
    c == lower || c as int + 32 == lower as int
  }

  predicate StartsWithArticle(s: string) {
    |s| >= 7 && SameLetter(s[0], 'a') && SameLetter(s[1], 'r') && SameLetter(s[2], 't') && SameLetter(s[3], 'i')
    && SameLetter(s[4], 'c') && SameLetter(s[5], 'l') && SameLetter(s[6], 'e')
  }

  /** The first "article", in either case, that digits follow after optional spaces. */
  function EnglishArticle(s: string): (r: Option<string>)
    ensures r.Some? ==> IsNumeral(r.value)
  {
    if s == "" then None
    else if StartsWithArticle(s) && DigitRun(SkipSpaces(s[7..])) != "" then Some(DigitRun(SkipSpaces(s[7..])))
    else EnglishArticle(s[1..])
  }

  function FirstDigits(s: string): (r: Option<string>)
    ensures r.Some? ==> IsNumeral(r.value)
    ensures r.None? <==> forall i :: 0 <= i < |s| ==> !IsDigit(s[i])
  {
    if s == "" then None
    else if IsDigit(s[0]) then Some(DigitRun(s))
    else
      assert forall i :: 1 <= i < |s| ==> s[i] == s[1..][i - 1];
      FirstDigits(s[1..])
  }

  /** The number found by the first pattern that matches, "" when the text has no digit. */
  function NumericPart(s: string): (r: string)
    ensures r == "" || IsNumeral(r)
  {
    if FirstArticle(s).Some? then FirstArticle(s).value.0
    else if DigitsJou(s).Some? then DigitsJou(s).value
    else if IsNumeral(s) then s
    else if EnglishArticle(s).Some? then EnglishArticle(s).value
    else if FirstDigits(s).Some? then FirstDigits(s).value
    else ""
  }

  datatype NormalizedArticle = NormalizedArticle(numeric: string, display: string, original: string, value: nat)

  function Display(numeric: string): string {
    "第" + numeric + "条"
  }

  function NormalizeArticleNumber(articleText: string): (r: NormalizedArticle)
    ensures r.numeric == "" || IsNumeral(r.numeric)
    ensures r.original == articleText
    ensures r.display == if r.numeric == "" then articleText else "第" + r.numeric + "条"
    ensures r.value == ParseDecimal(r.numeric)
  {
    if articleText == "" then NormalizedArticle("", "", "", 0)
    else
      var numeric := NumericPart(ConvertKanji(articleText));
      NormalizedArticle(
        numeric, if numeric != "" then Display(numeric) else articleText, articleText, ParseDecimal(numeric))
  }

  function ToDisplayFormat(articleNum: string): string {
    if articleNum == "" then "" else NormalizeArticleNumber(articleNum).display
  }

  function ToNumericFormat(articleNum: string): string {
    if articleNum == "" then "" else NormalizeArticleNumber(articleNum).numeric
  }

  /** Texts compare by the numbers they show, of which a text without one shows 0. */
  function CompareArticleNumbers(a: string, b: string): (r: int)
    ensures r == ParseDecimal(ToNumericFormat(a)) - ParseDecimal(ToNumericFormat(b))
  {
    NormalizeArticleNumber(a).value - NormalizeArticleNumber(b).value
  }

  // ---------------------------------------------------------------- stability

  ghost predicate NoKanji(s: string) {
    forall i :: 0 <= i < |s| ==> !IsKanjiNumeral(s[i])
  }

  lemma DigitsAreNotKanji(s: string)
    requires AllDigits(s)
    ensures NoKanji(s)
  {
  }

  /** Conversion leaves no kanji numeral behind. */
  lemma {:induction false} ConvertLeavesNoKanji(s: string)
    ensures NoKanji(ConvertKanji(s))
    decreases |s|
  {
    if s != "" {
      if IsKanjiNumeral(s[0]) {
        ConvertLeavesNoKanji(s[|KanjiRun(s)|..]);
        DigitsAreNotKanji(ToDecimal(Numerals.RunValue(KanjiRun(s))));
      } else {
        ConvertLeavesNoKanji(s[1..]);
      }
    }
  }

  lemma {:induction false} ConvertKeepsPlain(s: string)
    requires NoKanji(s)
    ensures ConvertKanji(s) == s
  {
    if s != "" {
      ConvertKeepsPlain(s[1..]);
    }
  }

  lemma ConvertIsIdempotent(s: string)
    ensures ConvertKanji(ConvertKanji(s)) == ConvertKanji(s)
  {
    ConvertLeavesNoKanji(s);
    ConvertKeepsPlain(ConvertKanji(s));
  }

  /** A digit or a kanji numeral somewhere in the text. */
  ghost predicate HasNumber(s: string) {
    exists i :: 0 <= i < |s| && (IsDigit(s[i]) || IsKanjiNumeral(s[i]))
  }

  ghost predicate HasDigit(s: string) {
    exists i :: 0 <= i < |s| && IsDigit(s[i])
  }

  lemma HasNumberSplit(s: string, n: nat)
    requires n <= |s|
    ensures HasNumber(s) <==> HasNumber(s[..n]) || HasNumber(s[n..])
  {
    if HasNumber(s[..n]) {
      var i :| 0 <= i < n && (IsDigit(s[..n][i]) || IsKanjiNumeral(s[..n][i]));
      assert s[i] == s[..n][i];
    }
    if HasNumber(s[n..]) {
      var i :| 0 <= i < |s| - n && (IsDigit(s[n..][i]) || IsKanjiNumeral(s[n..][i]));
      assert s[n + i] == s[n..][i];
    }
    if HasNumber(s) {
      var i :| 0 <= i < |s| && (IsDigit(s[i]) || IsKanjiNumeral(s[i]));
      assert if i < n then s[..n][i] == s[i] else s[n..][i - n] == s[i];
    }
  }

  lemma {:induction false} ConvertedHasDigit(s: string)
    ensures HasDigit(ConvertKanji(s)) <==> HasNumber(s)
    decreases |s|
  {
    if s != "" {
      if IsKanjiNumeral(s[0]) {
        var d := ToDecimal(Numerals.RunValue(KanjiRun(s)));
        assert IsDigit(ConvertKanji(s)[0]) by { assert ConvertKanji(s)[0] == d[0]; }
      } else {
        ConvertedHasDigit(s[1..]);
        HasNumberSplit(s, 1);
        assert forall i :: 0 <= i < |ConvertKanji(s[1..])| ==> ConvertKanji(s)[i + 1] == ConvertKanji(s[1..])[i];
        assert HasNumber(s[..1]) <==> IsDigit(s[0]) by { assert s[..1][0] == s[0]; }
        if HasDigit(ConvertKanji(s)) {
          var i :| 0 <= i < |ConvertKanji(s)| && IsDigit(ConvertKanji(s)[i]);
          if i > 0 { assert ConvertKanji(s[1..])[i - 1] == ConvertKanji(s)[i]; }
        }
      }
    }
  }

  /** A text has a number exactly when it shows a digit or a kanji numeral. */
  lemma NumericIffHasNumber(s: string)
    ensures ToNumericFormat(s) != "" <==> HasNumber(s)
  {
    if s != "" {
      ConvertedHasDigit(s);
      var t := ConvertKanji(s);
      if NumericPart(t) != "" && !HasDigit(t) {
        NoDigitNoMatch(t);
      }
    }
  }

  lemma {:induction false} NoDigitNoMatch(s: string)
    requires !HasDigit(s)
    ensures FirstArticle(s).None? && DigitsJou(s).None? && EnglishArticle(s).None?
  {
    if s != "" {
      assert !HasDigit(s[1..]) by {
        assert forall i :: 0 <= i < |s| - 1 ==> s[1..][i] == s[i + 1];
      }
      NoDigitNoMatch(s[1..]);
      if |s| >= 7 { NoDigitAfterSpaces(s[7..], s); }
    }
  }

  lemma {:induction false} NoDigitAfterSpaces(t: string, s: string)
    requires !HasDigit(s) && (forall i :: 0 <= i < |t| ==> t[i] in s)
    ensures DigitRun(SkipSpaces(t)) == ""
  {
    if t != "" && IsSpace(t[0]) {
      NoDigitAfterSpaces(t[1..], s);
    }
  }

  /** A numeral normalises to itself. */
  lemma NumeralIsNumeric(d: string)
    requires IsNumeral(d)
    ensures ToNumericFormat(d) == d && ToDisplayFormat(d) == Display(d)
    ensures NormalizeArticleNumber(d).value == ParseDecimal(d)
  {
    DigitsAreNotKanji(d);
    ConvertKeepsPlain(d);
    NoArticleInDigits(d);
    DigitRunOf(d, "");
    assert d + "" == d;
  }

  lemma {:induction false} NoArticleInDigits(d: string)
    requires AllDigits(d)
    ensures FirstArticle(d).None?
  {
    if d != "" { NoArticleInDigits(d[1..]); }
  }

  lemma {:induction false} ArticleFirst(d: string, rest: string)
    requires IsNumeral(d)
    ensures FirstArticle(Display(d) + rest) == Some((d, rest))
  {
    var s := Display(d) + rest;
    assert s[1..] == d + ("条" + rest);
    DigitRunOf(d, "条" + rest);
    assert s[1 + |d|] == '条';
    assert s[2 + |d|..] == rest;
  }

  /** The display form normalises to the number it shows. */
  lemma DisplayIsNumeric(d: string)
    requires IsNumeral(d)
    ensures ToNumericFormat(Display(d)) == d && ToDisplayFormat(Display(d)) == Display(d)
    ensures NormalizeArticleNumber(Display(d)) == NormalizedArticle(d, Display(d), Display(d), ParseDecimal(d))
  {
    var s := Display(d);
    assert NoKanji(s) by {
      DigitsAreNotKanji(d);
      assert forall i :: 0 <= i < |s| ==> s[i] == (if i == 0 then '第' else if i == |s| - 1 then '条' else d[i - 1]);
    }
    ConvertKeepsPlain(s);
    ArticleFirst(d, "");
    assert s + "" == s;
  }

  /** Both formats are stable, and going through the display form loses no number. */
  lemma FormatsAreStable(s: string)
    ensures ToNumericFormat(ToNumericFormat(s)) == ToNumericFormat(s)
    ensures ToNumericFormat(ToDisplayFormat(s)) == ToNumericFormat(s)
    ensures ToDisplayFormat(ToDisplayFormat(s)) == ToDisplayFormat(s)
    ensures ToNumericFormat(s) != "" ==> ToDisplayFormat(ToNumericFormat(s)) == ToDisplayFormat(s)
  {
    var d := ToNumericFormat(s);
    if d != "" {
      NumeralIsNumeric(d);
      DisplayIsNumeric(d);
    }
  }

  /** Exactly the texts that are numerals, or nothing, come back from their display form. */
  lemma ShownIffNumeral(s: string)
    ensures ToNumericFormat(ToDisplayFormat(s)) == s <==> s == "" || IsNumeral(s)
  {
    FormatsAreStable(s);
    if IsNumeral(s) { NumeralIsNumeric(s); }
    hide NormalizeArticleNumber;
    assert ToNumericFormat(s) == "" || IsNumeral(ToNumericFormat(s));
  }
}
