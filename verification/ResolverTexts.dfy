/** The texts of relative references, spelled out: what each asks for, and how the numbers around them are read. */
module ResolverTexts {
  import opened Wrappers
  import opened Decimals
  import opened ArticleNormalizer
  import opened RelativeReferences
  import opened ResolverRuns
  import opened ParagraphRuns

  /** A number as a reference writes it. */
  predicate IsTenNumber(w: string) {
    w != "" && forall i :: 0 <= i < |w| ==> w[i] in "一二三四五六七八九十"
  }

  lemma BetweenSpelled(prefix: string, w: string, suffix: string)
    requires IsTenNumber(w)
    ensures Between(prefix + w + suffix, prefix, suffix) == Some(KanjiToNumber(w))
  {
    var text := prefix + w + suffix;
    assert text[..|prefix|] == prefix && text[|prefix| + |w|..] == suffix && text[|prefix|..|prefix| + |w|] == w;
    assert forall i :: |prefix| <= i < |prefix| + |w| ==> text[i] == w[i - |prefix|];
    hide KanjiToNumber;
  }

  lemma BetweenOnly(text: string, prefix: string, suffix: string) returns (w: string)
    requires Between(text, prefix, suffix).Some?
    ensures IsTenNumber(w) && text == prefix + w + suffix && Between(text, prefix, suffix).value == KanjiToNumber(w)
  {
    var middle := |text| - |prefix| - |suffix|;
    w := text[|prefix|..|prefix| + middle];
    assert forall i :: 0 <= i < |w| ==> w[i] == text[|prefix| + i];
    assert text == text[..|prefix|] + w + text[|prefix| + middle..];
    hide KanjiToNumber;
  }

  /** A text with another beginning or another end has not the shape. */
  lemma NotBetween(text: string, prefix: string, suffix: string)
    requires |prefix| > 0 && |suffix| == 1
    requires |text| < |prefix| + 2 || text[..|prefix|] != prefix || text[|text| - 1] != suffix[0] || !IsTenKanji(text[|prefix|])
    ensures Between(text, prefix, suffix).None?
  {
    if Between(text, prefix, suffix).Some? { ShapeOf(text, prefix, suffix); }
    hide Between;
    assert Between(text, prefix, suffix).None?;
  }

  // ---------------------------------------------------------------- texts for articles

  lemma ArticleTextsSpelled(w: string)
    requires IsTenNumber(w)
    ensures ArticleStep("前条") == -1 && ArticleStep("次条") == 1
    ensures ArticleStep("前" + w + "条") == -(KanjiToNumber(w) as int)
    ensures ArticleStep("次" + w + "条") == KanjiToNumber(w)
    ensures ArticleStep("前条第" + w + "項") == -1 && Landing("前条第" + w + "項") == KanjiToNumber(w)
    ensures ArticleStep("次条第" + w + "項") == 1 && Landing("次条第" + w + "項") == KanjiToNumber(w)
  {
    ArticleTextBack(w);
    ArticleTextForth(w);
    ArticleParagraphBack(w);
    ArticleParagraphForth(w);
    hide Between;
  }

  lemma ArticleTextBack(w: string)
    requires IsTenNumber(w)
    ensures ArticleStep("前" + w + "条") == -(KanjiToNumber(w) as int)
  {
    BetweenSpelled("前", w, "条");
    hide Between;
    hide KanjiToNumber;
  }

  lemma ArticleTextForth(w: string)
    requires IsTenNumber(w)
    ensures ArticleStep("次" + w + "条") == KanjiToNumber(w)
  {
    var text := "次" + w + "条";
    BetweenSpelled("次", w, "条");
    assert text[0] == '次' && text[..1] == "次";
    NotBetween(text, "前", "条");
    hide Between;
    hide KanjiToNumber;
  }

  lemma ArticleParagraphBack(w: string)
    requires IsTenNumber(w)
    ensures ArticleStep("前条第" + w + "項") == -1 && Landing("前条第" + w + "項") == KanjiToNumber(w)
  {
    var text := "前条第" + w + "項";
    BetweenSpelled("前条第", w, "項");
    NotBetween(text, "前", "条");
    NotBetween(text, "次", "条");
    hide Between;
    hide KanjiToNumber;
  }

  lemma ArticleParagraphForth(w: string)
    requires IsTenNumber(w)
    ensures ArticleStep("次条第" + w + "項") == 1 && Landing("次条第" + w + "項") == KanjiToNumber(w)
  {
    var text := "次条第" + w + "項";
    BetweenSpelled("次条第", w, "項");
    assert text[..3] == "次条第" && text[0] == '次' && "前条第"[0] == '前';
    NotBetween(text, "前", "条");
    NotBetween(text, "次", "条");
    NotBetween(text, "前条第", "項");
    hide Between;
    hide KanjiToNumber;
  }

  /** One of the texts above. */
  ghost predicate IsArticleText(text: string) {
    || text == "前条" || text == "次条"
    || exists w :: IsTenNumber(w)
         && text in {"前" + w + "条", "次" + w + "条", "前条第" + w + "項", "次条第" + w + "項"}
  }

  /** No other text asks for another article. */
  lemma OnlyArticleTexts(text: string)
    ensures ArticleStep(text) != 0 ==> IsArticleText(text)
  {
    if text != "前条" && text != "次条" && ArticleStep(text) != 0 {
      var w;
      if Between(text, "前", "条").Some? {
        w := BetweenOnly(text, "前", "条");
      } else if Between(text, "次", "条").Some? {
        w := BetweenOnly(text, "次", "条");
      } else if Between(text, "前条第", "項").Some? {
        w := BetweenOnly(text, "前条第", "項");
      } else {
        w := BetweenOnly(text, "次条第", "項");
      }
      assert IsTenNumber(w) && text in {"前" + w + "条", "次" + w + "条", "前条第" + w + "項", "次条第" + w + "項"};
    }
    hide Between;
  }

  // ---------------------------------------------------------------- texts for paragraphs

  lemma ParagraphTextsSpelled(w: string)
    requires IsTenNumber(w)
    ensures ParagraphStep("前項") == -1 && ParagraphStep("次項") == 1 && ParagraphStep("前各項") == -1
    ensures ParagraphStep("前" + w + "項") == -(KanjiToNumber(w) as int)
    ensures ParagraphStep("次" + w + "項") == KanjiToNumber(w)
    ensures ParagraphStep("前項第" + w + "号") == -1
  {
    ParagraphTextBack(w);
    ParagraphTextForth(w);
    ParagraphItem(w);
    NotBetween("前各項", "前", "項");
    NotBetween("前各項", "次", "項");
    hide Between;
  }

  lemma ParagraphTextBack(w: string)
    requires IsTenNumber(w)
    ensures ParagraphStep("前" + w + "項") == -(KanjiToNumber(w) as int)
  {
    BetweenSpelled("前", w, "項");
    hide Between;
    hide KanjiToNumber;
  }

  lemma ParagraphTextForth(w: string)
    requires IsTenNumber(w)
    ensures ParagraphStep("次" + w + "項") == KanjiToNumber(w)
  {
    var text := "次" + w + "項";
    BetweenSpelled("次", w, "項");
    assert text[0] == '次' && text[..1] == "次";
    NotBetween(text, "前", "項");
    hide Between;
    hide KanjiToNumber;
  }

  lemma ParagraphItem(w: string)
    requires IsTenNumber(w)
    ensures ParagraphStep("前項第" + w + "号") == -1
  {
    var text := "前項第" + w + "号";
    BetweenSpelled("前項第", w, "号");
    NotBetween(text, "前", "項");
    NotBetween(text, "次", "項");
    hide Between;
    hide KanjiToNumber;
  }

  ghost predicate IsParagraphText(text: string) {
    || text in {"前項", "次項", "前各項"}
    || exists w :: IsTenNumber(w) && text in {"前" + w + "項", "次" + w + "項", "前項第" + w + "号"}
  }

  /** No other text asks for another paragraph of the article. */
  lemma OnlyParagraphTexts(text: string)
    ensures ParagraphStep(text) != 0 ==> IsParagraphText(text)
  {
    if text !in {"前項", "次項", "前各項"} && ParagraphStep(text) != 0 {
      var w;
      if Between(text, "前", "項").Some? {
        w := BetweenOnly(text, "前", "項");
      } else if Between(text, "次", "項").Some? {
        w := BetweenOnly(text, "次", "項");
      } else {
        w := BetweenOnly(text, "前項第", "号");
      }
      assert IsTenNumber(w) && text in {"前" + w + "項", "次" + w + "項", "前項第" + w + "号"};
    }
    hide Between;
  }

  // ---------------------------------------------------------------- what surrounds a text, and numbers in a context

  predicate AllSpaces(s: string) {
    forall i :: 0 <= i < |s| ==> IsSpace(s[i])
  }

  lemma {:induction false} FrontTrimmed(a: string, t: string)
    requires AllSpaces(a) && (t != "" ==> !IsSpace(t[0]))
    ensures SkipSpaces(a + t) == t
  {
    if a == "" {
      assert a + t == t;
    } else {
      assert (a + t)[1..] == a[1..] + t;
      FrontTrimmed(a[1..], t);
    }
  }

  lemma {:induction false} EndTrimmed(t: string, b: string)
    requires AllSpaces(b) && (t != "" ==> !IsSpace(t[|t| - 1]))
    ensures TrimEnd(t + b) == t
  {
    if b == "" {
      assert t + b == t;
    } else {
      assert (t + b)[..|t + b| - 1] == t + b[..|b| - 1] && (t + b)[|t + b| - 1] == b[|b| - 1];
      EndTrimmed(t, b[..|b| - 1]);
    }
  }

  /** What counts as a space: WhiteSpace and LineTerminator of ECMA-262, sections 12.2 and 12.3, by code point. */
  lemma SpacesAre(c: char)
    ensures IsSpace(c) <==>
      || 0x9 <= c as int <= 0xD || 0x2000 <= c as int <= 0x200A
      || c as int in {0x20, 0xA0, 0x1680, 0x2028, 0x2029, 0x202F, 0x205F, 0x3000, 0xFEFF}
  {
    assert c as int == 0x3000 ==> c == '\U{3000}';
  }

  /** Spaces around a text do not matter; the full-width space is one. */
  lemma TrimSpelled(a: string, t: string, b: string)
    requires AllSpaces(a) && AllSpaces(b)
    requires t != "" && !IsSpace(t[0]) && !IsSpace(t[|t| - 1])
    ensures Trim(a + (t + b)) == t
  {
    assert (t + b)[0] == t[0];
    FrontTrimmed(a, t + b);
    EndTrimmed(t, b);
  }

  /** An article number is read up to its first character that is not a digit, after spaces ... */
  lemma ParseIntSpelled(a: string, d: string, rest: string)
    requires AllSpaces(a) && IsNumeral(d) && (rest != "" ==> !IsDigit(rest[0]))
    ensures ParseInt(a + (d + rest)) == Some(ParseDecimal(d))
  {
    var s, t := a + (d + rest), d + rest;
    assert t[0] == d[0];
    FrontTrimmed(a, t);
    DigitRunOf(d, rest);
    hide ParseDecimal;
    hide SkipSpaces;
    hide DigitRun;
  }

  lemma ParseSigned(s: string, t: string, d: string)
    requires SkipSpaces(s) == t && t != "" && t[0] in "+-" && DigitRun(t[1..]) == d && d != ""
    ensures var n: int := ParseDecimal(d); ParseInt(s) == Some(if t[0] == '-' then -n else n)
  {
    hide SkipSpaces;
    hide DigitRun;
    hide ParseDecimal;
  }

  /** ... and with its sign. */
  lemma SignedSpelled(a: string, sign: char, d: string, rest: string)
    requires AllSpaces(a) && sign in "+-" && IsNumeral(d) && (rest != "" ==> !IsDigit(rest[0]))
    ensures var n: int := ParseDecimal(d); ParseInt(a + ([sign] + (d + rest))) == Some(if sign == '-' then -n else n)
  {
    var t := [sign] + (d + rest);
    assert t[1..] == d + rest && t[0] == sign && !IsSpace(sign);
    FrontTrimmed(a, t);
    DigitRunOf(d, rest);
    hide *;
    ParseSigned(a + t, t, d);
  }

  /** Without a digit after the spaces and the sign there is no number. */
  lemma NoIntSpelled(a: string, rest: string)
    requires AllSpaces(a) && rest != "" && !IsSpace(rest[0]) && !IsDigit(rest[0])
    requires rest[0] !in "+-" || |rest| == 1 || !IsDigit(rest[1])
    ensures ParseInt(a + rest) == None
  {
    FrontTrimmed(a, rest);
    hide SkipSpaces;
  }

  /** What comes before the first digit of an item does not matter; without one the item is 1. */
  lemma {:induction false} ItemNumberAfter(before: string, s: string)
    requires forall i :: 0 <= i < |before| ==> !IsDigit(before[i]) && !IsTenKanji(before[i])
    ensures ParseItemNumber(before + s) == ParseItemNumber(s) && ParseItemNumber(before) == "1"
  {
    if before == "" {
      assert before + s == s;
    } else {
      assert (before + s)[1..] == before[1..] + s;
      ItemNumberAfter(before[1..], s);
      hide KanjiToNumber;
      hide TenKanjiRun;
      hide DigitRun;
    }
  }

  /** An item is read by its first run of digits, or of kanji digits. */
  lemma ItemNumberSpelled(before: string, d: string, rest: string)
    requires forall i :: 0 <= i < |before| ==> !IsDigit(before[i]) && !IsTenKanji(before[i])
    requires rest != "" ==> !IsDigit(rest[0]) && !IsTenKanji(rest[0])
    ensures IsNumeral(d) ==> ParseItemNumber(before + (d + rest)) == d
    ensures IsTenNumber(d) ==> ParseItemNumber(before + (d + rest)) == ToDecimal(KanjiToNumber(d))
  {
    ItemNumberAfter(before, d + rest);
    if IsNumeral(d) { DigitRunOf(d, rest); }
    if IsTenNumber(d) { TenRunOf(d, rest); }
    assert d != "" ==> (d + rest)[0] == d[0];
    hide KanjiToNumber;
    hide TenKanjiRun;
    hide DigitRun;
  }

  lemma {:induction false} TenRunOf(w: string, rest: string)
    requires (forall i :: 0 <= i < |w| ==> IsTenKanji(w[i])) && (rest != "" ==> !IsTenKanji(rest[0]))
    ensures TenKanjiRun(w + rest) == w
  {
    if w == "" {
      assert w + rest == rest;
    } else {
      assert (w + rest)[1..] == w[1..] + rest;
      TenRunOf(w[1..], rest);
    }
  }
}
