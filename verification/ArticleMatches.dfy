/** What the article pattern 第…条 matches, by position in the text. */
module ArticleMatches {
  import opened Wrappers
  import opened Decimals
  import opened ArticleNormalizer

  /** At position i stand 第, the digits d, and 条. */
  predicate ArticleAt(s: string, i: nat, d: string) {
    && IsNumeral(d) && i + |d| + 2 <= |s|
    && s[i] == '第' && s[i + 1..i + 1 + |d|] == d && s[i + 1 + |d|] == '条'
  }

  /** The position determines the digits. */
  lemma ArticleAtIs(s: string, i: nat, d: string)
    requires i <= |s|
    ensures ArticleAt(s, i, d) <==> ArticleAtStart(s[i..]) == Some(d)
  {
    var t := s[i..];
    if ArticleAt(s, i, d) {
      var rest := s[i + 1 + |d|..];
      assert t[1..] == d + rest && rest[0] == '条';
      DigitRunOf(d, rest);
      assert t[1 + |d|] == '条';
    }
    if ArticleAtStart(t) == Some(d) {
      assert s[i + 1..i + 1 + |d|] == t[1..][..|d|];
    }
  }

  /** The match at i is the first one, and `after` is the text behind it. */
  ghost predicate FirstAt(s: string, i: nat, d: string, after: string) {
    && ArticleAt(s, i, d) && after == s[i + |d| + 2..]
    && forall j, e :: 0 <= j < i ==> !ArticleAt(s, j, e)
  }

  lemma Shifted(s: string, i: nat, d: string)
    requires s != ""
    ensures ArticleAt(s, i + 1, d) <==> ArticleAt(s[1..], i, d)
  {
    if i + |d| + 3 <= |s| {
      assert s[1..][i + 1..i + 1 + |d|] == s[i + 2..i + 2 + |d|];
    }
  }

  /** The search finds the leftmost match, and none exactly when there is none. */
  lemma {:induction false} FirstArticleIff(s: string)
    ensures FirstArticle(s).None? <==> forall i, d :: !ArticleAt(s, i, d)
    ensures FirstArticle(s).Some? ==>
      exists i :: FirstAt(s, i, FirstArticle(s).value.0, FirstArticle(s).value.1)
  {
    if s != "" {
      var t := s[1..];
      assert s[0..] == s;
      forall d ensures ArticleAt(s, 0, d) <==> ArticleAtStart(s) == Some(d) { ArticleAtIs(s, 0, d); }
      forall i: nat, d ensures ArticleAt(s, i + 1, d) <==> ArticleAt(t, i, d) { Shifted(s, i, d); }
      if ArticleAtStart(s).Some? {
        assert FirstAt(s, 0, FirstArticle(s).value.0, FirstArticle(s).value.1);
      } else {
        FirstArticleIff(t);
        hide ArticleAt;
        hide ArticleAtStart;
        if FirstArticle(t).Some? {
          var (d, after) := FirstArticle(t).value;
          var i :| FirstAt(t, i, d, after);
          FirstShifted(s, i, d, after);
        } else {
          forall i: nat, d ensures !ArticleAt(s, i, d) {
            if i > 0 { assert ArticleAt(s, (i - 1) + 1, d) <==> ArticleAt(t, i - 1, d); }
          }
        }
      }
    }
  }

  lemma FirstShifted(s: string, i: nat, d: string, after: string)
    requires s != "" && ArticleAtStart(s).None? && FirstAt(s[1..], i, d, after)
    ensures FirstAt(s, i + 1, d, after)
  {
    Shifted(s, i, d);
    assert s[0..] == s;
    forall j: nat, e | j < i + 1 ensures !ArticleAt(s, j, e) {
      if j == 0 { ArticleAtIs(s, 0, e); } else { Shifted(s, j - 1, e); }
    }
    hide ArticleAtStart;
    assert s[i + 1 + |d| + 2..] == s[1..][i + |d| + 2..] by { assert ArticleAt(s, i + 1, d); }
  }

  // ---------------------------------------------------------------- all matches

  /** The digits of the articles that start at position i or later, in text order. */
  ghost function FoundFrom(s: string, i: nat): seq<string>
    requires i <= |s|
    decreases |s| - i
  {
    if i == |s| then []
    else if d :| ArticleAt(s, i, d) then [d] + FoundFrom(s, i + 1)
    else FoundFrom(s, i + 1)
  }

  lemma {:induction false} NothingBetween(s: string, i: nat, j: nat)
    requires i <= j <= |s| && forall k :: i <= k < j ==> s[k] != '第'
    ensures FoundFrom(s, i) == FoundFrom(s, j)
    decreases j - i
  {
    if i < j {
      NothingBetween(s, i + 1, j);
      assert !exists d :: ArticleAt(s, i, d);
    }
  }

  // ---------------------------------------------------------------- which number a text is normalised to

  /** The word "article", each letter in either case. */
  predicate IsArticleWord(w: string) {
    |w| == 7 && forall k :: 0 <= k < 7 ==> w[k] == "article"[k] || w[k] == "ARTICLE"[k]
  }

  predicate SpellsArticle(s: string, i: nat) {
    i + 7 <= |s| && IsArticleWord(s[i..i + 7])
  }

  /** At position i stand "article", the spaces w, and the digits d, which no further digit follows. */
  predicate EnglishAt(s: string, i: nat, w: string, d: string) {
    && SpellsArticle(s, i) && IsNumeral(d) && i + 7 + |w| + |d| <= |s|
    && (forall k :: 0 <= k < |w| ==> IsSpace(w[k]))
    && s[i + 7..i + 7 + |w|] == w && s[i + 7 + |w|..i + 7 + |w| + |d|] == d
    && (i + 7 + |w| + |d| < |s| ==> !IsDigit(s[i + 7 + |w| + |d|]))
  }

  /** The digits d start at position i and end where the digits end. */
  predicate DigitsAt(s: string, i: nat, d: string) {
    && IsNumeral(d) && i + |d| <= |s| && s[i..i + |d|] == d
    && (i + |d| < |s| ==> !IsDigit(s[i + |d|]))
  }

  lemma WordIff(t: string)
    requires |t| >= 7
    ensures IsArticleWord(t[..7]) <==> StartsWithArticle(t)
  {
    var w := t[..7];
    assert w[0] == t[0] && w[1] == t[1] && w[2] == t[2] && w[3] == t[3] && w[4] == t[4] && w[5] == t[5] && w[6] == t[6];
  }

  lemma SpellsIff(s: string, i: nat)
    requires i <= |s|
    ensures SpellsArticle(s, i) <==> StartsWithArticle(s[i..])
  {
    if i + 7 <= |s| {
      WordIff(s[i..]);
      assert s[i..][..7] == s[i..i + 7];
    }
    hide IsArticleWord;
  }

  /** Spaces before a digit are skipped. */
  lemma {:induction false} SpacesSkipped(w: string, rest: string)
    requires (forall k :: 0 <= k < |w| ==> IsSpace(w[k])) && (rest != "" ==> !IsSpace(rest[0]))
    ensures SkipSpaces(w + rest) == rest
  {
    if w == "" {
      assert w + rest == rest;
    } else {
      assert (w + rest)[1..] == w[1..] + rest;
      SpacesSkipped(w[1..], rest);
    }
  }

  lemma EnglishAtIs(s: string, i: nat, w: string, d: string)
    requires EnglishAt(s, i, w, d)
    ensures StartsWithArticle(s[i..]) && DigitRun(SkipSpaces(s[i..][7..])) == d
  {
    SpellsIff(s, i);
    var rest := s[i + 7 + |w| + |d|..];
    assert s[i..][7..] == w + (d + rest);
    SpacesSkipped(w, d + rest);
    DigitRunOf(d, rest);
  }

  lemma {:induction false} EnglishFound(s: string, i: nat, w: string, d: string)
    requires EnglishAt(s, i, w, d)
    requires forall j, v, e :: 0 <= j < i ==> !EnglishAt(s, j, v, e)
    ensures EnglishArticle(s) == Some(d)
  {
    assert s[0..] == s;
    if i == 0 {
      EnglishAtIs(s, 0, w, d);
    } else {
      if StartsWithArticle(s) && DigitRun(SkipSpaces(s[7..])) != "" {
        NothingEarlier(s);
        assert false;
      }
      forall j: nat, v, e | j < i - 1 ensures !EnglishAt(s[1..], j, v, e) { EnglishShifted(s, j, v, e); }
      EnglishShifted(s, i - 1, w, d);
      EnglishFound(s[1..], i - 1, w, d);
    }
  }

  lemma SliceShifted(s: string, a: nat, b: nat)
    requires 1 <= a <= b <= |s|
    ensures s[a..b] == s[1..][a - 1..b - 1]
  {
  }

  lemma EnglishShifted(s: string, i: nat, w: string, d: string)
    requires s != ""
    ensures EnglishAt(s, i + 1, w, d) <==> EnglishAt(s[1..], i, w, d)
  {
    if i + 8 <= |s| { SliceShifted(s, i + 1, i + 8); }
    if i + 8 + |w| + |d| <= |s| {
      SliceShifted(s, i + 8, i + 8 + |w|);
      SliceShifted(s, i + 8 + |w|, i + 8 + |w| + |d|);
    }
    hide IsArticleWord;
  }

  lemma {:induction false} SpacesBefore(s: string) returns (w: string)
    ensures s == w + SkipSpaces(s) && forall k :: 0 <= k < |w| ==> IsSpace(w[k])
  {
    w := "";
    if s != "" && IsSpace(s[0]) {
      var v := SpacesBefore(s[1..]);
      w := [s[0]] + v;
    }
  }

  /** Where the search for "article" stops there is a match. */
  lemma NothingEarlier(s: string)
    requires StartsWithArticle(s) && DigitRun(SkipSpaces(s[7..])) != ""
    ensures exists w, d :: EnglishAt(s, 0, w, d)
  {
    var w := SpacesBefore(s[7..]);
    var t := SkipSpaces(s[7..]);
    var d := DigitRun(t);
    assert s[0..] == s;
    SpellsIff(s, 0);
    assert s[7..][..|w|] == w && s[7..][|w|..] == t;
    assert s[7..7 + |w|] == w && s[7 + |w|..] == t;
    assert s[7 + |w|..7 + |w| + |d|] == t[..|d|] == d;
    assert 7 + |w| + |d| < |s| ==> s[7 + |w| + |d|] == t[|d|];
    assert EnglishAt(s, 0, w, d);
  }

  lemma {:induction false} DigitsFound(s: string, i: nat, d: string)
    requires DigitsAt(s, i, d) && forall j :: 0 <= j < i ==> !IsDigit(s[j])
    ensures FirstDigits(s) == Some(d)
  {
    assert s[i] == d[0];
    if i == 0 {
      assert s == d + s[|d|..];
      DigitRunOf(d, s[|d|..]);
    } else {
      assert s[1..][i - 1..i - 1 + |d|] == s[i..i + |d|];
      DigitsFound(s[1..], i - 1, d);
    }
  }

  /** An article 第…条 anywhere is what a text is normalised to, whatever other digits come before it. */
  lemma ArticleGoesFirst(s: string, i: nat, d: string)
    requires ArticleAt(ConvertKanji(s), i, d) && forall j, e :: 0 <= j < i ==> !ArticleAt(ConvertKanji(s), j, e)
    ensures ToNumericFormat(s) == d && ToDisplayFormat(s) == "第" + d + "条"
  {
    var t := ConvertKanji(s);
    FirstArticleIff(t);
    assert FirstArticle(t).Some?;
    var k :| FirstAt(t, k, FirstArticle(t).value.0, FirstArticle(t).value.1);
    assert k == i;
    ArticleAtIs(t, i, d);
    ArticleAtIs(t, i, FirstArticle(t).value.0);
    hide FirstArticle;
  }

  /** No article 第…条 is in the text, and the whole text is neither a number nor one with 条. */
  ghost predicate Unusual(t: string) {
    && (forall j, e :: !ArticleAt(t, j, e))
    && (forall e :: IsNumeral(e) ==> t != e && t != e + "条")
  }

  lemma NotWhole(t: string)
    requires Unusual(t)
    ensures FirstArticle(t).None? && DigitsJou(t).None? && !IsNumeral(t)
  {
    FirstArticleIff(t);
    DigitsJouIs(t);
    hide FirstArticle;
    hide DigitsJou;
  }

  lemma DigitsJouIs(t: string)
    ensures DigitsJou(t).Some? ==> t == DigitsJou(t).value + "条"
  {
  }

  /** Then the first "article" with a number counts ... */
  lemma EnglishGoesNext(s: string, i: nat, w: string, d: string)
    requires Unusual(ConvertKanji(s)) && EnglishAt(ConvertKanji(s), i, w, d)
    requires forall j, v, e :: 0 <= j < i ==> !EnglishAt(ConvertKanji(s), j, v, e)
    ensures ToNumericFormat(s) == d
  {
    NotWhole(ConvertKanji(s));
    EnglishFound(ConvertKanji(s), i, w, d);
    hide EnglishAt;
  }

  /** ... and without one, the first digits do. */
  lemma DigitsGoLast(s: string, i: nat, d: string)
    requires Unusual(ConvertKanji(s)) && DigitsAt(ConvertKanji(s), i, d)
    requires forall j :: 0 <= j < i ==> !IsDigit(ConvertKanji(s)[j])
    requires forall j, v, e :: !EnglishAt(ConvertKanji(s), j, v, e)
    ensures ToNumericFormat(s) == d
  {
    NotWhole(ConvertKanji(s));
    DigitsFound(ConvertKanji(s), i, d);
    EnglishNowhere(ConvertKanji(s));
    hide EnglishAt;
  }

  lemma {:induction false} EnglishNowhere(t: string)
    requires forall j, v, e :: !EnglishAt(t, j, v, e)
    ensures EnglishArticle(t).None?
  {
    if t != "" {
      if StartsWithArticle(t) && DigitRun(SkipSpaces(t[7..])) != "" {
        NothingEarlier(t);
        assert false;
      }
      forall j, v, e ensures !EnglishAt(t[1..], j, v, e) { EnglishShifted(t, j, v, e); }
      EnglishNowhere(t[1..]);
    }
  }
}
