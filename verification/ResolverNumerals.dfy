/** The numbers inside relative references, which the resolver looks up in a table of its own. */
module ResolverNumerals {
  import opened Numerals
  import NumeralTheorems
  import Resolver = RelativeReferences

  lemma TableOfOne(s: string)
    requires s in Resolver.KANJI_NUMBER_MAP && |s| == 1
    ensures Resolver.KANJI_NUMBER_MAP[s] == if IsUnit(s[0]) then UnitValue(s[0]) else DigitValue(s[0])
  {
  }

  lemma TableOfTwo(s: string)
    requires s in Resolver.KANJI_NUMBER_MAP && |s| == 2
    ensures if IsDigit(s[1]) then s[0] == '十' else IsDigit(s[0]) && s[1] == '十'
    ensures Resolver.KANJI_NUMBER_MAP[s] == if IsDigit(s[1]) then 10 + DigitValue(s[1]) else 10 * DigitValue(s[0])
  {
  }

  lemma TableOfThree(s: string)
    requires s in Resolver.KANJI_NUMBER_MAP && |s| == 3
    ensures s[0] == '二' && s[1] == '十' && IsDigit(s[2])
    ensures Resolver.KANJI_NUMBER_MAP[s] == 20 + DigitValue(s[2])
  {
  }

  lemma ValueOfThree(s: string)
    requires |s| == 3 && IsDigit(s[0]) && IsUnit(s[1]) && IsDigit(s[2])
    ensures Value(s) == DigitValue(s[0]) * UnitValue(s[1]) + DigitValue(s[2])
  {
    var front := s[..|s| - 1];
    assert front[0] == s[0] && front[1] == s[1];
    NumeralTheorems.ValueOfTwo(front);
    assert Trailing(front) == 0;
  }

  /** Every entry of the table is what its numeral denotes. */
  lemma TableIsRight(s: string)
    requires s in Resolver.KANJI_NUMBER_MAP
    ensures Resolver.KANJI_NUMBER_MAP[s] == Value(s)
  {
    assert 1 <= |s| <= 3;
    if |s| == 1 {
      TableOfOne(s);
      NumeralTheorems.ValueOfOne(s);
    } else if |s| == 2 {
      TableOfTwo(s);
      NumeralTheorems.ValueOfTwo(s);
    } else {
      TableOfThree(s);
      ValueOfThree(s);
    }
  }

  lemma {:induction false} UnitsCount(s: string, c: char)
    requires IsUnit(c)
    ensures Settled(s + [c]) >= 10
  {
    assert (s + [c])[..|s|] == s;
    var factor := if Trailing(s) > 0 then Trailing(s) else 1;
    assert factor * UnitValue(c) >= UnitValue(c);
  }

  lemma UnitInside(s: string)
    requires IsNumeral(s) && NoAdjacentDigits(s) && |s| >= 2
    ensures Settled(s) >= 10
  {
    var front, c := s[..|s| - 1], s[|s| - 1];
    assert s == front + [c];
    if IsUnit(c) {
      UnitsCount(front, c);
    } else {
      var rest, unit := front[..|front| - 1], front[|front| - 1];
      assert front == rest + [unit];
      assert unit == s[|s| - 2] && IsUnit(unit);
      UnitsCount(rest, unit);
    }
  }

  /** Only 一 denotes 1. */
  lemma OneIsOne(s: string)
    requires IsNumeral(s) && NoAdjacentDigits(s) && Value(s) == 1
    ensures s == "一"
  {
    if |s| >= 2 {
      UnitInside(s);
    } else {
      NumeralTheorems.ValueOfOne(s);
      assert s == [s[0]];
    }
  }

  /**
    The resolver reads a numeral for what it denotes exactly when the numeral is one of its table; it takes
    every other one for 1. So 前二十六条 asks for the article right before.
  */
  lemma {:induction false} ResolverReadsIffTabled(s: string)
    requires IsNumeral(s) && NoAdjacentDigits(s)
    ensures Resolver.KanjiToNumber(s) == Value(s) <==> s in Resolver.KANJI_NUMBER_MAP
  {
    if s in Resolver.KANJI_NUMBER_MAP {
      TableIsRight(s);
      NumeralTheorems.ValueIsPositive(s);
    } else if Value(s) == 1 {
      OneIsOne(s);
    }
  }

  /** The numbers the table knows. */
  predicate InTable(n: nat) {
    1 <= n <= 25 || n in {30, 40, 50, 60, 70, 80, 90, 100}
  }

  lemma TableKnows(s: string)
    requires s in Resolver.KANJI_NUMBER_MAP
    ensures InTable(Resolver.KANJI_NUMBER_MAP[s])
  {
  }

  lemma BelowHundred(n: nat)
    requires n < 100
    ensures n / 1000 == 0 && n / 100 % 10 == 0 && n / 10 % 10 == n / 10
  {
  }

  /** Below a hundred, tens and ones are written. */
  lemma WrittenInTens(n: nat)
    requires n < 100
    ensures NumeralTheorems.Written(n) == NumeralTheorems.Place(n / 10, '十') + NumeralTheorems.Ones(n % 10)
  {
    BelowHundred(n);
    assert NumeralTheorems.Place(0, '千') == "" && NumeralTheorems.Place(0, '百') == "";
    NothingBefore(NumeralTheorems.Place(n / 10, '十'), NumeralTheorems.Ones(n % 10));
    hide NumeralTheorems.Place;
    hide NumeralTheorems.Ones;
  }

  lemma NothingBefore(tens: string, ones: string)
    ensures "" + "" + tens + ones == tens + ones
  {
  }

  lemma TableHoldsOnes(n: nat)
    requires 1 <= n < 10
    ensures NumeralTheorems.Written(n) in Resolver.KANJI_NUMBER_MAP
  {
    WrittenInTens(n);
    OnesAreTabled(NumeralTheorems.DigitKanji(n));
    hide NumeralTheorems.Written;
    assert n / 10 == 0 && n % 10 == n;
    assert NumeralTheorems.Written(n) == [NumeralTheorems.DigitKanji(n)];
  }

  lemma OnesAreTabled(c: char)
    requires IsDigit(c)
    ensures [c] in Resolver.KANJI_NUMBER_MAP
  {
  }

  lemma TableHoldsTeens(n: nat)
    requires 10 <= n <= 19
    ensures NumeralTheorems.Written(n) in Resolver.KANJI_NUMBER_MAP
  {
    WrittenInTens(n);
    assert n / 10 == 1 && n % 10 == n - 10;
    assert n > 10 ==> NumeralTheorems.Written(n) == ['十', NumeralTheorems.DigitKanji(n - 10)];
    assert n == 10 ==> NumeralTheorems.Written(n) == "十";
  }

  lemma TableHoldsTwenties(n: nat)
    requires 21 <= n <= 25
    ensures NumeralTheorems.Written(n) in Resolver.KANJI_NUMBER_MAP
  {
    WrittenInTens(n);
    assert n / 10 == 2 && n % 10 == n - 20;
    assert NumeralTheorems.Written(n) == ['二', '十', NumeralTheorems.DigitKanji(n - 20)];
  }

  lemma TableHoldsTens(d: nat)
    requires 2 <= d <= 9
    ensures NumeralTheorems.Written(10 * d) in Resolver.KANJI_NUMBER_MAP
  {
    WrittenInTens(10 * d);
    assert 10 * d / 10 == d && 10 * d % 10 == 0;
    TensAreTabled(NumeralTheorems.DigitKanji(d));
    hide NumeralTheorems.Written;
    assert NumeralTheorems.Written(10 * d) == [NumeralTheorems.DigitKanji(d), '十'];
  }

  lemma TensAreTabled(c: char)
    requires DigitValue(c) >= 2
    ensures [c, '十'] in Resolver.KANJI_NUMBER_MAP
  {
    assert forall d :: d in "二三四五六七八九" ==> [d, '十'] == [d] + "十";
  }

  lemma TableHoldsHundred()
    ensures NumeralTheorems.Written(100) in Resolver.KANJI_NUMBER_MAP
  {
    assert NumeralTheorems.Written(100) == "百";
  }

  lemma TableHolds(n: nat)
    requires InTable(n)
    ensures NumeralTheorems.Written(n) in Resolver.KANJI_NUMBER_MAP
  {
    if n < 10 { TableHoldsOnes(n); }
    else if n <= 19 { TableHoldsTeens(n); }
    else if 21 <= n <= 25 { TableHoldsTwenties(n); }
    else if n == 100 { TableHoldsHundred(); }
    else {
      assert 10 * (n / 10) == n;
      TableHoldsTens(n / 10);
    }
  }

  /** Of the numbers up to 9999 as they are usually written, those up to 25, the tens and 100 are read, the rest as 1. */
  lemma WrittenReadIff(n: nat)
    requires 0 < n < 10000
    ensures Resolver.KanjiToNumber(NumeralTheorems.Written(n)) ==
      if n <= 25 || n in {30, 40, 50, 60, 70, 80, 90, 100} then n else 1
  {
    var s := NumeralTheorems.Written(n);
    NumeralTheorems.WrittenDenotes(n);
    ResolverReadsIffTabled(s);
    if InTable(n) {
      TableHolds(n);
    } else if s in Resolver.KANJI_NUMBER_MAP {
      TableIsRight(s);
      TableKnows(s);
    }
    hide NumeralTheorems.Written;
    hide Value;
  }

  /** 二十六 is such a numeral. */
  lemma TwentySixIsOne()
    ensures Value("二十六") == 26 && Resolver.KanjiToNumber("二十六") == 1
  {
    ValueOfThree("二十六");
    assert "二十六"[2] == '六';
  }

  lemma TwentySixArticlesBack()
    ensures Resolver.ArticleStep("前二十六条") == -1
  {
    var text := "前二十六条";
    assert text[1..4] == "二十六" && text[..1] == "前" && text[4..] == "条";
    TwentySixIsOne();
    hide Resolver.KanjiToNumber;
  }
}
