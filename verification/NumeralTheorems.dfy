/** The three readers of kanji numerals against each other and against what a numeral denotes. */
module NumeralTheorems {
  import opened Wrappers
  import opened Numerals

  /** The normaliser reads every numeral for what it denotes. */
  lemma {:induction false} NormaliserReads(s: string)
    requires s == "" || IsNumeral(s)
    ensures RunState(s) == (Settled(s), Trailing(s))
  {
    if s != "" {
      NormaliserReads(s[..|s| - 1]);
    }
  }

  lemma {:induction false} PatternLoopReads(s: string)
    requires s == "" || IsNumeral(s)
    ensures PatternState(s) == Accumulators(0, Settled(s), Trailing(s))
  {
    if s != "" {
      PatternLoopReads(s[..|s| - 1]);
    }
  }

  lemma ValueOfOne(s: string)
    requires |s| == 1
    ensures Value(s) == if IsUnit(s[0]) then UnitValue(s[0]) else DigitValue(s[0])
  {
    assert s[..|s| - 1] == "" && Settled("") == 0;
  }

  lemma ValueOfTwo(s: string)
    requires |s| == 2
    ensures IsUnit(s[0]) && IsDigit(s[1]) ==> Value(s) == UnitValue(s[0]) + DigitValue(s[1])
    ensures IsDigit(s[0]) && IsUnit(s[1]) ==> Value(s) == DigitValue(s[0]) * UnitValue(s[1])
  {
    var front := s[..|s| - 1];
    assert front[0] == s[0];
    ValueOfOne(front);
  }

  lemma TableOfOne(s: string)
    requires IsNumeral(s) && s in KANJI_NUMBER_MAP && |s| == 1
    ensures KANJI_NUMBER_MAP[s] == if IsUnit(s[0]) then UnitValue(s[0]) else DigitValue(s[0])
  {
  }

  lemma TableOfTwo(s: string)
    requires IsNumeral(s) && s in KANJI_NUMBER_MAP && |s| == 2
    ensures KANJI_NUMBER_MAP[s] == if IsDigit(s[1]) then 10 + DigitValue(s[1]) else 10 * DigitValue(s[0])
    ensures if IsDigit(s[1]) then s[0] == '十' else IsDigit(s[0]) && s[1] == '十'
  {
  }

  /** The table of ready answers agrees with the loop it short-cuts. */
  lemma TableIsRight(s: string)
    requires IsNumeral(s) && s in KANJI_NUMBER_MAP
    ensures KANJI_NUMBER_MAP[s] == Value(s)
  {
    assert |s| <= 2;
    if |s| == 1 {
      TableOfOne(s);
      ValueOfOne(s);
    } else {
      TableOfTwo(s);
      ValueOfTwo(s);
    }
  }

  lemma {:induction false} PatternsRead(s: string)
    requires IsNumeral(s)
    ensures PatternNumber(s) == Value(s)
  {
    PatternLoopReads(s);
    if s in KANJI_NUMBER_MAP { TableIsRight(s); }
  }

  /** The digits of s before position n that another digit follows. */
  function Overwritten(s: string, n: nat): nat
    requires n <= |s|
  {
    if n == 0 then 0
    else Overwritten(s, n - 1) + if n < |s| && IsDigit(s[n - 1]) && IsDigit(s[n]) then DigitValue(s[n - 1]) else 0
  }

  /** The pending digit before position n, when the prefix is not the whole text. */
  function Pending(s: string, n: nat): nat
    requires n <= |s|
  {
    if n == |s| then Trailing(s) else 0
  }

  /** What the unit at position i, if there is one, multiplies out to. */
  function Gain(s: string, i: nat): nat
    requires i < |s|
  {
    if IsUnit(s[i]) then (if i > 0 && IsDigit(s[i - 1]) then DigitValue(s[i - 1]) else 1) * UnitValue(s[i]) else 0
  }

  lemma {:induction false} SettledStep(s: string, n: nat)
    requires IsNumeral(s) && n < |s|
    ensures Settled(s[..n + 1]) == Settled(s[..n]) + Gain(s, n)
  {
    assert s[..n + 1][..n] == s[..n];
    assert Trailing(s[..n]) == if n > 0 then DigitValue(s[n - 1]) else 0;
  }

  lemma ContributionIs(s: string, i: nat)
    requires IsNumeral(s) && i < |s|
    ensures Contribution(s, i) == Gain(s, i) + if i + 1 < |s| && IsUnit(s[i + 1]) then 0 else DigitValue(s[i])
  {
  }

  lemma {:induction false} ContributionsRead(s: string, n: nat)
    requires IsNumeral(s) && n <= |s|
    ensures ContributionsUpTo(s, n) == Settled(s[..n]) + Overwritten(s, n) + Pending(s, n)
  {
    if n > 0 {
      ContributionsRead(s, n - 1);
      SettledStep(s, n - 1);
      ContributionIs(s, n - 1);
      hide Settled;
      hide Gain;
      hide Contribution;
      assert n < |s| ==> IsDigit(s[n]) || IsUnit(s[n]);
    }
  }

  lemma {:induction false} ValueIsPositive(s: string)
    requires IsNumeral(s)
    ensures Value(s) > 0
  {
    var front := s[..|s| - 1];
    if IsUnit(s[|s| - 1]) && Trailing(front) > 0 {
      assert Trailing(front) * UnitValue(s[|s| - 1]) >= UnitValue(s[|s| - 1]);
    }
  }

  /** The detector's look-behind loop adds the digits the other two overwrite. */
  lemma {:induction false} DetectorReads(s: string)
    requires IsNumeral(s)
    ensures DetectedNumber(s) == Some(Value(s) + Overwritten(s, |s|))
  {
    ContributionsRead(s, |s|);
    assert s[..|s|] == s;
    ValueIsPositive(s);
    if |s| == 1 { ValueOfOne(s); }
  }

  lemma {:induction false} OverwrittenIffAdjacent(s: string, n: nat)
    requires n <= |s|
    ensures Overwritten(s, n) == 0 <==> forall i :: 0 <= i < n && i + 1 < |s| ==> !(IsDigit(s[i]) && IsDigit(s[i + 1]))
  {
    if n > 0 { OverwrittenIffAdjacent(s, n - 1); }
  }

  /**
    On every string of digits and units the normaliser and the pattern table return what the numeral denotes.
    The detector returns it too exactly when no two digits stand next to each other.
  */
  lemma {:induction false} ThreeReadersAgree(s: string)
    requires IsNumeral(s)
    ensures RunValue(s) == PatternNumber(s) == Value(s) && Value(s) > 0
    ensures DetectedNumber(s) == Some(Value(s)) <==> NoAdjacentDigits(s)
  {
    NormaliserReads(s);
    PatternsRead(s);
    DetectorReads(s);
    ValueIsPositive(s);
    OverwrittenIffAdjacent(s, |s|);
  }

  /** Such a numeral is 二一, which the detector reads as 3 and the other two as 1. */
  lemma ReadersDisagree()
    ensures RunValue("二一") == PatternNumber("二一") == 1 && DetectedNumber("二一") == Some(3)
  {
    var s := "二一";
    assert s[..1] == "二" && s[..1][..0] == "" && s[..0] == "";
    NormaliserReads(s);
    PatternsRead(s);
    DetectorReads(s);
    assert Settled(s[..1]) == 0 && Overwritten(s, 1) == 2;
  }

  // ---------------------------------------------------------------- the numerals of statutes

  function DigitKanji(d: nat): (c: char)
    requires 0 < d < 10
    ensures DigitValue(c) == d
  {
    ['一', '二', '三', '四', '五', '六', '七', '八', '九'][d - 1]
  }

  /** d units: nothing for 0, the unit alone for 1. */
  function Place(d: nat, unit: char): string
    requires d < 10
  {
    if d == 0 then "" else if d == 1 then [unit] else [DigitKanji(d), unit]
  }

  function Ones(d: nat): string
    requires d < 10
  {
    if d == 0 then "" else [DigitKanji(d)]
  }

  /** The usual way to write a number below ten thousand. */
  function Written(n: nat): string
    requires n < 10000
  {
    Place(n / 1000, '千') + Place(n / 100 % 10, '百') + Place(n / 10 % 10, '十') + Ones(n % 10)
  }

  ghost predicate Complete(s: string, n: nat) {
    && (s == "" || (IsNumeral(s) && NoAdjacentDigits(s)))
    && Settled(s) == n && Trailing(s) == 0
  }

  lemma UnitAppended(s: string, unit: char)
    requires IsUnit(unit) && (s == "" || (IsNumeral(s) && NoAdjacentDigits(s)))
    ensures Complete(s + [unit], Settled(s) + (if Trailing(s) > 0 then Trailing(s) else 1) * UnitValue(unit))
  {
    var t := s + [unit];
    assert t[..|t| - 1] == s && t[|t| - 1] == unit;
    assert Settled(t) == Settled(s) + (if Trailing(s) > 0 then Trailing(s) else 1) * UnitValue(unit);
    hide Settled;
    assert IsNumeral(t) && NoAdjacentDigits(t) && Trailing(t) == 0;
  }

  lemma DigitAppended(s: string, n: nat, c: char)
    requires Complete(s, n) && IsDigit(c)
    ensures IsNumeral(s + [c]) && NoAdjacentDigits(s + [c])
    ensures Settled(s + [c]) == n && Trailing(s + [c]) == DigitValue(c)
  {
    assert (s + [c])[..|s|] == s;
  }

  lemma PlaceAppended(s: string, n: nat, d: nat, unit: char)
    requires d < 10 && IsUnit(unit) && Complete(s, n)
    ensures Complete(s + Place(d, unit), n + d * UnitValue(unit))
  {
    hide Settled;
    if d == 0 {
      assert s + Place(d, unit) == s;
    } else if d == 1 {
      UnitAppended(s, unit);
      hide Complete;
      assert Complete(s + Place(d, unit), n + d * UnitValue(unit));
    } else {
      var t := s + [DigitKanji(d)];
      DigitAppended(s, n, DigitKanji(d));
      UnitAppended(t, unit);
      hide Complete;
      assert s + Place(d, unit) == t + [unit];
      assert Complete(t + [unit], n + d * UnitValue(unit));
    }
  }

  lemma PlacesOf(n: nat)
    requires n < 10000
    ensures n == 1000 * (n / 1000) + 100 * (n / 100 % 10) + 10 * (n / 10 % 10) + n % 10
  {
    assert n / 100 == 10 * (n / 1000) + n / 100 % 10;
    assert n / 10 == 10 * (n / 100) + n / 10 % 10;
  }

  lemma OnesAppended(s: string, n: nat, d: nat)
    requires d < 10 && Complete(s, n) && n + d > 0
    ensures IsNumeral(s + Ones(d)) && NoAdjacentDigits(s + Ones(d)) && Value(s + Ones(d)) == n + d
  {
    if d > 0 {
      DigitAppended(s, n, DigitKanji(d));
    } else {
      assert s + Ones(d) == s && s != "";
    }
  }

  lemma {:induction false} PlacesDenote(a: nat, b: nat, c: nat, d: nat)
    requires a < 10 && b < 10 && c < 10 && d < 10 && a + b + c + d > 0
    ensures var s := Place(a, '千') + Place(b, '百') + Place(c, '十') + Ones(d);
      IsNumeral(s) && NoAdjacentDigits(s) && Value(s) == 1000 * a + 100 * b + 10 * c + d
  {
    var s1 := Place(a, '千');
    var s2 := s1 + Place(b, '百');
    var s3 := s2 + Place(c, '十');
    assert "" + s1 == s1 && Complete("", 0);
    hide Complete;
    hide Place;
    hide Settled;
    PlaceAppended("", 0, a, '千');
    PlaceAppended(s1, 1000 * a, b, '百');
    PlaceAppended(s2, 1000 * a + 100 * b, c, '十');
    OnesAppended(s3, 1000 * a + 100 * b + 10 * c, d);
    hide *;
  }

  lemma WrittenDenotes(n: nat)
    requires 0 < n < 10000
    ensures IsNumeral(Written(n)) && NoAdjacentDigits(Written(n)) && Value(Written(n)) == n
  {
    PlacesOf(n);
    PlacesDenote(n / 1000, n / 100 % 10, n / 10 % 10, n % 10);
  }

  /** All three readers give back every number from 1 to 9999 from the way it is written. */
  lemma WrittenIsRead(n: nat)
    requires 0 < n < 10000
    ensures RunValue(Written(n)) == n && PatternNumber(Written(n)) == n && DetectedNumber(Written(n)) == Some(n)
  {
    WrittenDenotes(n);
    ThreeReadersAgree(Written(n));
  }
}
