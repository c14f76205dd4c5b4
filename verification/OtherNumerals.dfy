/** How the three readers take strings that are not plain numerals: 万, 〇 and 零, and other characters. */
module OtherNumerals {
  import opened Wrappers
  import opened Numerals
  import opened NumeralTheorems

  predicate IsPart(s: string) {
    s == "" || IsNumeral(s)
  }

  // ---------------------------------------------------------------- 万

  lemma {:induction false} RunContinues(a: string, b: string)
    requires RunState(a).1 == 0
    ensures RunState(a + b) == (RunState(a).0 + RunState(b).0, RunState(b).1)
  {
    if b == "" {
      assert a + b == a;
    } else {
      var front, c := b[..|b| - 1], b[|b| - 1];
      RunContinues(a, front);
      assert (a + b)[..|a + b| - 1] == a + front && (a + b)[|a + b| - 1] == c;
      assert RunState(a + b) == StepOf(RunState(a + front), c);
      assert RunState(b) == StepOf(RunState(front), c);
      hide RunState;
    }
  }

  /** One character of the normaliser's loop. */
  function StepOf(state: (nat, nat), c: char): (nat, nat) {
    if KanjiDigit(c).Some? then (state.0, KanjiDigit(c).value)
    else if KanjiUnit(c).Some? then (state.0 + (if state.1 == 0 then 1 else state.1) * KanjiUnit(c).value, 0)
    else state
  }

  lemma {:induction false} PatternContinues(a: string, b: string)
    requires PatternState(a).temp == 0 && PatternState(a).currentDigit == 0 && IsPart(b)
    ensures PatternState(a + b) == Accumulators(PatternState(a).result, Settled(b), Trailing(b))
  {
    if b == "" {
      assert a + b == a;
    } else {
      var front, c := b[..|b| - 1], b[|b| - 1];
      PatternContinues(a, front);
      assert (a + b)[..|a + b| - 1] == a + front && (a + b)[|a + b| - 1] == c;
      hide PatternState;
    }
  }

  /** The normaliser multiplies only the last digit before 万 by ten thousand, the pattern table all that precedes it. */
  lemma MyriadIsRead(s: string, t: string)
    requires IsNumeral(s) && IsPart(t)
    ensures RunValue(s + "万" + t) == Settled(s) + (if Trailing(s) > 0 then Trailing(s) else 1) * 10000 + Value(t)
    ensures PatternNumber(s + "万" + t) == Value(s) * 10000 + Value(t)
  {
    var a := s + "万";
    assert a[..|a| - 1] == s && a[|a| - 1] == '万';
    NormaliserReads(s);
    NormaliserReads(t);
    RunContinues(a, t);
    PatternLoopReads(s);
    PatternContinues(a, t);
    NotInTable(s, t);
    hide Settled;
  }

  lemma NotInTable(s: string, t: string)
    requires IsNumeral(s)
    ensures s + "万" + t !in KANJI_NUMBER_MAP
  {
    var w := s + "万" + t;
    assert w[|s|] == '万' && |s| > 0;
  }

  // ---------------------------------------------------------------- the detector on any text

  /** A character that is neither a digit nor a unit separates two numbers, which are added. */
  lemma {:induction false} OthersSeparate(s: string, c: char, t: string, n: nat)
    requires KanjiDigit(c).None? && !IsUnit(c) && n <= |s| + 1 + |t|
    ensures ContributionsUpTo(s + [c] + t, n) ==
      if n <= |s| then ContributionsUpTo(s, n)
      else ContributionsUpTo(s, |s|) + ContributionsUpTo(t, n - |s| - 1)
  {
    if n > 0 {
      var w := s + [c] + t;
      OthersSeparate(s, c, t, n - 1);
      if n <= |s| {
        assert w[n - 1] == s[n - 1] && (n > 1 ==> w[n - 2] == s[n - 2]);
        assert n < |s| ==> w[n] == s[n];
      } else if n > |s| + 1 {
        var i := n - |s| - 2;
        assert w[n - 1] == t[i] && (i > 0 ==> w[n - 2] == t[i - 1]) && (i + 1 < |t| ==> w[n] == t[i + 1]);
      }
    }
  }

  /** The detector passes over 万: the numbers before and after it are added. */
  lemma {:induction false} DetectorSkipsMyriad(s: string, t: string)
    requires IsNumeral(s) && IsPart(t)
    ensures DetectedNumber(s + "万" + t) ==
      Some(Value(s) + Overwritten(s, |s|) + (if t == "" then 0 else Value(t) + Overwritten(t, |t|)))
  {
    var w := s + "万" + t;
    OthersSeparate(s, '万', t, |w|);
    ContributionsRead(s, |s|);
    ValueIsPositive(s);
    assert s[..|s|] == s;
    if t != "" {
      ContributionsRead(t, |t|);
      assert t[..|t|] == t;
    }
  }

  /** The detector answers 0 for a zero alone, and nothing else is 0. */
  lemma DetectorZeroIff(s: string)
    ensures DetectedNumber(s) == Some(0) <==> s == "〇" || s == "零"
  {
    if |s| == 1 { assert s == [s[0]]; }
  }

  /** A digit, or a unit that does not follow a zero. */
  predicate Counts(s: string, i: nat)
    requires i < |s|
  {
    IsDigit(s[i]) || (IsUnit(s[i]) && !(i > 0 && IsZero(s[i - 1])))
  }

  lemma {:induction false} NothingCounts(s: string, n: nat)
    requires n <= |s| && forall i :: 0 <= i < |s| ==> !Counts(s, i)
    ensures ContributionsUpTo(s, n) == 0
  {
    if n > 0 {
      NothingCounts(s, n - 1);
      assert !Counts(s, n - 1);
      if IsUnit(s[n - 1]) { assert KanjiDigit(s[n - 2]) == Some(0); }
    }
  }

  lemma {:induction false} SomethingCounts(s: string, i: nat)
    requires i < |s| && Counts(s, i)
    ensures ContributionsUpTo(s, |s|) > 0
  {
    ContributionsGrow(s, i + 1, |s|);
    if Contribution(s, i) == 0 {
      assert Contribution(s, i + 1) > 0;
      ContributionsGrow(s, i + 2, |s|);
      assert ContributionsUpTo(s, i + 2) == ContributionsUpTo(s, i + 1) + Contribution(s, i + 1);
    } else {
      assert ContributionsUpTo(s, i + 1) == ContributionsUpTo(s, i) + Contribution(s, i);
    }
  }

  /** The detector has no answer exactly when nothing in the text counts, unless the text is a zero alone. */
  lemma DetectorNothingIff(s: string)
    ensures DetectedNumber(s) == None <==> (forall i :: 0 <= i < |s| ==> !Counts(s, i)) && s != "〇" && s != "零"
  {
    if i :| 0 <= i < |s| && Counts(s, i) {
      SomethingCounts(s, i);
    } else {
      NothingCounts(s, |s|);
    }
    if |s| == 1 { assert s == [s[0]]; }
  }

  // ---------------------------------------------------------------- 〇 and 零

  /** A zero at the end: the normaliser forgets the digit before it, ... */
  lemma ZeroForgets(s: string, zero: char)
    requires IsNumeral(s) && zero in "〇零"
    ensures RunValue(s + [zero]) == Settled(s)
  {
    var w := s + [zero];
    assert w[..|w| - 1] == s && w[|w| - 1] == zero;
    NormaliserReads(s);
    hide Settled;
  }

  /** ... the pattern table passes over it, ... */
  lemma ZeroIsSkipped(s: string, zero: char)
    requires IsNumeral(s) && zero in "〇零"
    ensures PatternNumber(s + [zero]) == Value(s)
  {
    var w := s + [zero];
    assert w[..|w| - 1] == s && w[|w| - 1] == zero;
    PatternLoopReads(s);
    ZeroNotInTable(s, zero);
    hide Settled;
  }

  lemma ZeroSum(s: string, zero: char)
    requires zero in "〇零"
    ensures ContributionsUpTo(s + [zero], |s| + 1) == ContributionsUpTo(s, |s|)
  {
    var w := s + [zero];
    ZeroContributes(s, zero, |s|);
    assert w[|s|] == zero && Contribution(w, |s|) == 0;
    hide Contribution;
  }

  /** ... and so does the detector. */
  lemma ZeroAddsNothing(s: string, zero: char)
    requires IsNumeral(s) && zero in "〇零"
    ensures DetectedNumber(s + [zero]) == Some(Value(s) + Overwritten(s, |s|))
  {
    ZeroSum(s, zero);
    assert s[..|s|] == s;
    hide Contribution;
    hide ContributionsUpTo;
    ContributionsRead(s, |s|);
    ValueIsPositive(s);
    hide Settled;
    hide Overwritten;
  }

  lemma ZeroNotInTable(s: string, zero: char)
    requires IsNumeral(s) && zero in "〇零"
    ensures s + [zero] !in KANJI_NUMBER_MAP
  {
    assert (s + [zero])[|s|] == zero;
  }

  lemma {:induction false} ZeroContributes(s: string, zero: char, n: nat)
    requires zero in "〇零" && n <= |s|
    ensures ContributionsUpTo(s + [zero], n) == ContributionsUpTo(s, n)
  {
    if n > 0 {
      var w := s + [zero];
      ZeroContributes(s, zero, n - 1);
      assert w[n - 1] == s[n - 1] && (n > 1 ==> w[n - 2] == s[n - 2]) && (n < |s| ==> w[n] == s[n]);
    }
  }
}
