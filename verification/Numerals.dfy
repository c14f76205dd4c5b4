/** Kanji numerals and the three loops of the repository that read them. */
module Numerals {
  import opened Wrappers

  /** 一 to 九 as 1 to 9; 0 for every other character. */
  function DigitValue(c: char): (d: nat)
    ensures d <= 9
  {
    if c == '一' then 1 else if c == '二' then 2 else if c == '三' then 3
    else if c == '四' then 4 else if c == '五' then 5 else if c == '六' then 6
    else if c == '七' then 7 else if c == '八' then 8 else if c == '九' then 9
    else 0
  }

  predicate IsDigit(c: char) {
    DigitValue(c) > 0
  }

  predicate IsZero(c: char) {
    c == '〇' || c == '零'
  }

  /** 十, 百 and 千; 0 for every other character. */
  function UnitValue(c: char): nat {
    if c == '十' then 10 else if c == '百' then 100 else if c == '千' then 1000 else 0
  }

  predicate IsUnit(c: char) {
    UnitValue(c) > 0
  }

  /** Digits one to nine and the three units. */
  predicate IsNumeral(s: string) {
    s != "" && forall i :: 0 <= i < |s| ==> IsDigit(s[i]) || IsUnit(s[i])
  }

  predicate NoAdjacentDigits(s: string) {
    forall i :: 0 <= i < |s| - 1 ==> !(IsDigit(s[i]) && IsDigit(s[i + 1]))
  }

  /** The digit at the end of s, or 0. */
  function Trailing(s: string): nat {
    if s == "" then 0 else DigitValue(s[|s| - 1])
  }

  /** The sum, over the units of s, of the digit right before the unit (or 1) times the unit. */
  function Settled(s: string): nat {
    if s == "" then 0
    else
      var front, c := s[..|s| - 1], s[|s| - 1];
      if IsUnit(c) then Settled(front) + (if Trailing(front) > 0 then Trailing(front) else 1) * UnitValue(c)
      else Settled(front)
  }

  /** What a numeral denotes: its multiplied units plus a closing digit. */
  function Value(s: string): nat {
    Settled(s) + Trailing(s)
  }

  // ---------------------------------------------------------------- src/utils/article-normalizer.ts

  /** 〇 and 零 as 0, 一 to 九; None for every other character. */
  function KanjiDigit(c: char): Option<nat> {
    if IsZero(c) then Some(0) else if IsDigit(c) then Some(DigitValue(c)) else None
  }

  function KanjiUnit(c: char): Option<nat> {
    if c == '万' then Some(10000) else if IsUnit(c) then Some(UnitValue(c)) else None
  }

  /** The accumulators of the normaliser's loop after s. */
  function RunState(s: string): (nat, nat) {
    if s == "" then (0, 0)
    else
      var (result, current) := RunState(s[..|s| - 1]);
      var c := s[|s| - 1];
      if KanjiDigit(c).Some? then (result, KanjiDigit(c).value)
      else if KanjiUnit(c).Some? then (result + (if current == 0 then 1 else current) * KanjiUnit(c).value, 0)
      else (result, current)
  }

  function RunValue(s: string): nat {
    RunState(s).0 + RunState(s).1
  }

  method NormalizeRun(match': string) returns (n: nat)
    ensures n == RunValue(match')
  {
    var result, current, lastUnit := 0, 0, 1;
    for i := 0 to |match'|
      invariant (result, current) == RunState(match'[..i])
    {
      var char' := match'[i];
      assert match'[..i + 1][..i] == match'[..i];
      if KanjiDigit(char').Some? {
        current := KanjiDigit(char').value;
      } else if KanjiUnit(char').Some? {
        var unit := KanjiUnit(char').value;
        if current == 0 {
          current := 1;
        }
        result := result + current * unit;
        current := 0;
        lastUnit := unit;
      }
    }
    assert match'[..|match'|] == match';
    n := result + current;
  }

  // ---------------------------------------------------------------- scripts/reference-patterns.ts

  const KANJI_NUMBER_MAP: map<string, nat> := map[
    "一" := 1, "二" := 2, "三" := 3, "四" := 4, "五" := 5, "六" := 6, "七" := 7, "八" := 8, "九" := 9, "十" := 10,
    "十一" := 11, "十二" := 12, "十三" := 13, "十四" := 14, "十五" := 15,
    "十六" := 16, "十七" := 17, "十八" := 18, "十九" := 19, "二十" := 20,
    "三十" := 30, "四十" := 40, "五十" := 50, "六十" := 60, "七十" := 70,
    "八十" := 80, "九十" := 90, "百" := 100, "千" := 1000, "万" := 10000]

  /** The entry of a single character, 0 when there is none. */
  function CharValue(c: char): nat {
    if IsDigit(c) then DigitValue(c) else if IsUnit(c) then UnitValue(c) else if c == '万' then 10000 else 0
  }

  datatype Accumulators = Accumulators(result: nat, temp: nat, currentDigit: nat)

  function PatternStep(a: Accumulators, c: char): Accumulators {
    var value := CharValue(c);
    if value == 0 then a
    else if value >= 10000 then Accumulators(a.result + (a.temp + a.currentDigit) * value, 0, 0)
    else if value >= 10 then
      Accumulators(a.result, a.temp + (if a.currentDigit == 0 then 1 else a.currentDigit) * value, 0)
    else Accumulators(a.result, a.temp, value)
  }

  function PatternState(s: string): Accumulators {
    if s == "" then Accumulators(0, 0, 0) else PatternStep(PatternState(s[..|s| - 1]), s[|s| - 1])
  }

  function PatternNumber(s: string): nat {
    if s in KANJI_NUMBER_MAP then KANJI_NUMBER_MAP[s]
    else
      var a := PatternState(s);
      a.result + a.temp + a.currentDigit
  }

  method PatternKanjiToNumber(kanji: string) returns (n: nat)
    ensures n == PatternNumber(kanji)
  {
    if kanji in KANJI_NUMBER_MAP {
      return KANJI_NUMBER_MAP[kanji];
    }
    var result, temp, currentDigit := 0, 0, 0;
    for i := 0 to |kanji|
      invariant Accumulators(result, temp, currentDigit) == PatternState(kanji[..i])
    {
      var value := CharValue(kanji[i]);
      assert kanji[..i + 1][..i] == kanji[..i];
      if value == 0 {
        continue;
      }
      if value >= 10000 {
        result := result + (temp + currentDigit) * value;
        temp := 0;
        currentDigit := 0;
      } else if value >= 10 {
        if currentDigit == 0 { currentDigit := 1; }
        temp := temp + currentDigit * value;
        currentDigit := 0;
      } else {
        currentDigit := value;
      }
    }
    assert kanji[..|kanji|] == kanji;
    n := result + temp + currentDigit;
  }

  // ---------------------------------------------------------------- scripts/detector.ts

  /** What the character at position i adds, looking one character back and one ahead. */
  function Contribution(s: string, i: nat): nat
    requires i < |s|
  {
    var c := s[i];
    if IsUnit(c) then
      if i > 0 && KanjiDigit(s[i - 1]).Some? then KanjiDigit(s[i - 1]).value * UnitValue(c) else UnitValue(c)
    else if KanjiDigit(c).Some? then
      if i + 1 < |s| && IsUnit(s[i + 1]) then 0 else KanjiDigit(c).value
    else 0
  }

  function ContributionsUpTo(s: string, n: nat): nat
    requires n <= |s|
  {
    if n == 0 then 0 else ContributionsUpTo(s, n - 1) + Contribution(s, n - 1)
  }

  function DetectedNumber(s: string): Option<nat> {
    if s == "" then None
    else if |s| == 1 && KanjiDigit(s[0]).Some? then KanjiDigit(s[0])
    else if ContributionsUpTo(s, |s|) > 0 then Some(ContributionsUpTo(s, |s|))
    else None
  }

  function Concat(pieces: seq<string>): string {
    if pieces == [] then "" else pieces[0] + Concat(pieces[1..])
  }

  /** The seven optional pieces of the fallback pattern: a digit, 千, a digit, 百, a digit, 十, a digit. */
  predicate FallbackPiece(i: nat, piece: string) {
    piece == ""
    || (|piece| == 1
        && if i == 1 then piece[0] == '千'
           else if i == 3 then piece[0] == '百'
           else if i == 5 then piece[0] == '十'
           else IsDigit(piece[0]))
  }

  ghost predicate FallbackMatches(s: string) {
    exists pieces: seq<string> ::
      |pieces| == 7 && (forall i :: 0 <= i < 7 ==> FallbackPiece(i, pieces[i])) && s == Concat(pieces)
  }

  /** Nothing, or a text that starts with a digit or a unit. */
  predicate StartsNumeral(s: string) {
    s == "" || IsDigit(s[0]) || IsUnit(s[0])
  }

  lemma {:induction false} ConcatStarts(pieces: seq<string>)
    requires forall i :: 0 <= i < |pieces| ==> StartsNumeral(pieces[i])
    ensures StartsNumeral(Concat(pieces))
  {
    if pieces != [] {
      ConcatStarts(pieces[1..]);
      assert StartsNumeral(pieces[0]);
    }
  }

  /** A digit or a unit stands at the front of what the pattern matches. */
  lemma FallbackStarts(s: string)
    requires FallbackMatches(s)
    ensures StartsNumeral(s)
  {
    var pieces :| |pieces| == 7 && (forall i :: 0 <= i < 7 ==> FallbackPiece(i, pieces[i])) && s == Concat(pieces);
    hide Concat;
    forall i | 0 <= i < 7 ensures StartsNumeral(pieces[i]) { assert FallbackPiece(i, pieces[i]); }
    ConcatStarts(pieces);
  }

  lemma {:induction false} ContributionsGrow(s: string, m: nat, n: nat)
    requires m <= n <= |s|
    ensures ContributionsUpTo(s, m) <= ContributionsUpTo(s, n)
  {
    if m < n { ContributionsGrow(s, m, n - 1); }
  }

  /** A text that starts with a digit or a unit adds up to something. */
  lemma {:induction false} FirstCounts(s: string)
    requires s != "" && (IsDigit(s[0]) || IsUnit(s[0]))
    ensures ContributionsUpTo(s, |s|) > 0
  {
    ContributionsGrow(s, 1, |s|);
    assert ContributionsUpTo(s, 1) == Contribution(s, 0);
    if |s| > 1 {
      ContributionsGrow(s, 2, |s|);
      assert ContributionsUpTo(s, 2) == Contribution(s, 0) + Contribution(s, 1);
    }
  }

  /** The fallback for a zero result can never match: it is dead code on every text. */
  lemma FallbackIsDead(s: string)
    requires s != "" && ContributionsUpTo(s, |s|) == 0
    ensures !FallbackMatches(s)
  {
    if IsDigit(s[0]) || IsUnit(s[0]) {
      FirstCounts(s);
    }
    if FallbackMatches(s) {
      FallbackStarts(s);
    }
    hide FallbackMatches;
    assert !FallbackMatches(s);
  }

  method DetectorKanjiToNumber(text: string) returns (r: Option<nat>)
    ensures r == DetectedNumber(text)
  {
    if |text| == 0 { return None; }
    if |text| == 1 && KanjiDigit(text[0]).Some? { return KanjiDigit(text[0]); }
    var result := 0;
    var i := 0;
    while i < |text|
      invariant i <= |text| && result == ContributionsUpTo(text, i)
    {
      var char' := text[i];
      if char' == '千' {
        if i == 0 {
          result := result + 1000;
        } else {
          var prevChar := text[i - 1];
          if KanjiDigit(prevChar).Some? {
            result := result + KanjiDigit(prevChar).value * 1000;
          } else {
            result := result + 1000;
          }
        }
      } else if char' == '百' {
        if i == 0 || IsUnit(text[i - 1]) {
          result := result + 100;
        } else {
          var prevChar := text[i - 1];
          if KanjiDigit(prevChar).Some? {
            result := result + KanjiDigit(prevChar).value * 100;
          } else {
            result := result + 100;
          }
        }
      } else if char' == '十' {
        if i == 0 || IsUnit(text[i - 1]) {
          result := result + 10;
        } else {
          var prevChar := text[i - 1];
          if KanjiDigit(prevChar).Some? {
            result := result + KanjiDigit(prevChar).value * 10;
          } else {
            result := result + 10;
          }
        }
      } else if KanjiDigit(char').Some? {
        if i + 1 < |text| {
          var nextChar := text[i + 1];
          if !IsUnit(nextChar) {
            result := result + KanjiDigit(char').value;
          }
        } else {
          result := result + KanjiDigit(char').value;
        }
      }
      i := i + 1;
    }
    if result == 0 {
      // The fallback runs only when its pattern matches, which it never does here.
      FallbackIsDead(text);
      return None;
    }
    return Some(result);
  }
}
