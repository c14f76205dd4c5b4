/** Decimal notation: JavaScript's `toString` and `parseInt(_, 10)` on the integers this system writes and reads. */
module Decimals {

  predicate IsDigit(c: char) {
    '0' <= c <= '9'
  }

  predicate AllDigits(s: string) {
    forall i :: 0 <= i < |s| ==> IsDigit(s[i])
  }

  /** A non-empty run of digits. */
  predicate IsNumeral(s: string) {
    s != "" && AllDigits(s)
  }

  /** A numeral without leading zeros. */
  predicate IsCanonical(s: string) {
    IsNumeral(s) && (s[0] == '0' ==> |s| == 1)
  }

  function Digit(d: nat): (c: char)
    requires d < 10
    ensures IsDigit(c) && DigitValue(c) == d
  {
    (48 + d) as char
  }

  function DigitValue(c: char): (d: nat)
    requires IsDigit(c)
    ensures d < 10
  {
    c as int - 48
  }

  function ToDecimal(n: nat): (s: string)
    ensures IsNumeral(s)
  {
    if n < 10 then [Digit(n)] else ToDecimal(n / 10) + [Digit(n % 10)]
  }

  /** The ten digits, in their order. */
  lemma DigitsSpelled(d: nat)
    requires d < 10
    ensures ToDecimal(d) == ["0123456789"[d]]
  {
  }

  function IntToString(n: int): string {
    if n < 0 then "-" + ToDecimal(-n) else ToDecimal(n)
  }

  function ParseDecimal(s: string): nat
    requires AllDigits(s)
  {
    if s == "" then 0
    else 10 * ParseDecimal(s[..|s| - 1]) + DigitValue(s[|s| - 1])
  }

  /** What is printed reads back, and is canonical. */
  lemma {:induction false} PrintThenParse(n: nat)
    ensures ParseDecimal(ToDecimal(n)) == n
    ensures IsCanonical(ToDecimal(n)) && (n > 0 ==> ToDecimal(n)[0] != '0')
  {
    if n >= 10 {
      PrintThenParse(n / 10);
      var s := ToDecimal(n);
      assert s[..|s| - 1] == ToDecimal(n / 10);
    }
  }

  /** A canonical numeral is what its value prints as. */
  lemma {:induction false} ParseThenPrint(s: string)
    requires IsCanonical(s)
    ensures ToDecimal(ParseDecimal(s)) == s
    ensures s[0] != '0' ==> ParseDecimal(s) > 0
  {
    var front, last := s[..|s| - 1], s[|s| - 1];
    assert s == front + [last];
    if front == "" {
      assert ParseDecimal(front) == 0;
      assert [Digit(DigitValue(last))] == [last];
    } else {
      assert front[0] == s[0];
      ParseThenPrint(front);
    }
  }

  lemma DistinctPrints(m: nat, n: nat)
    requires ToDecimal(m) == ToDecimal(n)
    ensures m == n
  {
    PrintThenParse(m);
    PrintThenParse(n);
  }

  /** The longest prefix of digits. */
  function DigitRun(s: string): (r: string)
    ensures AllDigits(r) && r <= s
    ensures |r| < |s| ==> !IsDigit(s[|r|])
  {
    if s != "" && IsDigit(s[0]) then [s[0]] + DigitRun(s[1..]) else ""
  }

  /** A run of digits before anything else is found whole. */
  lemma {:induction false} DigitRunOf(d: string, rest: string)
    requires AllDigits(d) && (rest != "" ==> !IsDigit(rest[0]))
    ensures DigitRun(d + rest) == d
  {
    if d == "" {
      assert d + rest == rest;
    } else {
      assert (d + rest)[1..] == d[1..] + rest;
      DigitRunOf(d[1..], rest);
    }
  }
}
