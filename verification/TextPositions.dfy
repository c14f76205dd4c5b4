/** Line and column of an offset (src/services/enhanced-detector.ts); offsets past the end of the text are allowed. */
module TextPositions {
  datatype Position = Position(line: nat, column: int)

  // ---------------------------------------------------------------- the two library calls, on a newline

  function Split(text: string): (lines: seq<string>)
    ensures |lines| > 0
  {
    if text == [] then [""]
    else
      var lines, c := Split(text[..|text| - 1]), text[|text| - 1];
      if c == '\n' then lines + [""] else lines[|lines| - 1 := lines[|lines| - 1] + [c]]
  }

  function LastNewline(text: string): int {
    if text == [] then -1
    else if text[|text| - 1] == '\n' then |text| - 1
    else LastNewline(text[..|text| - 1])
  }

  function Before(text: string, offset: nat): string {
    text[..if offset < |text| then offset else |text|]
  }

  function PositionOf(text: string, offset: nat): Position {
    var before := Before(text, offset);
    var newline := LastNewline(before);
    Position(|Split(before)|, if newline == -1 then offset + 1 else offset - newline)
  }

  // ---------------------------------------------------------------- where the lines of the text start

  function LineStarts(text: string): (starts: seq<nat>)
    ensures |starts| > 0 && starts[0] == 0
    ensures forall i :: 0 <= i < |starts| ==> starts[i] <= |text|
    ensures forall i, j :: 0 <= i < j < |starts| ==> starts[i] < starts[j]
  {
    if text == [] then [0]
    else
      var starts := LineStarts(text[..|text| - 1]);
      if text[|text| - 1] == '\n' then starts + [|text|] else starts
  }

  /** Lines start at 0 and after each newline, and nowhere else. */
  lemma {:induction false} LinesStartAfterNewlines(text: string, k: nat)
    requires k <= |text|
    ensures k in LineStarts(text) <==> k == 0 || text[k - 1] == '\n'
  {
    if text != [] {
      var front := text[..|text| - 1];
      if k < |text| { LinesStartAfterNewlines(front, k); }
    }
  }

  /** Reading on adds later lines and leaves the earlier ones alone. */
  lemma {:induction false} LineStartsGrow(text: string, k: nat)
    requires k <= |text|
    ensures LineStarts(text[..k]) <= LineStarts(text)
    ensures forall i :: |LineStarts(text[..k])| <= i < |LineStarts(text)| ==> LineStarts(text)[i] > k
  {
    if k == |text| {
      assert text[..k] == text;
    } else {
      var front := text[..|text| - 1];
      assert front[..k] == text[..k];
      LineStartsGrow(front, k);
    }
  }

  lemma {:induction false} LastLineStart(text: string)
    ensures |Split(text)| == |LineStarts(text)|
    ensures LastNewline(text) + 1 == LineStarts(text)[|LineStarts(text)| - 1]
  {
    if text != [] {
      LastLineStart(text[..|text| - 1]);
    }
  }

  /** The offset lies in the line named, at the column named: `line` and `column` count from 1. */
  ghost predicate Locates(text: string, offset: nat, p: Position) {
    var starts := LineStarts(text);
    && 1 <= p.line <= |starts|
    && 1 <= p.column
    && offset == starts[p.line - 1] + p.column - 1
    && (p.line < |starts| ==> offset < starts[p.line])
  }

  lemma PositionLocates(text: string, offset: nat)
    ensures Locates(text, offset, PositionOf(text, offset))
  {
    var k := if offset < |text| then offset else |text|;
    LineStartsGrow(text, k);
    LastLineStart(text[..k]);
  }

  lemma LaterLinesFollow(text: string, a: nat, p: Position, b: nat, q: Position)
    requires Locates(text, a, p) && Locates(text, b, q) && p.line < q.line
    ensures a < b
  {
    var starts := LineStarts(text);
    assert starts[p.line] <= starts[q.line - 1];
  }

  /** The offset fixes its line and column, and they fix the offset: `PositionOf` is the only one that locates it. */
  lemma PositionIsUnique(text: string, offset: nat, p: Position)
    ensures Locates(text, offset, p) <==> p == PositionOf(text, offset)
  {
    PositionLocates(text, offset);
    var q := PositionOf(text, offset);
    if Locates(text, offset, p) {
      if p.line < q.line { LaterLinesFollow(text, offset, p, offset, q); }
      if q.line < p.line { LaterLinesFollow(text, offset, q, offset, p); }
    }
  }

  predicate Precedes(p: Position, q: Position) {
    p.line < q.line || (p.line == q.line && p.column < q.column)
  }

  /** Positions are ordered as the offsets are, so no two offsets share one. */
  lemma PositionsFollowOffsets(text: string, a: nat, b: nat)
    ensures a < b <==> Precedes(PositionOf(text, a), PositionOf(text, b))
    ensures a == b <==> PositionOf(text, a) == PositionOf(text, b)
  {
    PositionLocates(text, a);
    PositionLocates(text, b);
    var p, q := PositionOf(text, a), PositionOf(text, b);
    if p.line < q.line { LaterLinesFollow(text, a, p, b, q); }
    if q.line < p.line { LaterLinesFollow(text, b, q, a, p); }
  }
}
