/**
 * The text helper of `getTextHelper`: conversion between offsets and
 * (1-based line, 0-based column) pairs, the convention source maps use, and
 * slicing between two positions of either kind.
 */
module TextHelper {
  import opened Js

  datatype LineCol = LineCol(line: int, column: int)

  /** A position given either as an offset or as a line/column pair. */
  datatype Pos = Offset(offset: int) | At(lc: LineCol)

  /** `text.split("\n")`, captured once per helper. */
  function Lines(text: string): seq<string> {
    Split(text, '\n')
  }

  /** The reduce `(acc, line) => acc + line.length + 1` over some lines. */
  function SumLines(ls: seq<string>): nat
  {
    if |ls| == 0 then 0 else SumLines(ls[..|ls| - 1]) + |ls[|ls| - 1]| + 1
  }

  /** `getPositionOfLineAndColmn(line, column)`: `lines.slice(0, line - 1)` summed, plus the column. */
  function PositionOf(lines: seq<string>, line: int, column: int): int
  {
    SumLines(Slice(lines, 0, line - 1)) + column
  }

  /** A pair that names a character of the text, or the end of its line. */
  predicate ValidLineCol(lines: seq<string>, lc: LineCol) {
    1 <= lc.line <= |lines| && 0 <= lc.column <= |lines[lc.line - 1]|
  }

  lemma {:induction false} JoinLength(ls: seq<string>)
    requires |ls| >= 1
    ensures |Join(ls, "\n")| + 1 == SumLines(ls)
  {
    if |ls| > 1 {
      JoinLength(ls[..|ls| - 1]);
    }
  }

  /** The lines of a text account for all of it: the lengths plus one newline each, minus one. */
  lemma LinesTotal(text: string)
    ensures SumLines(Lines(text)) == |text| + 1
  {
    JoinSplit(text, '\n');
    JoinLength(Lines(text));
  }

  lemma {:induction false} SumLinesGrows(ls: seq<string>, i: nat, j: nat)
    requires i < j <= |ls|
    ensures SumLines(ls[..j]) >= SumLines(ls[..i]) + |ls[i]| + 1
  {
    assert ls[..j][..j - 1] == ls[..j - 1];
    if j > i + 1 {
      SumLinesGrows(ls, i, j - 1);
    } else {
      assert ls[..j][j - 1] == ls[i];
    }
  }

  /** Line 1 column c is offset c. */
  lemma FirstLinePosition(lines: seq<string>, column: int)
    ensures PositionOf(lines, 1, column) == column
  {
  }

  /** Each later line adds the previous line's length plus one. */
  lemma NextLinePosition(lines: seq<string>, line: int, column: int)
    requires 1 <= line <= |lines|
    ensures PositionOf(lines, line + 1, column) == PositionOf(lines, line, column) + |lines[line - 1]| + 1
  {
    assert lines[..line][..line - 1] == lines[..line - 1];
  }

  /** A pair on an earlier line names an earlier offset. */
  lemma EarlierLineEarlierPosition(lines: seq<string>, a: LineCol, b: LineCol)
    requires ValidLineCol(lines, a) && ValidLineCol(lines, b) && a.line < b.line
    ensures PositionOf(lines, a.line, a.column) < PositionOf(lines, b.line, b.column)
  {
    SumLinesGrows(lines, a.line - 1, b.line - 1);
  }

  /** Distinct valid pairs name distinct offsets. */
  lemma PositionInjective(lines: seq<string>, a: LineCol, b: LineCol)
    requires ValidLineCol(lines, a) && ValidLineCol(lines, b)
    requires PositionOf(lines, a.line, a.column) == PositionOf(lines, b.line, b.column)
    ensures a == b
  {
    if a.line < b.line {
      EarlierLineEarlierPosition(lines, a, b);
    } else if b.line < a.line {
      EarlierLineEarlierPosition(lines, b, a);
    }
  }

  /**
   * The pair `getLineAndColumnOfPosition` settles on when it reaches line
   * `k + 1` with `pos` still to go: the first line that holds `pos`, or line
   * `|lines| + 1`, column 1, once every line is used up.
   */
  function LineColFrom(lines: seq<string>, pos: int, k: nat): LineCol
    decreases |lines| - k
  {
    if k >= |lines| then LineCol(k + 1, 1)
    else if pos <= |lines[k]| then LineCol(k + 1, pos)
    else LineColFrom(lines, pos - (|lines[k]| + 1), k + 1)
  }

  /** The pair for offset `pos` of `text`. */
  function LineColAt(text: string, pos: int): LineCol
  {
    LineColFrom(Lines(text), pos, 0)
  }

  lemma SumLinesStep(lines: seq<string>, k: nat)
    requires k < |lines|
    ensures SumLines(lines[..k + 1]) == SumLines(lines[..k]) + |lines[k]| + 1
  {
    assert lines[..k + 1][..k] == lines[..k];
  }

  /** Within the text, the walk ends on a real character (or line end) at exactly that offset. */
  lemma {:induction false} LineColFromInText(lines: seq<string>, pos: int, k: nat)
    requires k <= |lines|
    requires 0 <= pos && SumLines(lines[..k]) + pos < SumLines(lines)
    ensures ValidLineCol(lines, LineColFrom(lines, pos, k))
    ensures PositionOf(lines, LineColFrom(lines, pos, k).line, LineColFrom(lines, pos, k).column) == SumLines(lines[..k]) + pos
    decreases |lines| - k
  {
    if k == |lines| {
      TakeAll(lines);
      assert false;
    } else if pos <= |lines[k]| {
      assert Slice(lines, 0, k) == lines[..k];
    } else {
      SumLinesStep(lines, k);
      LineColFromInText(lines, pos - (|lines[k]| + 1), k + 1);
    }
  }

  /** Past the end of the text, the walk falls off the last line. */
  lemma {:induction false} LineColFromPastEnd(lines: seq<string>, pos: int, k: nat)
    requires k <= |lines|
    requires SumLines(lines[..k]) + pos >= SumLines(lines)
    ensures LineColFrom(lines, pos, k) == LineCol(|lines| + 1, 1)
    decreases |lines| - k
  {
    if k < |lines| {
      SumLinesStep(lines, k);
      SumLinesGrows(lines, k, |lines|);
      assert lines[..|lines|] == lines;
      LineColFromPastEnd(lines, pos - (|lines[k]| + 1), k + 1);
    }
  }

  /** For every offset of the text, line and column lead back to the offset, and no other valid pair does. */
  lemma LineColAtRoundTrip(text: string, pos: int)
    requires 0 <= pos <= |text|
    ensures ValidLineCol(Lines(text), LineColAt(text, pos))
    ensures PositionOf(Lines(text), LineColAt(text, pos).line, LineColAt(text, pos).column) == pos
    ensures forall other: LineCol ::
      (ValidLineCol(Lines(text), other) && PositionOf(Lines(text), other.line, other.column) == pos)
      ==> other == LineColAt(text, pos)
  {
    var lines := Lines(text);
    LinesTotal(text);
    assert lines[..0] == [];
    LineColFromInText(lines, pos, 0);
    forall other: LineCol | ValidLineCol(lines, other) && PositionOf(lines, other.line, other.column) == pos
      ensures other == LineColAt(text, pos)
    {
      PositionInjective(lines, other, LineColAt(text, pos));
    }
  }

  /** Offsets outside the text: before it stays on line 1 with the offset as column, after it is line `|lines| + 1`, column 1. */
  lemma LineColAtOutside(text: string, pos: int)
    ensures pos < 0 ==> LineColAt(text, pos) == LineCol(1, pos)
    ensures pos > |text| ==> LineColAt(text, pos) == LineCol(|Lines(text)| + 1, 1)
  {
    if pos > |text| {
      LinesTotal(text);
      assert Lines(text)[..0] == [];
      LineColFromPastEnd(Lines(text), pos, 0);
    }
  }

  /**
   * `getLineAndColumnOfPosition(pos)`: walk the lines, subtracting each line's
   * length plus one, until the remaining offset fits on the current line.
   */
  method LineAndColumnOf(text: string, pos: int) returns (lc: LineCol)
    ensures lc == LineColAt(text, pos)
    ensures 0 <= pos <= |text| ==>
      ValidLineCol(Lines(text), lc) && PositionOf(Lines(text), lc.line, lc.column) == pos
    ensures pos < 0 ==> lc == LineCol(1, pos)
    ensures pos > |text| ==> lc == LineCol(|Lines(text)| + 1, 1)
  {
    var lines := Lines(text);
    var rest := pos;
    var line := 1;
    var column := 1;
    var k := 0;
    while k < |lines|
      invariant 0 <= k <= |lines|
      invariant line == k + 1 && column == 1
      invariant LineColFrom(lines, rest, k) == LineColFrom(lines, pos, 0)
    {
      if rest <= |lines[k]| {
        column := rest;
        break;
      }
      rest := rest - (|lines[k]| + 1);
      line := line + 1;
      k := k + 1;
    }
    lc := LineCol(line, column);
    if 0 <= pos <= |text| {
      LineColAtRoundTrip(text, pos);
    }
    LineColAtOutside(text, pos);
  }

  /** The text of line `i` that lies between `s` and `e`; the end column is inclusive. */
  function Piece(lines: seq<string>, s: LineCol, e: LineCol, i: int): string
    requires 1 <= i <= |lines|
  {
    var lineText := lines[i - 1];
    var left := if i == s.line then s.column else 0;
    var right := if i == e.line then e.column + 1 else |lineText|;
    Slice(lineText, left, right)
  }

  /** The pieces of lines `i..e.line`, as the line/column loop of `getTextBetween` writes them. */
  function BetweenAsWritten(lines: seq<string>, s: LineCol, e: LineCol, i: int): string
    requires i >= 1
    decreases |lines| + 1 - i
  {
    if i <= e.line && i <= |lines| then
      Piece(lines, s, e, i) + (if i + 1 < e.line then "\n" else "") + BetweenAsWritten(lines, s, e, i + 1)
    else ""
  }

  /** The same loop with a newline after every line but the last one. */
  function Between(lines: seq<string>, s: LineCol, e: LineCol, i: int): string
    requires i >= 1
    decreases |lines| + 1 - i
  {
    if i <= e.line && i <= |lines| then
      Piece(lines, s, e, i) + (if i < e.line then "\n" else "") + Between(lines, s, e, i + 1)
    else ""
  }

  /** The offset just past `e`, where the end column counts as part of the range. */
  function EndIncl(lines: seq<string>, e: LineCol): int
    requires ValidLineCol(lines, e)
  {
    PositionOf(lines, e.line, e.column) + if e.column < |lines[e.line - 1]| then 1 else 0
  }

  /** As written, the loop drops the newline between the last two lines: "a\nb" from (1,0) to (2,0) gives "ab". */
  lemma BetweenAsWrittenDropsNewline()
    ensures Lines("a\nb") == ["a", "b"]
    ensures BetweenAsWritten(["a", "b"], LineCol(1, 0), LineCol(2, 0), 1) == "ab"
    ensures Between(["a", "b"], LineCol(1, 0), LineCol(2, 0), 1) == "a\nb"
  {
    assert "a\nb"[..2] == "a\n";
    assert "a\n"[..1] == "a";
    assert "a"[..0] == "";
    assert Split("", '\n') == [""];
    assert "" + ['a'] == "a";
    assert [""][..0] + [[""][0] + ['a']] == ["a"];
    assert Split("a", '\n') == ["a"];
    assert Split("a\n", '\n') == ["a", ""];
    assert "" + ['b'] == "b";
    assert ["a", ""][..1] + [["a", ""][1] + ['b']] == ["a", "b"];
  }

  /** The offset at which line `l` starts. */
  function LineStart(lines: seq<string>, l: int): nat
    requires 1 <= l <= |lines| + 1
  {
    SumLines(lines[..l - 1])
  }

  /** Line `l` of a text sits at `LineStart(lines, l)`, followed by a newline unless it is the last. */
  lemma {:induction false} LineInText(lines: seq<string>, l: int)
    requires 1 <= l <= |lines|
    ensures LineStart(lines, l) + |lines[l - 1]| <= |Join(lines, "\n")|
    ensures Join(lines, "\n")[LineStart(lines, l)..LineStart(lines, l) + |lines[l - 1]|] == lines[l - 1]
    ensures l < |lines| ==>
      LineStart(lines, l) + |lines[l - 1]| < |Join(lines, "\n")| && Join(lines, "\n")[LineStart(lines, l) + |lines[l - 1]|] == '\n'
  {
    var n := |lines|;
    if n > 1 {
      var init := lines[..n - 1];
      var j := Join(init, "\n");
      assert Join(lines, "\n") == j + "\n" + lines[n - 1];
      JoinLength(init);
      if l == n {
        assert lines[..l - 1] == init;
      } else {
        assert lines[..l - 1] == init[..l - 1];
        LineInText(init, l);
        if l == n - 1 {
          assert init[..n - 1] == init;
          assert SumLines(init) == SumLines(init[..l - 1]) + |init[l - 1]| + 1;
        }
      }
    }
  }

  lemma PositionIsLineStart(lines: seq<string>, lc: LineCol)
    requires ValidLineCol(lines, lc)
    ensures PositionOf(lines, lc.line, lc.column) == LineStart(lines, lc.line) + lc.column
  {
  }

  /** A slice of line `l` is the same slice of the text, shifted by the line's start. */
  lemma LineSlice(lines: seq<string>, l: int, a: int, b: int)
    requires 1 <= l <= |lines| && 0 <= a <= b <= |lines[l - 1]|
    ensures LineStart(lines, l) + b <= |Join(lines, "\n")|
    ensures Join(lines, "\n")[LineStart(lines, l) + a..LineStart(lines, l) + b] == lines[l - 1][a..b]
  {
    LineInText(lines, l);
    var p := LineStart(lines, l);
    var text := Join(lines, "\n");
    SliceOfSlice(text, p, p + |lines[l - 1]|, a, b);
  }

  /** Where the slice of line `i` starts: at `s` on its own line, at the line start after it. */
  function From(lines: seq<string>, s: LineCol, i: int): int
    requires 1 <= i <= |lines|
  {
    if i == s.line then PositionOf(lines, s.line, s.column) else LineStart(lines, i)
  }

  /** With the newline fixed, the line/column slice is the text from `s` to `e` inclusive. */
  lemma {:induction false} BetweenIsSlice(lines: seq<string>, s: LineCol, e: LineCol, i: int)
    requires ValidLineCol(lines, s) && ValidLineCol(lines, e)
    requires PositionOf(lines, s.line, s.column) <= PositionOf(lines, e.line, e.column)
    requires s.line <= i <= e.line
    ensures 0 <= From(lines, s, i) <= EndIncl(lines, e) <= |Join(lines, "\n")|
    ensures Between(lines, s, e, i) == Join(lines, "\n")[From(lines, s, i)..EndIncl(lines, e)]
    decreases e.line - i
  {
    if i == e.line {
      BetweenLastLine(lines, s, e);
    } else {
      BetweenIsSlice(lines, s, e, i + 1);
      BetweenInnerLine(lines, s, e, i);
    }
  }

  /** The last line contributes the text from its start (or `s`) through `e`. */
  lemma BetweenLastLine(lines: seq<string>, s: LineCol, e: LineCol)
    requires ValidLineCol(lines, s) && ValidLineCol(lines, e)
    requires PositionOf(lines, s.line, s.column) <= PositionOf(lines, e.line, e.column)
    requires s.line <= e.line
    ensures 0 <= From(lines, s, e.line) <= EndIncl(lines, e) <= |Join(lines, "\n")|
    ensures Between(lines, s, e, e.line) == Join(lines, "\n")[From(lines, s, e.line)..EndIncl(lines, e)]
  {
    LastLineSlice(lines, s, e);
    BetweenAtLast(lines, s, e);
  }

  /** The last line's piece is the text from `s` (or the line's start) to just past `e`. */
  lemma LastLineSlice(lines: seq<string>, s: LineCol, e: LineCol)
    requires ValidLineCol(lines, s) && ValidLineCol(lines, e)
    requires PositionOf(lines, s.line, s.column) <= PositionOf(lines, e.line, e.column)
    requires s.line <= e.line
    ensures 0 <= From(lines, s, e.line) <= EndIncl(lines, e) <= |Join(lines, "\n")|
    ensures Join(lines, "\n")[From(lines, s, e.line)..EndIncl(lines, e)] == Piece(lines, s, e, e.line)
  {
    var i := e.line;
    var left := if i == s.line then s.column else 0;
    var right := if e.column < |lines[i - 1]| then e.column + 1 else |lines[i - 1]|;
    LastLineBounds(lines, s, e);
    PieceAtLast(lines, s, e);
    LineSlice(lines, i, left, right);
  }

  /** On the last line the range runs from `s` (or the line's start) to just past `e`, within the line. */
  lemma LastLineBounds(lines: seq<string>, s: LineCol, e: LineCol)
    requires ValidLineCol(lines, s) && ValidLineCol(lines, e)
    requires PositionOf(lines, s.line, s.column) <= PositionOf(lines, e.line, e.column)
    requires s.line <= e.line
    ensures var left := if e.line == s.line then s.column else 0;
      var right := if e.column < |lines[e.line - 1]| then e.column + 1 else |lines[e.line - 1]|;
      && From(lines, s, e.line) == LineStart(lines, e.line) + left
      && EndIncl(lines, e) == LineStart(lines, e.line) + right
      && 0 <= left <= right <= |lines[e.line - 1]|
  {
    PositionIsLineStart(lines, e);
    PositionIsLineStart(lines, s);
  }

  /** The last line's piece is its text from `s` (or its start) to just past `e`. */
  lemma PieceAtLast(lines: seq<string>, s: LineCol, e: LineCol)
    requires ValidLineCol(lines, e)
    ensures var left := if e.line == s.line then s.column else 0;
      var right := if e.column < |lines[e.line - 1]| then e.column + 1 else |lines[e.line - 1]|;
      0 <= left <= right ==> Piece(lines, s, e, e.line) == lines[e.line - 1][left..right]
  {
  }

  /** On the last line `Between` is just that line's piece. */
  lemma BetweenAtLast(lines: seq<string>, s: LineCol, e: LineCol)
    requires 1 <= e.line <= |lines|
    ensures Between(lines, s, e, e.line) == Piece(lines, s, e, e.line)
  {
    assert Between(lines, s, e, e.line + 1) == "";
    assert Between(lines, s, e, e.line) == Piece(lines, s, e, e.line) + "" + Between(lines, s, e, e.line + 1);
  }

  /** An inner line contributes its text from its start (or `s`), then the newline that ends it. */
  lemma BetweenInnerLine(lines: seq<string>, s: LineCol, e: LineCol, i: int)
    requires ValidLineCol(lines, s) && ValidLineCol(lines, e)
    requires s.line <= i < e.line
    requires 0 <= From(lines, s, i + 1) <= EndIncl(lines, e) <= |Join(lines, "\n")|
    requires Between(lines, s, e, i + 1) == Join(lines, "\n")[From(lines, s, i + 1)..EndIncl(lines, e)]
    ensures 0 <= From(lines, s, i) <= EndIncl(lines, e) <= |Join(lines, "\n")|
    ensures Between(lines, s, e, i) == Join(lines, "\n")[From(lines, s, i)..EndIncl(lines, e)]
  {
    var text := Join(lines, "\n");
    var p := LineStart(lines, i);
    var lineText := lines[i - 1];
    var left := if i == s.line then s.column else 0;
    var q := LineStart(lines, i + 1);
    assert lines[..i][..i - 1] == lines[..i - 1];
    assert q == p + |lineText| + 1;
    assert From(lines, s, i + 1) == q;
    assert From(lines, s, i) == p + left;
    assert Piece(lines, s, e, i) == lineText[left..|lineText|];
    LineSlice(lines, i, left, |lineText|);
    LineInText(lines, i);
    var b := p + |lineText|;
    assert Between(lines, s, e, i) == Piece(lines, s, e, i) + "\n" + Between(lines, s, e, i + 1);
    SliceConcat(text, Between(lines, s, e, i), Piece(lines, s, e, i), Between(lines, s, e, i + 1), p + left, b, q, EndIncl(lines, e));
  }

  /** A piece of the text, its newline and the piece after it make up one slice. */
  lemma SliceConcat(text: string, x: string, piece: string, rest: string, a: int, b: int, c: int, d: int)
    requires 0 <= a <= b && b + 1 == c && c <= d <= |text| && text[b] == '\n'
    requires x == piece + "\n" + rest && piece == text[a..b] && rest == text[c..d]
    ensures x == text[a..d]
  {
    assert text[a..d] == text[a..b] + text[b..d];
    assert text[b..d] == [text[b]] + text[c..d];
  }

  /** `getTextBetween(start, end)` for the two kinds of position, with the newline fixed. */
  method TextBetween(text: string, start: Pos, end: Pos) returns (t: string)
    requires start.At? && end.At? ==> start.lc.line >= 1
    ensures start.Offset? && end.Offset? ==> t == Slice(text, start.offset, end.offset)
    ensures start.Offset? && end.At? ==>
      t == Slice(text, start.offset, PositionOf(Lines(text), end.lc.line, end.lc.column))
    ensures start.At? && end.Offset? ==>
      t == Slice(text, PositionOf(Lines(text), start.lc.line, start.lc.column), end.offset)
    ensures start.At? && end.At? ==> t == Between(Lines(text), start.lc, end.lc, start.lc.line)
  {
    var lines := Lines(text);
    if start.Offset? {
      if end.Offset? {
        return Slice(text, start.offset, end.offset);
      }
      return Slice(text, start.offset, PositionOf(lines, end.lc.line, end.lc.column));
    }
    if end.Offset? {
      return Slice(text, PositionOf(lines, start.lc.line, start.lc.column), end.offset);
    }
    t := TextBetweenLines(text, start.lc, end.lc);
  }

  /** The line/column case of `getTextBetween`: one piece per line, a newline between consecutive lines. */
  method TextBetweenLines(text: string, s: LineCol, e: LineCol) returns (t: string)
    requires s.line >= 1
    ensures t == Between(Lines(text), s, e, s.line)
    ensures ValidLineCol(Lines(text), s) && ValidLineCol(Lines(text), e)
      && PositionOf(Lines(text), s.line, s.column) <= PositionOf(Lines(text), e.line, e.column)
      ==> t == Slice(text, PositionOf(Lines(text), s.line, s.column), EndIncl(Lines(text), e))
  {
    var lines := Lines(text);
    t := "";
    var i := s.line;
    while i <= e.line && i <= |lines|
      invariant s.line <= i
      invariant t + Between(lines, s, e, i) == Between(lines, s, e, s.line)
      decreases |lines| + 1 - i
    {
      var lineText := lines[i - 1];
      var left := if i == s.line then s.column else 0;
      var right := if i == e.line then e.column + 1 else |lineText|;
      var piece := Slice(lineText, left, right);
      var t0 := t;
      t := t + piece;
      if i < e.line {
        t := t + "\n";
      }
      BetweenStep(lines, s, e, i, t0, piece, t);
      i := i + 1;
    }
    if ValidLineCol(lines, s) && ValidLineCol(lines, e)
      && PositionOf(lines, s.line, s.column) <= PositionOf(lines, e.line, e.column)
    {
      BetweenOfText(text, s, e);
    }
  }

  /** Adding line `i`'s piece, and its newline when a line follows, moves the loop on by one line. */
  lemma BetweenStep(lines: seq<string>, s: LineCol, e: LineCol, i: int, t0: string, piece: string, t: string)
    requires 1 <= i <= e.line && i <= |lines|
    requires piece == Piece(lines, s, e, i) && t == t0 + piece + (if i < e.line then "\n" else "")
    ensures t + Between(lines, s, e, i + 1) == t0 + Between(lines, s, e, i)
  {
    var nl := if i < e.line then "\n" else "";
    assert Between(lines, s, e, i) == piece + nl + Between(lines, s, e, i + 1);
    Js.ConcatAssoc(t0 + piece, nl, Between(lines, s, e, i + 1));
    Js.ConcatAssoc(t0, piece, nl + Between(lines, s, e, i + 1));
    Js.ConcatAssoc(piece, nl, Between(lines, s, e, i + 1));
  }

  /** `Between` over the lines of a text, read as a slice of that text. */
  lemma BetweenOfText(text: string, s: LineCol, e: LineCol)
    requires ValidLineCol(Lines(text), s) && ValidLineCol(Lines(text), e)
    requires PositionOf(Lines(text), s.line, s.column) <= PositionOf(Lines(text), e.line, e.column)
    ensures Between(Lines(text), s, e, s.line)
      == Slice(text, PositionOf(Lines(text), s.line, s.column), EndIncl(Lines(text), e))
  {
    var lines := Lines(text);
    if e.line < s.line {
      EarlierLineEarlierPosition(lines, e, s);
    }
    BetweenIsSlice(lines, s, e, s.line);
    JoinSplit(text, '\n');
  }
}
