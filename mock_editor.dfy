/**
 * The mock `MagicString` used when no source map is wanted: one mutable
 * `text` and the `initialText` it started from, every operation a plain
 * string rebuild with JavaScript `slice` semantics.
 */
module MockEditor {
  import Js
  import opened Edits

  /** The mock's `move(start, end, index)`: `text.slice(0, start) + text.slice(end, index) + content + text.slice(index)`. */
  function MoveText(t: string, s: int, e: int, i: int): string
  {
    Js.Slice(t, 0, s) + Js.Slice(t, e, i) + Js.Slice(t, s, e) + Js.SliceFrom(t, i)
  }

  /** A forward move keeps the length and puts `t[s..e]` right before what followed `i`. */
  lemma MoveForward(t: string, s: int, e: int, i: int)
    requires 0 <= s <= e <= i <= |t|
    ensures MoveText(t, s, e, i) == t[..s] + t[e..i] + t[s..e] + t[i..]
    ensures |MoveText(t, s, e, i)| == |t|
    ensures MoveText(t, s, e, i)[..s] == t[..s]
    ensures MoveText(t, s, e, i)[i - (e - s)..i] == t[s..e]
    ensures MoveText(t, s, e, i)[i..] == t[i..]
  {
    var r := MoveText(t, s, e, i);
    assert r == ((t[..s] + t[e..i]) + t[s..e]) + t[i..];
    Js.TakeConcatLeft((t[..s] + t[e..i]) + t[s..e], t[i..], i);
    Js.DropConcatLeft((t[..s] + t[e..i]) + t[s..e], t[i..], i);
    Js.TakeConcatLeft(t[..s] + t[e..i], t[s..e], s);
    Js.TakeConcatLeft(t[..s], t[e..i], s);
    Js.DropConcat(t[..s] + t[e..i], t[s..e], 0);
  }

  /** A move to before its own start is not a move here: the moved text is kept in place and the rest is copied after it. */
  lemma MoveBackwardCopies()
    ensures MoveText("abc", 2, 3, 0) == "abcabc"
  {
    assert Js.Slice("abc", 0, 2) == "ab";
    assert Js.Slice("abc", 3, 0) == "";
    assert Js.Slice("abc", 2, 3) == "c";
    assert Js.SliceFrom("abc", 0) == "abc";
  }

  /** `reset(start, end)` after an update that kept the length restores the text the editor started from. */
  lemma ResetAfterUpdate(initial: string, s: int, e: int, c: string)
    requires 0 <= s <= e <= |initial| && |c| == e - s
    ensures Js.Slice(Splice(initial, s, e, c), 0, s) + Js.Slice(initial, s, e) + Js.SliceFrom(Splice(initial, s, e, c), e)
      == initial
  {
    var u := Splice(initial, s, e, c);
    SpliceShape(initial, s, e, c);
    Js.TakeConcatLeft(initial[..s], c + initial[e..], s);
    Js.ConcatAssoc(initial[..s], c, initial[e..]);
    Js.DropConcat(initial[..s] + c, initial[e..], 0);
    assert initial[..s] + initial[s..e] + initial[e..] == initial;
  }

  class MagicStringMock {
    /** The current text. */
    var text: string
    /** `initialText`, what `reset` and `hasChanged` compare against. */
    const original: string

    constructor (initialText: string)
      ensures text == initialText && original == initialText
    {
      text := initialText;
      original := initialText;
    }

    /** `update(start, end, content)`. */
    method Update(start: int, end: int, content: string)
      modifies this
      ensures text == Splice(old(text), start, end, content)
    {
      text := Js.Slice(text, 0, start) + content + Js.SliceFrom(text, end);
    }

    /** `overwrite` is `update`. */
    method Overwrite(start: int, end: int, content: string)
      modifies this
      ensures text == Splice(old(text), start, end, content)
    {
      Update(start, end, content);
    }

    /** `remove(start, end)`: an update with nothing. */
    method Remove(start: int, end: int)
      modifies this
      ensures text == Splice(old(text), start, end, "")
    {
      text := Js.Slice(text, 0, start) + Js.SliceFrom(text, end);
    }

    /** `slice(start, end)` of the current text. */
    function Slice(start: int, end: int): (r: string)
      reads this
      ensures 0 <= start <= end <= |text| ==> r == text[start..end]
      ensures |r| <= |text|
    {
      Js.Slice(text, start, end)
    }

    /** `reset(start, end)`: the range is read back from the initial text. */
    method Reset(start: int, end: int)
      modifies this
      ensures text == Js.Slice(old(text), 0, start) + Js.Slice(original, start, end) + Js.SliceFrom(old(text), end)
    {
      text := Js.Slice(text, 0, start) + Js.Slice(original, start, end) + Js.SliceFrom(text, end);
    }

    method Append(content: string)
      modifies this
      ensures text == old(text) + content
    {
      text := text + content;
    }

    method Prepend(content: string)
      modifies this
      ensures text == content + old(text)
    {
      text := content + text;
    }

    /** `move(start, end, index)`. */
    method Move(start: int, end: int, index: int)
      modifies this
      ensures text == MoveText(old(text), start, end, index)
    {
      var content := Js.Slice(text, start, end);
      text := Js.Slice(text, 0, start) + Js.Slice(text, end, index) + content + Js.SliceFrom(text, index);
    }

    /** `appendLeft`: a plain insertion at `index`. */
    method AppendLeft(index: int, content: string)
      modifies this
      ensures text == Splice(old(text), index, index, content)
    {
      text := Js.Slice(text, 0, index) + content + Js.SliceFrom(text, index);
    }

    /** `appendRight`: the same insertion. */
    method AppendRight(index: int, content: string)
      modifies this
      ensures text == Splice(old(text), index, index, content)
    {
      text := Js.Slice(text, 0, index) + content + Js.SliceFrom(text, index);
    }

    /** `prependLeft`: the same insertion. */
    method PrependLeft(index: int, content: string)
      modifies this
      ensures text == Splice(old(text), index, index, content)
    {
      text := Js.Slice(text, 0, index) + content + Js.SliceFrom(text, index);
    }

    /** `prependRight`: the same insertion. */
    method PrependRight(index: int, content: string)
      modifies this
      ensures text == Splice(old(text), index, index, content)
    {
      text := Js.Slice(text, 0, index) + content + Js.SliceFrom(text, index);
    }

    /** In mock mode `updateByGenerated` is `update`. */
    method UpdateByGenerated(start: int, end: int, code: string)
      modifies this
      ensures text == Splice(old(text), start, end, code)
    {
      Update(start, end, code);
    }

    function IsEmpty(): (r: bool)
      reads this
      ensures r <==> |text| == 0
    {
      text == ""
    }

    function Length(): (r: nat)
      reads this
      ensures r == |text|
    {
      |text|
    }

    /** `hasChanged()`: the text differs from the initial text. */
    function HasChanged(): (r: bool)
      reads this
      ensures r <==> text != original
    {
      text != original
    }

    function ToString(): (r: string)
      reads this
      ensures r == text
    {
      text
    }

    /** `lastChar()`: the last character, or "" for an empty text. */
    function LastChar(): (r: string)
      reads this
      ensures |text| == 0 ==> r == ""
      ensures |text| > 0 ==> r == [text[|text| - 1]]
    {
      if |text| == 0 then "" else [text[|text| - 1]]
    }

    /** `lastLine()`: the longest suffix without a newline. */
    method LastLine() returns (r: string)
      ensures Js.EndsWith(text, r)
      ensures '\n' !in r
      ensures |r| == |text| || text[|text| - |r| - 1] == '\n'
    {
      r := "";
      var i := |text| - 1;
      while i >= 0 && text[i] != '\n'
        invariant -1 <= i < |text|
        invariant r == text[i + 1..]
        invariant '\n' !in r
      {
        r := [text[i]] + r;
        i := i - 1;
      }
    }
  }
}
