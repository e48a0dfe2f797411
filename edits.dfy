/**
 * Edits on a text. A single edit is the mock editor's `update(s, e, c)`:
 * `text.slice(0, s) + c + text.slice(e)`. A list of edits given in the
 * coordinates of one unedited text, ascending and pairwise disjoint, has one
 * meaning, `Render`: the text with each range replaced in place. That meaning
 * is what both edit loops of the render stage compute, one by applying the
 * edits from the back, the other front to back with a running offset.
 */
module Edits {
  import Js
  import opened Wrappers

  /** Replace `[start, end)` by `code`. */
  datatype Edit = Edit(start: int, end: int, code: string)

  /** `text.slice(0, s) + c + text.slice(e)`. */
  function Splice(t: string, s: int, e: int, c: string): string
  {
    Js.Slice(t, 0, s) + c + Js.SliceFrom(t, e)
  }

  /** Inside the text, a splice keeps what lies before `s` and from `e` on, around `c`. */
  lemma SpliceShape(t: string, s: int, e: int, c: string)
    requires 0 <= s <= e <= |t|
    ensures |Splice(t, s, e, c)| == |t| - (e - s) + |c|
    ensures Splice(t, s, e, c) == t[..s] + c + t[e..]
    ensures Splice(t, s, e, c)[..s] == t[..s]
    ensures Splice(t, s, e, c)[s..s + |c|] == c
    ensures Splice(t, s, e, c)[s + |c|..] == t[e..]
  {
    var r := Splice(t, s, e, c);
    assert r == t[..s] + c + t[e..];
    assert r[..s] == t[..s];
    assert r[s..s + |c|] == c;
    assert r[s + |c|..] == t[e..];
  }

  /** Writing back what a range already holds changes nothing: the reason an unchanged edit can be skipped. */
  lemma SpliceSame(t: string, s: int, e: int)
    requires 0 <= s <= e <= |t|
    ensures Splice(t, s, e, t[s..e]) == t
  {
    assert t[..s] + t[s..e] + t[e..] == t;
  }

  /** All edits lie within `[from, len]`, in ascending order, none overlapping the next. */
  predicate Ascending(es: seq<Edit>, from: int, len: int)
    decreases |es|
  {
    if |es| == 0 then 0 <= from <= len
    else 0 <= from <= es[0].start <= es[0].end <= len && Ascending(es[1..], es[0].end, len)
  }

  /** `t` from `c` on, with every edit of `es` replacing its range. */
  function Render(t: string, es: seq<Edit>, c: int): string
    requires Ascending(es, c, |t|)
    decreases |es|
  {
    if |es| == 0 then t[c..]
    else t[c..es[0].start] + es[0].code + Render(t, es[1..], es[0].end)
  }

  /** The whole text with every edit applied. */
  function SpliceAll(t: string, es: seq<Edit>): string
    requires Ascending(es, 0, |t|)
  {
    Render(t, es, 0)
  }

  /** How much the edits lengthen the text. */
  function Growth(es: seq<Edit>): int
    decreases |es|
  {
    if |es| == 0 then 0 else |es[0].code| - (es[0].end - es[0].start) + Growth(es[1..])
  }

  /** The rendered text is the rest of the text plus what the edits add. */
  lemma {:induction false} RenderLength(t: string, es: seq<Edit>, c: int)
    requires Ascending(es, c, |t|)
    ensures |Render(t, es, c)| == |t| - c + Growth(es)
    decreases |es|
  {
    if |es| > 0 {
      RenderLength(t, es[1..], es[0].end);
    }
  }

  /** Starting earlier only adds the untouched text in between. */
  lemma RenderFrom(t: string, es: seq<Edit>, c: int, d: int)
    requires Ascending(es, d, |t|) && 0 <= c <= d
    ensures Ascending(es, c, |t|)
    ensures Render(t, es, c) == t[c..d] + Render(t, es, d)
  {
    if |es| == 0 {
      Js.SplitSlice(t, c, d, |t|);
    } else {
      var x := es[0];
      var rest := Render(t, es[1..], x.end);
      Js.SplitSlice(t, c, d, x.start);
      Js.ConcatAssoc(t[c..d], t[d..x.start], x.code);
      Js.ConcatAssoc(t[c..d], t[d..x.start] + x.code, rest);
    }
  }

  /** An edit list with one more edit in front, at or after `c`. */
  lemma RenderCons(t: string, x: Edit, es: seq<Edit>, c: int)
    requires 0 <= c <= x.start <= x.end && Ascending(es, x.end, |t|)
    ensures Ascending([x] + es, c, |t|)
    ensures Render(t, [x] + es, c) == t[c..x.start] + x.code + Render(t, es, x.end)
  {
    assert ([x] + es)[0] == x;
    assert ([x] + es)[1..] == es;
  }

  /** A splice into `done + t[c..]`, at positions of `t` shifted by `|done| - c`. */
  lemma ShiftedSplice(t: string, done: string, c: int, s: int, e: int, code: string)
    requires 0 <= c <= s <= e <= |t|
    ensures Splice(done + t[c..], s + (|done| - c), e + (|done| - c), code) == done + t[c..s] + code + t[e..]
  {
    var u := t[c..];
    var off := |done| - c;
    SpliceShape(done + u, s + off, e + off, code);
    Js.TakeConcat(done, u, s - c);
    Js.DropConcat(done, u, e - c);
    Js.SliceOfDrop(t, c, 0, s - c);
    Js.SliceOfDrop(t, c, e - c, |t| - c);
  }

  /**
   * One step of applying edits from the back: when every edit of `es[m..]`
   * starts at or after `b`, `es[m - 1]` ends by `b`, and the text is
   * `t[..b] + Render(t, es[m..], b)`, splicing `es[m - 1]` in directly gives the
   * same form one edit earlier.
   */
  lemma BackStep(t: string, es: seq<Edit>, m: nat, b: int)
    requires 0 < m <= |es| && Ascending(es[m..], b, |t|)
    requires 0 <= es[m - 1].start <= es[m - 1].end <= b
    ensures Ascending(es[m - 1..], es[m - 1].start, |t|)
    ensures Splice(t[..b] + Render(t, es[m..], b), es[m - 1].start, es[m - 1].end, es[m - 1].code)
      == t[..es[m - 1].start] + Render(t, es[m - 1..], es[m - 1].start)
  {
    var x := es[m - 1];
    var rest := Render(t, es[m..], b);
    var cur := t[..b] + rest;
    RenderFrom(t, es[m..], x.end, b);
    assert es[m - 1..][0] == x;
    assert es[m - 1..][1..] == es[m..];
    assert t[x.start..x.start] + x.code == x.code;
    SpliceShape(cur, x.start, x.end, x.code);
    Js.TakeConcatLeft(t[..b], rest, x.start);
    Js.DropConcatLeft(t[..b], rest, x.end);
    assert t[..b][..x.start] == t[..x.start];
    assert t[..b][x.end..] == t[x.end..b];
    Js.ConcatAssoc(t[..x.start], x.code, t[x.end..b] + rest);
  }

  /** The list in reverse order. */
  function Reverse<T>(s: seq<T>): (r: seq<T>)
    ensures |r| == |s|
    ensures forall i :: 0 <= i < |s| ==> r[i] == s[|s| - 1 - i]
  {
    if |s| == 0 then [] else Reverse(s[1..]) + [s[0]]
  }

  /** Adding at the back of a list adds at the front of its reverse: `unshift` builds the reverse of the push order. */
  lemma {:induction false} ReverseSnoc<T>(a: seq<T>, x: T)
    ensures Reverse(a + [x]) == [x] + Reverse(a)
    decreases |a|
  {
    if |a| == 0 {
      assert a + [x] == [x];
    } else {
      assert (a + [x])[1..] == a[1..] + [x];
      ReverseSnoc(a[1..], x);
    }
  }

  /**
   * The calls the plugin makes on a real `MagicString`, recorded in order.
   * Positions are in the coordinates of the text the editor was created on.
   */
  datatype Call =
    | Update(start: int, end: int, content: string)
    | Overwrite(start: int, end: int, content: string)
    | Remove(start: int, end: int)
    | Move(start: int, end: int, index: int)
    | Prepend(content: string)
    | Append(content: string)
    | AppendLeft(index: int, content: string)
    | AppendRight(index: int, content: string)

  /**
   * A call that replaces or inserts at a position, read as an edit of the
   * original text of length `len`; prepend and append are insertions at the
   * two ends. A move is no single edit.
   */
  function AsEdit(c: Call, len: int): Option<Edit>
  {
    match c
    case Update(s, e, x) => Some(Edit(s, e, x))
    case Overwrite(s, e, x) => Some(Edit(s, e, x))
    case Remove(s, e) => Some(Edit(s, e, ""))
    case Move(_, _, _) => None
    case Prepend(x) => Some(Edit(0, 0, x))
    case Append(x) => Some(Edit(len, len, x))
    case AppendLeft(i, x) => Some(Edit(i, i, x))
    case AppendRight(i, x) => Some(Edit(i, i, x))
  }

  /** The edits of a call log without moves, in call order. */
  function AsEdits(cs: seq<Call>, len: int): (r: seq<Edit>)
    ensures |r| <= |cs|
  {
    if |cs| == 0 then []
    else
      var rest := AsEdits(cs[1..], len);
      match AsEdit(cs[0], len)
      case Some(e) => [e] + rest
      case None => rest
  }

  /** Reading a call log as edits respects concatenation. */
  lemma {:induction false} AsEditsConcat(a: seq<Call>, b: seq<Call>, len: int)
    ensures AsEdits(a + b, len) == AsEdits(a, len) + AsEdits(b, len)
    decreases |a|
  {
    if |a| == 0 {
      assert a + b == b;
    } else {
      assert (a + b)[0] == a[0];
      assert (a + b)[1..] == a[1..] + b;
      AsEditsConcat(a[1..], b, len);
    }
  }

  /** A single call that is an edit reads as that edit. */
  lemma AsEditsOne(c: Call, len: int)
    requires !c.Move?
    ensures AsEdits([c], len) == [AsEdit(c, len).value]
  {
    assert [c][1..] == [];
  }
}
