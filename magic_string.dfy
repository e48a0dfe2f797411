/**
 * A real `MagicString`, seen from the outside: the text it was created on and
 * the calls made on it so far, in order. Its chunk graph and `generateMap`
 * are not modelled; what a list of calls means is given by `Edits` where the
 * calls are disjoint edits in ascending order.
 */
module MagicStringLog {
  import Js
  import opened Edits

  class MagicString {
    /** The text passed to `new MagicString(text)`; every position refers to it. */
    const original: string
    /** Every editing call so far. */
    var calls: seq<Call>

    constructor (text: string)
      ensures original == text && calls == []
    {
      original := text;
      calls := [];
    }

    method Update(start: int, end: int, content: string)
      modifies this
      ensures calls == old(calls) + [Call.Update(start, end, content)]
    {
      calls := calls + [Call.Update(start, end, content)];
    }

    method Overwrite(start: int, end: int, content: string)
      modifies this
      ensures calls == old(calls) + [Call.Overwrite(start, end, content)]
    {
      calls := calls + [Call.Overwrite(start, end, content)];
    }

    method Remove(start: int, end: int)
      modifies this
      ensures calls == old(calls) + [Call.Remove(start, end)]
    {
      calls := calls + [Call.Remove(start, end)];
    }

    method Move(start: int, end: int, index: int)
      modifies this
      ensures calls == old(calls) + [Call.Move(start, end, index)]
    {
      calls := calls + [Call.Move(start, end, index)];
    }

    method Prepend(content: string)
      modifies this
      ensures calls == old(calls) + [Call.Prepend(content)]
    {
      calls := calls + [Call.Prepend(content)];
    }

    method Append(content: string)
      modifies this
      ensures calls == old(calls) + [Call.Append(content)]
    {
      calls := calls + [Call.Append(content)];
    }

    method AppendLeft(index: int, content: string)
      modifies this
      ensures calls == old(calls) + [Call.AppendLeft(index, content)]
    {
      calls := calls + [Call.AppendLeft(index, content)];
    }

    method AppendRight(index: int, content: string)
      modifies this
      ensures calls == old(calls) + [Call.AppendRight(index, content)]
    {
      calls := calls + [Call.AppendRight(index, content)];
    }

    /** `slice(start, end)`, read from the text the editor was created on. */
    function Slice(start: int, end: int): (r: string)
      reads this
      ensures 0 <= start <= end <= |original| ==> r == original[start..end]
      ensures |r| <= |original|
    {
      Js.Slice(original, start, end)
    }
  }
}
