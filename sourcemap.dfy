/**
 * The source-map side of `sourceMapHelper`: `forEachMS`, which hands a
 * callback each pair of consecutive mappings; the rebuild of an edit script
 * from the mapping list of an existing map; and `updateByGenerated`, which
 * carries an edit made in generated coordinates over to the original text.
 * The source-map consumer is an abstract lookup.
 */
module SourceMaps {
  import Js
  import opened Wrappers
  import opened TextHelper
  import opened Edits
  import opened MagicStringLog

  /** What one callback of `forEachMS` receives: the previous and the current mapping, either possibly absent. */
  datatype CallbackArgs<T> = CallbackArgs(prev: Option<T>, data: Option<T>)

  /** The callback arguments for resolved mappings `ts`, in order. */
  function PairsOf<T>(ts: seq<T>): (r: seq<CallbackArgs<T>>)
    ensures |r| == |ts| + 1
    ensures |ts| > 0 ==> r[0] == CallbackArgs(None, Some(ts[0]))
    ensures forall i :: 1 <= i < |ts| ==> r[i] == CallbackArgs(Some(ts[i - 1]), Some(ts[i]))
    ensures r[|ts|] == CallbackArgs(if |ts| == 0 then None else Some(ts[|ts| - 1]), None)
  {
    seq(|ts| + 1, i requires 0 <= i <= |ts| =>
      CallbackArgs(if i == 0 then None else Some(ts[i - 1]), if i < |ts| then Some(ts[i]) else None))
  }

  /** `forEachMS`: resolve each mapping, call back with it and the previous one, then once more with the last alone. */
  method ForEachMS<M, T>(mappings: seq<M>, resolve: M -> T) returns (calls: seq<CallbackArgs<T>>)
    ensures calls == PairsOf(seq(|mappings|, i requires 0 <= i < |mappings| => resolve(mappings[i])))
  {
    ghost var ts := seq(|mappings|, i requires 0 <= i < |mappings| => resolve(mappings[i]));
    var prev: Option<T> := None;
    calls := [];
    var k := 0;
    while k < |mappings|
      invariant 0 <= k <= |mappings|
      invariant calls == PairsOf(ts)[..k]
      invariant prev == if k == 0 then None else Some(ts[k - 1])
    {
      var data := resolve(mappings[k]);
      calls := calls + [CallbackArgs(prev, Some(data))];
      prev := Some(data);
      k := k + 1;
    }
    calls := calls + [CallbackArgs(prev, None)];
  }

  /** A mapping of an existing source map: a generated and an original position. */
  datatype Mapping = Mapping(generated: LineCol, original: LineCol)

  /** A mapping turned into offsets of the generated code and of the original text. */
  datatype Resolved = Resolved(generatedPos: int, originalPos: int)

  function Resolve(code: string, originalText: string, m: Mapping): Resolved
  {
    Resolved(
      PositionOf(Lines(code), m.generated.line, m.generated.column),
      PositionOf(Lines(originalText), m.original.line, m.original.column))
  }

  /**
   * What the rebuild callback calls on the editor for one pair, given the
   * generated code and the original length `len`.
   */
  function Step(code: string, len: int, a: CallbackArgs<Resolved>): seq<Call>
  {
    match a
    case CallbackArgs(None, Some(d)) =>
      (if d.generatedPos != 0 then [Call.Prepend(Js.Slice(code, 0, d.generatedPos))] else [])
      + (if d.originalPos != 0 then [Call.Remove(0, d.originalPos)] else [])
    case CallbackArgs(Some(p), None) =>
      var tail := Js.SliceFrom(code, p.generatedPos);
      if len != 0 && len > p.originalPos then [Call.Overwrite(p.originalPos, len, tail)]
      else [Call.Append(tail)]
    case CallbackArgs(Some(p), Some(d)) =>
      var segment := Js.Slice(code, p.generatedPos, d.generatedPos);
      if p.originalPos == d.originalPos then [Call.AppendRight(p.originalPos, segment)]
      else [Call.Overwrite(p.originalPos, d.originalPos, segment)]
    case CallbackArgs(None, None) => []
  }

  /** The calls made for callbacks `k` onwards. */
  function StepsFrom(code: string, len: int, args: seq<CallbackArgs<Resolved>>, k: nat): seq<Call>
    decreases |args| - k
  {
    if k >= |args| then [] else Step(code, len, args[k]) + StepsFrom(code, len, args, k + 1)
  }

  lemma StepsFromUnfold(code: string, len: int, args: seq<CallbackArgs<Resolved>>, k: nat, before: seq<Call>)
    requires k < |args|
    ensures before + StepsFrom(code, len, args, k) == (before + Step(code, len, args[k])) + StepsFrom(code, len, args, k + 1)
  {
    Js.ConcatAssoc(before, Step(code, len, args[k]), StepsFrom(code, len, args, k + 1));
  }

  /** An existing source map: its `sourcesContent` and its mapping list. */
  datatype SourceMap = SourceMap(sourcesContent: seq<string>, mappings: seq<Mapping>)

  /** `sourcesContent[0]` is missing or empty. */
  predicate MissingContent(sm: SourceMap)
  {
    |sm.sourcesContent| == 0 || sm.sourcesContent[0] == ""
  }

  /**
   * The existing-map branch of `sourceMapHelper`: check the inputs, create an
   * editor on the original text, and let the `forEachMS` callback rewrite it
   * into the generated code.
   */
  method FromExistingMap(code: string, sm: SourceMap) returns (r: Result<MagicString>)
    ensures r.Err? <==> code == "" || MissingContent(sm)
    ensures code == "" ==> r == Err(InvalidInlineSourceMap)
    ensures code != "" && MissingContent(sm) ==> r == Err(MissingSourcesContent)
    ensures r.Ok? ==>
      fresh(r.value) && r.value.original == sm.sourcesContent[0] && r.value.calls == StepsFrom(code, |r.value.original|, PairsOf(ResolveAll(code, r.value.original, sm.mappings)), 0)
  {
    if code == "" {
      return Err(InvalidInlineSourceMap);
    }
    if MissingContent(sm) {
      return Err(MissingSourcesContent);
    }
    var originalText := sm.sourcesContent[0];
    var ms := new MagicString(originalText);
    var args := ForEachMS(sm.mappings, m => Resolve(code, originalText, m));
    ResolveEach(code, originalText, sm.mappings);
    assert args == PairsOf(ResolveAll(code, originalText, sm.mappings));
    Replay(ms, code, args);
    assert ms.calls == StepsFrom(code, |originalText|, args, 0);
    return Ok(ms);
  }

  /** `forEachMS`'s callback invocations, in order, each driving the editor. */
  method Replay(ms: MagicString, code: string, args: seq<CallbackArgs<Resolved>>)
    modifies ms
    ensures ms.calls == old(ms.calls) + StepsFrom(code, |ms.original|, args, 0)
  {
    var len := |ms.original|;
    var k := 0;
    while k < |args|
      invariant 0 <= k <= |args|
      invariant old(ms.calls) + StepsFrom(code, len, args, 0) == ms.calls + StepsFrom(code, len, args, k)
    {
      ghost var before := ms.calls;
      RebuildCallback(ms, code, len, args[k]);
      StepsFromUnfold(code, len, args, k, before);
      k := k + 1;
    }
  }

  /** The rebuild callback for one pair, driving the editor. */
  method RebuildCallback(ms: MagicString, code: string, len: int, a: CallbackArgs<Resolved>)
    modifies ms
    ensures ms.calls == old(ms.calls) + Step(code, len, a)
  {
    match a
    case CallbackArgs(None, Some(d)) =>
      if d.generatedPos != 0 {
        ms.Prepend(Js.Slice(code, 0, d.generatedPos));
      }
      if d.originalPos != 0 {
        ms.Remove(0, d.originalPos);
      }
    case CallbackArgs(Some(p), None) =>
      var tail := Js.SliceFrom(code, p.generatedPos);
      if len != 0 && len > p.originalPos {
        ms.Overwrite(p.originalPos, len, tail);
      } else {
        ms.Append(tail);
      }
    case CallbackArgs(Some(p), Some(d)) =>
      var segment := Js.Slice(code, p.generatedPos, d.generatedPos);
      if p.originalPos == d.originalPos {
        ms.AppendRight(p.originalPos, segment);
      } else {
        ms.Overwrite(p.originalPos, d.originalPos, segment);
      }
    case CallbackArgs(None, None) =>
  }

  lemma ResolveEach(code: string, originalText: string, ms: seq<Mapping>)
    ensures seq(|ms|, i requires 0 <= i < |ms| => (m => Resolve(code, originalText, m))(ms[i]))
      == ResolveAll(code, originalText, ms)
  {
  }

  function ResolveAll(code: string, originalText: string, ms: seq<Mapping>): (r: seq<Resolved>)
    ensures |r| == |ms| && forall i :: 0 <= i < |ms| ==> r[i] == Resolve(code, originalText, ms[i])
  {
    seq(|ms|, i requires 0 <= i < |ms| => Resolve(code, originalText, ms[i]))
  }

  /** Mappings that ascend in both coordinates and stay within the generated code and the original text. */
  predicate MappingsAscend(rs: seq<Resolved>, genLen: int, origLen: int)
  {
    |rs| > 0
    && forall i, j :: 0 <= i <= j < |rs| ==>
      0 <= rs[i].generatedPos <= rs[j].generatedPos <= genLen && 0 <= rs[i].originalPos <= rs[j].originalPos <= origLen
  }

  /** The edit the last callback makes: the rest of the original becomes the rest of the generated code. */
  function TailEdit(code: string, len: int, p: Resolved): Edit
  {
    Edit(if len > p.originalPos then p.originalPos else len, len, Js.SliceFrom(code, p.generatedPos))
  }

  lemma StepTailEdit(code: string, len: int, p: Resolved)
    requires len >= 1
    ensures AsEdits(Step(code, len, CallbackArgs(Some(p), None)), len) == [TailEdit(code, len, p)]
  {
    var tail := Js.SliceFrom(code, p.generatedPos);
    var c := if len > p.originalPos then Call.Overwrite(p.originalPos, len, tail) else Call.Append(tail);
    assert Step(code, len, CallbackArgs(Some(p), None)) == [c];
    AsEditsOne(c, len);
  }

  lemma StepPairEdit(code: string, len: int, p: Resolved, d: Resolved)
    ensures AsEdits(Step(code, len, CallbackArgs(Some(p), Some(d))), len)
      == [Edit(p.originalPos, d.originalPos, Js.Slice(code, p.generatedPos, d.generatedPos))]
  {
    var segment := Js.Slice(code, p.generatedPos, d.generatedPos);
    var c := if p.originalPos == d.originalPos then Call.AppendRight(p.originalPos, segment)
      else Call.Overwrite(p.originalPos, d.originalPos, segment);
    assert Step(code, len, CallbackArgs(Some(p), Some(d))) == [c];
    AsEditsOne(c, len);
  }

  lemma StepHeadEdits(code: string, len: int, d: Resolved)
    ensures AsEdits(Step(code, len, CallbackArgs(None, Some(d))), len)
      == (if d.generatedPos != 0 then [Edit(0, 0, Js.Slice(code, 0, d.generatedPos))] else [])
        + (if d.originalPos != 0 then [Edit(0, d.originalPos, "")] else [])
  {
    var pre: seq<Call> := if d.generatedPos != 0 then [Call.Prepend(Js.Slice(code, 0, d.generatedPos))] else [];
    var rem: seq<Call> := if d.originalPos != 0 then [Call.Remove(0, d.originalPos)] else [];
    assert Step(code, len, CallbackArgs(None, Some(d))) == pre + rem;
    AsEditsConcat(pre, rem, len);
    if d.generatedPos != 0 {
      AsEditsOne(Call.Prepend(Js.Slice(code, 0, d.generatedPos)), len);
    }
    if d.originalPos != 0 {
      AsEditsOne(Call.Remove(0, d.originalPos), len);
    }
  }

  lemma TailEdits(code: string, len: int, rs: seq<Resolved>)
    requires |rs| > 0 && len >= 1
    ensures AsEdits(StepsFrom(code, len, PairsOf(rs), |rs|), len) == [TailEdit(code, len, rs[|rs| - 1])]
  {
    var args := PairsOf(rs);
    assert args[|rs|] == CallbackArgs(Some(rs[|rs| - 1]), None);
    var s := Step(code, len, args[|rs|]);
    assert StepsFrom(code, len, args, |rs|) == s + [];
    assert s + [] == s;
    StepTailEdit(code, len, rs[|rs| - 1]);
  }

  /** The edit for the pair `(rs[k - 1], rs[k])`: the original between them becomes the generated code between them. */
  lemma PairEdits(code: string, len: int, rs: seq<Resolved>, k: nat)
    requires 1 <= k < |rs|
    ensures AsEdits(StepsFrom(code, len, PairsOf(rs), k), len)
      == [Edit(rs[k - 1].originalPos, rs[k].originalPos, Js.Slice(code, rs[k - 1].generatedPos, rs[k].generatedPos))]
        + AsEdits(StepsFrom(code, len, PairsOf(rs), k + 1), len)
  {
    var args := PairsOf(rs);
    assert args[k] == CallbackArgs(Some(rs[k - 1]), Some(rs[k]));
    assert StepsFrom(code, len, args, k) == Step(code, len, args[k]) + StepsFrom(code, len, args, k + 1);
    AsEditsConcat(Step(code, len, args[k]), StepsFrom(code, len, args, k + 1), len);
    StepPairEdit(code, len, rs[k - 1], rs[k]);
  }

  /** The edits for the first callback: the generated prefix, then the removal of the original prefix. */
  lemma HeadEdits(code: string, len: int, rs: seq<Resolved>)
    requires |rs| > 0
    ensures AsEdits(StepsFrom(code, len, PairsOf(rs), 0), len)
      == (if rs[0].generatedPos != 0 then [Edit(0, 0, Js.Slice(code, 0, rs[0].generatedPos))] else [])
        + (if rs[0].originalPos != 0 then [Edit(0, rs[0].originalPos, "")] else [])
        + AsEdits(StepsFrom(code, len, PairsOf(rs), 1), len)
  {
    var args := PairsOf(rs);
    assert args[0] == CallbackArgs(None, Some(rs[0]));
    assert StepsFrom(code, len, args, 0) == Step(code, len, args[0]) + StepsFrom(code, len, args, 1);
    AsEditsConcat(Step(code, len, args[0]), StepsFrom(code, len, args, 1), len);
    StepHeadEdits(code, len, rs[0]);
  }

  /** The last callback's edit renders the rest of the generated code. */
  lemma TailEditRenders(code: string, original: string, p: Resolved)
    requires 0 <= p.generatedPos <= |code| && 0 <= p.originalPos <= |original|
    ensures Ascending([TailEdit(code, |original|, p)], p.originalPos, |original|)
    ensures Render(original, [TailEdit(code, |original|, p)], p.originalPos) == code[p.generatedPos..]
  {
    var e := TailEdit(code, |original|, p);
    RenderCons(original, e, [], p.originalPos);
    assert [e] + [] == [e];
    assert original[p.originalPos..e.start] == "";
    assert original[e.end..] == "";
  }

  /** The last callback renders the rest of the generated code. */
  lemma TailRenders(code: string, original: string, rs: seq<Resolved>)
    requires MappingsAscend(rs, |code|, |original|) && |original| >= 1
    ensures Ascending(AsEdits(StepsFrom(code, |original|, PairsOf(rs), |rs|), |original|), rs[|rs| - 1].originalPos, |original|)
    ensures Render(original, AsEdits(StepsFrom(code, |original|, PairsOf(rs), |rs|), |original|), rs[|rs| - 1].originalPos)
      == code[rs[|rs| - 1].generatedPos..]
  {
    TailEdits(code, |original|, rs);
    TailEditRenders(code, original, rs[|rs| - 1]);
  }

  /** From the `k`-th mapping on, the callbacks render the generated code from that mapping on. */
  lemma {:induction false} MiddleRenders(code: string, original: string, rs: seq<Resolved>, k: nat)
    requires MappingsAscend(rs, |code|, |original|) && |original| >= 1
    requires 1 <= k <= |rs|
    ensures Ascending(AsEdits(StepsFrom(code, |original|, PairsOf(rs), k), |original|), rs[k - 1].originalPos, |original|)
    ensures Render(original, AsEdits(StepsFrom(code, |original|, PairsOf(rs), k), |original|), rs[k - 1].originalPos)
      == code[rs[k - 1].generatedPos..]
    decreases |rs| - k
  {
    if k == |rs| {
      TailRenders(code, original, rs);
    } else {
      MiddleRenders(code, original, rs, k + 1);
      PairEdits(code, |original|, rs, k);
      PairRenders(code, original, rs[k - 1], rs[k], AsEdits(StepsFrom(code, |original|, PairsOf(rs), k + 1), |original|));
    }
  }

  /** One pair's edit in front of edits that render the code from the later mapping on. */
  lemma PairRenders(code: string, original: string, p: Resolved, d: Resolved, rest: seq<Edit>)
    requires 0 <= p.generatedPos <= d.generatedPos <= |code|
    requires 0 <= p.originalPos <= d.originalPos <= |original|
    requires Ascending(rest, d.originalPos, |original|)
    requires Render(original, rest, d.originalPos) == code[d.generatedPos..]
    ensures Ascending([Edit(p.originalPos, d.originalPos, Js.Slice(code, p.generatedPos, d.generatedPos))] + rest, p.originalPos, |original|)
    ensures Render(original, [Edit(p.originalPos, d.originalPos, Js.Slice(code, p.generatedPos, d.generatedPos))] + rest, p.originalPos)
      == code[p.generatedPos..]
  {
    var segment := code[p.generatedPos..d.generatedPos];
    RenderCons(original, Edit(p.originalPos, d.originalPos, segment), rest, p.originalPos);
    assert original[p.originalPos..p.originalPos] == "";
    Js.SplitSlice(code, p.generatedPos, d.generatedPos, |code|);
  }

  /**
   * The rebuild is faithful: when the mappings ascend in both coordinates,
   * the calls it makes turn the original text into the generated code.
   */
  lemma RebuildRenders(code: string, original: string, rs: seq<Resolved>)
    requires MappingsAscend(rs, |code|, |original|) && |original| >= 1
    ensures Ascending(AsEdits(StepsFrom(code, |original|, PairsOf(rs), 0), |original|), 0, |original|)
    ensures SpliceAll(original, AsEdits(StepsFrom(code, |original|, PairsOf(rs), 0), |original|)) == code
  {
    var d := rs[0];
    MiddleRenders(code, original, rs, 1);
    HeadEdits(code, |original|, rs);
    HeadRenders(code, original, d, AsEdits(StepsFrom(code, |original|, PairsOf(rs), 1), |original|));
  }

  /** The first callback's edits in front of edits that render the code from the first mapping on. */
  lemma HeadRenders(code: string, original: string, d: Resolved, rest: seq<Edit>)
    requires 0 <= d.generatedPos <= |code| && 0 <= d.originalPos <= |original|
    requires Ascending(rest, d.originalPos, |original|)
    requires Render(original, rest, d.originalPos) == code[d.generatedPos..]
    ensures Ascending((if d.generatedPos != 0 then [Edit(0, 0, Js.Slice(code, 0, d.generatedPos))] else [])
        + (if d.originalPos != 0 then [Edit(0, d.originalPos, "")] else []) + rest, 0, |original|)
    ensures Render(original, (if d.generatedPos != 0 then [Edit(0, 0, Js.Slice(code, 0, d.generatedPos))] else [])
        + (if d.originalPos != 0 then [Edit(0, d.originalPos, "")] else []) + rest, 0) == code
  {
    var pre: seq<Edit> := if d.generatedPos != 0 then [Edit(0, 0, Js.Slice(code, 0, d.generatedPos))] else [];
    var rem: seq<Edit> := if d.originalPos != 0 then [Edit(0, d.originalPos, "")] else [];
    RemovalRenders(code, original, d, rest);
    PrefixRenders(code, original, d, rem + rest);
    Js.ConcatAssoc(pre, rem, rest);
  }

  /** Removing the original text before the first mapping, in front of edits that render the code from there. */
  lemma RemovalRenders(code: string, original: string, d: Resolved, rest: seq<Edit>)
    requires 0 <= d.generatedPos <= |code| && 0 <= d.originalPos <= |original|
    requires Ascending(rest, d.originalPos, |original|)
    requires Render(original, rest, d.originalPos) == code[d.generatedPos..]
    ensures var rem := if d.originalPos != 0 then [Edit(0, d.originalPos, "")] else [];
      Ascending(rem + rest, 0, |original|) && Render(original, rem + rest, 0) == code[d.generatedPos..]
  {
    if d.originalPos != 0 {
      var removal := Edit(0, d.originalPos, "");
      RenderCons(original, removal, rest, 0);
      assert original[0..0] + "" + Render(original, rest, d.originalPos) == Render(original, rest, d.originalPos);
    } else {
      assert [] + rest == rest;
    }
  }

  /** Inserting the generated text before the first mapping, in front of edits that render the code from there. */
  lemma PrefixRenders(code: string, original: string, d: Resolved, tail: seq<Edit>)
    requires 0 <= d.generatedPos <= |code|
    requires Ascending(tail, 0, |original|) && Render(original, tail, 0) == code[d.generatedPos..]
    ensures var pre := if d.generatedPos != 0 then [Edit(0, 0, Js.Slice(code, 0, d.generatedPos))] else [];
      Ascending(pre + tail, 0, |original|) && Render(original, pre + tail, 0) == code
  {
    if d.generatedPos != 0 {
      var pre := Edit(0, 0, code[..d.generatedPos]);
      RenderCons(original, pre, tail, 0);
      Js.SplitSlice(code, 0, d.generatedPos, |code|);
      assert original[0..0] + code[..d.generatedPos] + code[d.generatedPos..] == code;
    } else {
      assert [] + tail == tail;
    }
  }

  /** With no mappings the existing-map branch makes no call: the editor keeps the original text. */
  lemma RebuildWithoutMappings(code: string, len: int)
    ensures StepsFrom(code, len, PairsOf<Resolved>([]), 0) == []
  {
    assert PairsOf<Resolved>([])[0] == CallbackArgs(None, None);
  }

  /** The lookup bias of `originalPositionFor`. */
  datatype Bias = Default | LeastUpperBound | GreatestLowerBound

  type LineNo = x: int | x >= 1 witness 1

  /** What `generatedPositionFor` returns: a line and the columns the mapping spans. */
  datatype GeneratedRange = GeneratedRange(line: LineNo, column: int, lastColumn: int)

  /**
   * The source-map consumer of the editor's current map, as two lookups:
   * `originalPositionFor`, `None` when it answers with a null line or column,
   * and `generatedPositionFor`.
   */
  datatype Consumer = Consumer(originalFor: (LineCol, Bias) -> Option<LineCol>, generatedFor: LineCol -> GeneratedRange)

  /**
   * The call `updateByGenerated(start, end, code)` makes once an original text
   * is known: map `start`, `end` and `end - 1` of the current code back to the
   * original, take the generated text the start and the last mapping span,
   * put `code` into it at the same relative place, and update the whole
   * original range with it.
   */
  function Translation(current: string, originalText: string, c: Consumer, start: int, end: int, code: string): Result<Call>
  {
    var lines := Lines(current);
    var os := c.originalFor(LineColAt(current, start), Default);
    var oe := c.originalFor(LineColAt(current, end), LeastUpperBound);
    var ore := c.originalFor(LineColAt(current, end - 1), GreatestLowerBound);
    if os.None? || oe.None? || ore.None? then Err(InvalidSourceMap)
    else Ok(TranslatedUpdate(current, originalText, c, os.value, oe.value, ore.value, start, end, code))
  }

  /** The update once the three original positions are known. */
  function TranslatedUpdate(current: string, originalText: string, c: Consumer, os: LineCol, oe: LineCol, ore: LineCol,
                            start: int, end: int, code: string): Call
  {
    var lines := Lines(current);
    var gs := c.generatedFor(os);
    var ge := c.generatedFor(ore);
    var content := Between(lines, LineCol(gs.line, gs.column), LineCol(ge.line, ge.lastColumn), gs.line);
    var offset := PositionOf(lines, gs.line, gs.column);
    var origLines := Lines(originalText);
    Call.Update(PositionOf(origLines, os.line, os.column), PositionOf(origLines, oe.line, oe.column),
      Splice(content, start - offset, end - offset, code))
  }

  /** The translation, computed with the text helper's own loops. */
  method Translate(current: string, originalText: string, c: Consumer, start: int, end: int, code: string) returns (r: Result<Call>)
    ensures r == Translation(current, originalText, c, start, end, code)
  {
    var s := LineAndColumnOf(current, start);
    var e := LineAndColumnOf(current, end);
    var re := LineAndColumnOf(current, end - 1);
    assert s == LineColAt(current, start) && e == LineColAt(current, end) && re == LineColAt(current, end - 1);
    var os := c.originalFor(s, Default);
    if os.None? {
      return Err(InvalidSourceMap);
    }
    var oe := c.originalFor(e, LeastUpperBound);
    if oe.None? {
      return Err(InvalidSourceMap);
    }
    var ore := c.originalFor(re, GreatestLowerBound);
    if ore.None? {
      return Err(InvalidSourceMap);
    }
    var call := BuildUpdate(current, originalText, c, os.value, oe.value, ore.value, start, end, code);
    r := Ok(call);
  }

  /** The current code from the start of one generated range through the end of another. */
  method GeneratedContent(current: string, gs: GeneratedRange, ge: GeneratedRange) returns (content: string)
    ensures content == Between(Lines(current), LineCol(gs.line, gs.column), LineCol(ge.line, ge.lastColumn), gs.line)
  {
    content := TextBetweenLines(current, LineCol(gs.line, gs.column), LineCol(ge.line, ge.lastColumn));
  }

  method BuildUpdate(current: string, originalText: string, c: Consumer, os: LineCol, oe: LineCol, ore: LineCol,
                     start: int, end: int, code: string) returns (call: Call)
    ensures call == TranslatedUpdate(current, originalText, c, os, oe, ore, start, end, code)
  {
    var gs := c.generatedFor(os);
    var ge := c.generatedFor(ore);
    var content := GeneratedContent(current, gs, ge);
    var offset := PositionOf(Lines(current), gs.line, gs.column);
    var regenerated := Splice(content, start - offset, end - offset, code);
    var origLines := Lines(originalText);
    call := Call.Update(PositionOf(origLines, os.line, os.column), PositionOf(origLines, oe.line, oe.column), regenerated);
  }

  /**
   * `updateByGenerated(start, end, code)` on the editor: a plain update when no
   * original text is known, otherwise the translated update, or the error of
   * the first lookup that fails, with the editor left as it was.
   */
  method UpdateByGenerated(ms: MagicString, current: string, originalText: Option<string>, c: Consumer,
                           start: int, end: int, code: string) returns (r: Result<()>)
    modifies ms
    ensures originalText.None? ==> r.Ok? && ms.calls == old(ms.calls) + [Call.Update(start, end, code)]
    ensures originalText.Some? ==>
      match Translation(current, originalText.value, c, start, end, code)
      case Ok(call) => r.Ok? && ms.calls == old(ms.calls) + [call]
      case Err(err) => r == Err(err) && ms.calls == old(ms.calls)
  {
    if originalText.None? {
      ms.Update(start, end, code);
      return Ok(());
    }
    var t := Translate(current, originalText.value, c, start, end, code);
    if t.Err? {
      return Err(t.error);
    }
    var call := t.value;
    ms.Update(call.start, call.end, call.content);
    return Ok(());
  }

  /** The translation fails, with `InvalidSourceMap`, exactly when one of the three lookups finds no original position. */
  lemma TranslationFails(current: string, originalText: string, c: Consumer, start: int, end: int, code: string)
    ensures Translation(current, originalText, c, start, end, code).Err? <==>
      c.originalFor(LineColAt(current, start), Default).None?
      || c.originalFor(LineColAt(current, end), LeastUpperBound).None?
      || c.originalFor(LineColAt(current, end - 1), GreatestLowerBound).None?
    ensures Translation(current, originalText, c, start, end, code).Err? ==>
      Translation(current, originalText, c, start, end, code).error == InvalidSourceMap
    ensures Translation(current, originalText, c, start, end, code).Ok? ==>
      Translation(current, originalText, c, start, end, code).value.Update?
  {
  }

  /** A map that sends every position to itself, each mapping one column wide. */
  ghost predicate IsIdentity(c: Consumer)
  {
    (forall lc: LineCol, b: Bias :: c.originalFor(lc, b) == Some(lc))
    && forall lc: LineCol :: lc.line >= 1 ==> c.generatedFor(lc) == GeneratedRange(lc.line, lc.column, lc.column)
  }

  /**
   * Through the identity map, on an unchanged text, an update in generated
   * coordinates is the same update in original coordinates.
   */
  lemma IdentityTranslation(text: string, c: Consumer, start: int, end: int, code: string)
    requires IsIdentity(c)
    requires 0 <= start < end <= |text|
    ensures Translation(text, text, c, start, end, code) == Ok(Call.Update(start, end, code))
  {
    var s := LineColAt(text, start);
    var e := LineColAt(text, end);
    var re := LineColAt(text, end - 1);
    assert Translation(text, text, c, start, end, code) == Ok(TranslatedUpdate(text, text, c, s, e, re, start, end, code)) by {
      assert c.originalFor(s, Default) == Some(s);
      assert c.originalFor(e, LeastUpperBound) == Some(e);
      assert c.originalFor(re, GreatestLowerBound) == Some(re);
    }
    IdentityUpdate(text, c, start, end, code, s, e, re);
  }

  /** With the original positions found through the identity map, the update is the one asked for. */
  lemma IdentityUpdate(text: string, c: Consumer, start: int, end: int, code: string, s: LineCol, e: LineCol, re: LineCol)
    requires IsIdentity(c)
    requires 0 <= start < end <= |text|
    requires s == LineColAt(text, start) && e == LineColAt(text, end) && re == LineColAt(text, end - 1)
    ensures TranslatedUpdate(text, text, c, s, e, re, start, end, code) == Call.Update(start, end, code)
  {
    var lines := Lines(text);
    assert ValidLineCol(lines, s) && PositionOf(lines, s.line, s.column) == start by {
      LineColAtRoundTrip(text, start);
    }
    assert PositionOf(lines, e.line, e.column) == end by {
      LineColAtRoundTrip(text, end);
    }
    assert ValidLineCol(lines, re) && PositionOf(lines, re.line, re.column) == end - 1 by {
      LineColAtRoundTrip(text, end - 1);
    }
    assert c.generatedFor(s) == GeneratedRange(s.line, s.column, s.column);
    assert c.generatedFor(re) == GeneratedRange(re.line, re.column, re.column);
    assert LineCol(s.line, s.column) == s && LineCol(re.line, re.column) == re;
    var x := EndIncl(lines, re);
    var content := Between(lines, s, re, s.line);
    assert content == text[start..x] by {
      BetweenOfText(text, s, re);
    }
    assert Splice(content, 0, end - start, code) == code;
  }
}
