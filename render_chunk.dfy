/**
 * The `renderChunk` hook: prepend the chunk's reference directives, then
 * post-process the bundled text with the two reconcilers, applying the
 * namespace fixes from the back and the export rewrites from the front with
 * a running offset. Both loops skip an edit whose replacement is already
 * what the range holds.
 */
module RenderChunk {
  import Js
  import opened Wrappers
  import opened Ast
  import opened Edits
  import opened MockEditor
  import NamespaceFinder
  import ExportsFinder

  /** The operating system's `path.dirname`, `path.join` and `path.relative`. */
  datatype PathOps = PathOps(dirname: string -> string, join: (string, string) -> string, relative: (string, string) -> string)

  /** The `sourcemap` output option: `false`, `true`, `"inline"` or `"hidden"`. */
  datatype SourcemapOption = NoSourcemap | FileSourcemap | InlineSourcemap | HiddenSourcemap

  datatype OutputOptions = OutputOptions(file: Option<string>, sourcemap: SourcemapOption)

  /** What the hook reads of the rendered chunk. */
  datatype Chunk = Chunk(fileName: string, moduleIds: seq<string>, facadeModuleId: Option<string>)

  /** A plain string, or code with a source map (the map itself is not modelled). */
  datatype ChunkOutput = Code(code: string) | CodeWithMap(mapped: string)

  /** The references each module's preprocessing recorded, keyed by file name with forward slashes. */
  datatype References = References(types: map<string, seq<string>>, files: map<string, seq<string>>)

  /** A map is wanted unless `sourcemap` is `false` or `"hidden"`. */
  predicate SourceMapEnabled(o: OutputOptions)
  {
    o.sourcemap != NoSourcemap && o.sourcemap != HiddenSourcemap
  }

  /** `fileName.split("\\").join("/")`. */
  function ModuleKey(fileName: string): string
  {
    Js.Join(Js.Split(fileName, '\\'), "/")
  }

  /** The key is the file name with every backslash turned into a slash. */
  lemma ModuleKeySlashes(fileName: string)
    ensures ModuleKey(fileName) == Js.ReplaceChar(fileName, '\\', '/')
    ensures '\\' !in ModuleKey(fileName)
  {
    Js.SplitJoinReplaces(fileName, '\\', '/');
    var r := ModuleKey(fileName);
    assert forall k :: 0 <= k < |r| ==> r[k] != '\\';
  }

  /** `map.get(key) || []`. */
  function Lookup(m: map<string, seq<string>>, key: string): seq<string>
  {
    if key in m then m[key] else []
  }

  /** `options.file && dirname(options.file)`, else the facade module's directory, else ".": a falsy `""` falls through. */
  function ChunkFolder(ops: PathOps, options: OutputOptions, chunk: Chunk): string
  {
    if options.file.Some? && options.file.value != "" && ops.dirname(options.file.value) != "" then ops.dirname(options.file.value)
    else if chunk.facadeModuleId.Some? && chunk.facadeModuleId.value != "" && ops.dirname(chunk.facadeModuleId.value) != "" then
      ops.dirname(chunk.facadeModuleId.value)
    else "."
  }

  /** A relative reference re-relativised to the chunk's folder, with forward slashes and a leading "./" when it lacks a "."; others as written. */
  function FileReference(ops: PathOps, folder: string, fileName: string, ref: string): string
  {
    if Js.StartsWith(ref, ".") then
      var target := Js.Join(Js.Split(ops.relative(folder, ops.join(ops.dirname(fileName), ref)), '\\'), "/");
      if |target| == 0 || target[0] != '.' then "./" + target else target
    else ref
  }

  lemma FileReferenceForm(ops: PathOps, folder: string, fileName: string, ref: string)
    ensures !Js.StartsWith(ref, ".") ==> FileReference(ops, folder, fileName, ref) == ref
    ensures Js.StartsWith(ref, ".") ==>
      var r := FileReference(ops, folder, fileName, ref);
      Js.StartsWith(r, ".") && '\\' !in r
      && r == (var t := Js.ReplaceChar(ops.relative(folder, ops.join(ops.dirname(fileName), ref)), '\\', '/');
               if |t| > 0 && t[0] == '.' then t else "./" + t)
  {
    if Js.StartsWith(ref, ".") {
      var raw := ops.relative(folder, ops.join(ops.dirname(fileName), ref));
      Js.SplitJoinReplaces(raw, '\\', '/');
      var t := Js.ReplaceChar(raw, '\\', '/');
      assert '\\' !in t by {
        forall k | 0 <= k < |t| ensures t[k] != '\\' { }
      }
      if |t| == 0 || t[0] != '.' {
        assert ("./" + t)[0] == '.';
        assert ("./" + t)[..1] == ".";
      } else {
        assert t[..1] == ".";
      }
    }
  }

  /** `set.add` of every element in turn. */
  function AddAll(acc: seq<string>, xs: seq<string>): (r: seq<string>)
    ensures Js.NoDup(acc) ==> Js.NoDup(r)
    ensures forall y :: y in r <==> y in acc || y in xs
    decreases |xs|
  {
    if |xs| == 0 then acc else Js.SetAdd(AddAll(acc, xs[..|xs| - 1]), xs[|xs| - 1])
  }

  /** A set filled from each list in turn. */
  function Gathered(lists: seq<seq<string>>): seq<string>
    decreases |lists|
  {
    if |lists| == 0 then [] else AddAll(Gathered(lists[..|lists| - 1]), lists[|lists| - 1])
  }

  /** The set holds each element of some list, each once. */
  lemma {:induction false} GatheredMembers(lists: seq<seq<string>>)
    ensures Js.NoDup(Gathered(lists))
    ensures forall y :: y in Gathered(lists) <==> exists k :: 0 <= k < |lists| && y in lists[k]
    decreases |lists|
  {
    if |lists| > 0 {
      var init := lists[..|lists| - 1];
      GatheredMembers(init);
      forall y ensures y in Gathered(lists) <==> exists k :: 0 <= k < |lists| && y in lists[k]
      {
        if exists k :: 0 <= k < |lists| && y in lists[k] {
          var k :| 0 <= k < |lists| && y in lists[k];
          if k < |init| {
            assert init[k] == lists[k];
          }
        }
        if y in Gathered(init) {
          var k :| 0 <= k < |init| && y in init[k];
          assert init[k] == lists[k];
        }
      }
    }
  }

  /** The type references each module recorded. */
  function TypeLists(refs: References, ids: seq<string>): (r: seq<seq<string>>)
    ensures |r| == |ids| && forall k :: 0 <= k < |ids| ==> r[k] == Lookup(refs.types, ModuleKey(ids[k]))
  {
    seq(|ids|, k requires 0 <= k < |ids| => Lookup(refs.types, ModuleKey(ids[k])))
  }

  /** The file references one module recorded, rewritten for the chunk's folder. */
  function MappedFileReferences(ops: PathOps, folder: string, refs: References, id: string): (r: seq<string>)
    ensures var files := Lookup(refs.files, ModuleKey(id));
      |r| == |files| && forall j :: 0 <= j < |files| ==> r[j] == FileReference(ops, folder, id, files[j])
  {
    var files := Lookup(refs.files, ModuleKey(id));
    seq(|files|, j requires 0 <= j < |files| => FileReference(ops, folder, id, files[j]))
  }

  function FileLists(ops: PathOps, folder: string, refs: References, ids: seq<string>): (r: seq<seq<string>>)
    ensures |r| == |ids| && forall k :: 0 <= k < |ids| ==> r[k] == MappedFileReferences(ops, folder, refs, ids[k])
  {
    seq(|ids|, k requires 0 <= k < |ids| => MappedFileReferences(ops, folder, refs, ids[k]))
  }

  /** The two reference sets after the modules `ids`, in insertion order. */
  function CollectedReferences(ops: PathOps, folder: string, refs: References, ids: seq<string>): (seq<string>, seq<string>)
  {
    (Gathered(TypeLists(refs, ids)), Gathered(FileLists(ops, folder, refs, ids)))
  }

  /**
   * The type references are exactly those some module of the chunk recorded,
   * each once; the file references are those modules' references, each
   * rewritten for the chunk's folder, each once.
   */
  lemma CollectedReferencesMembers(ops: PathOps, folder: string, refs: References, ids: seq<string>)
    ensures Js.NoDup(CollectedReferences(ops, folder, refs, ids).0) && Js.NoDup(CollectedReferences(ops, folder, refs, ids).1)
    ensures forall t :: t in CollectedReferences(ops, folder, refs, ids).0 <==>
      exists k :: 0 <= k < |ids| && t in Lookup(refs.types, ModuleKey(ids[k]))
    ensures forall f :: f in CollectedReferences(ops, folder, refs, ids).1 <==>
      exists k :: 0 <= k < |ids| && f in MappedFileReferences(ops, folder, refs, ids[k])
  {
    GatheredMembers(TypeLists(refs, ids));
    GatheredMembers(FileLists(ops, folder, refs, ids));
  }

  lemma ListsSnoc(ops: PathOps, folder: string, refs: References, ids: seq<string>, k: nat)
    requires k < |ids|
    ensures TypeLists(refs, ids[..k + 1]) == TypeLists(refs, ids[..k]) + [Lookup(refs.types, ModuleKey(ids[k]))]
    ensures FileLists(ops, folder, refs, ids[..k + 1]) == FileLists(ops, folder, refs, ids[..k]) + [MappedFileReferences(ops, folder, refs, ids[k])]
  {
    assert TypeLists(refs, ids[..k + 1]) == TypeLists(refs, ids[..k]) + [Lookup(refs.types, ModuleKey(ids[k]))];
    assert FileLists(ops, folder, refs, ids[..k + 1]) == FileLists(ops, folder, refs, ids[..k]) + [MappedFileReferences(ops, folder, refs, ids[k])];
  }

  /** The loops over `chunk.modules` that fill the two reference sets. */
  method CollectReferences(ops: PathOps, options: OutputOptions, chunk: Chunk, refs: References)
    returns (typeReferences: seq<string>, fileReferences: seq<string>)
    ensures (typeReferences, fileReferences) == CollectedReferences(ops, ChunkFolder(ops, options, chunk), refs, chunk.moduleIds)
  {
    typeReferences := [];
    fileReferences := [];
    ghost var folder := ChunkFolder(ops, options, chunk);
    var ids := chunk.moduleIds;
    var k := 0;
    while k < |ids|
      invariant 0 <= k <= |ids|
      invariant typeReferences == Gathered(TypeLists(refs, ids[..k]))
      invariant fileReferences == Gathered(FileLists(ops, folder, refs, ids[..k]))
    {
      ListsSnoc(ops, folder, refs, ids, k);
      var fileName := ids[k];
      typeReferences := AddTypeReferences(typeReferences, Lookup(refs.types, ModuleKey(fileName)));
      fileReferences := AddFileReferences(ops, options, chunk, fileReferences, fileName, Lookup(refs.files, ModuleKey(fileName)));
      k := k + 1;
    }
    assert ids[..k] == ids;
  }

  /** The inner loop over a module's type references. */
  method AddTypeReferences(typeReferences: seq<string>, types: seq<string>) returns (r: seq<string>)
    ensures r == AddAll(typeReferences, types)
  {
    r := typeReferences;
    var i := 0;
    while i < |types|
      invariant 0 <= i <= |types|
      invariant r == AddAll(typeReferences, types[..i])
    {
      assert types[..i + 1][..i] == types[..i];
      r := Js.SetAdd(r, types[i]);
      i := i + 1;
    }
    assert types[..i] == types;
  }

  /** The inner loop over a module's file references, re-relativising the relative ones. */
  method AddFileReferences(ops: PathOps, options: OutputOptions, chunk: Chunk, fileReferences: seq<string>, fileName: string, files: seq<string>)
    returns (r: seq<string>)
    ensures r == AddAll(fileReferences, seq(|files|, j requires 0 <= j < |files| => FileReference(ops, ChunkFolder(ops, options, chunk), fileName, files[j])))
  {
    ghost var mapped := seq(|files|, j requires 0 <= j < |files| => FileReference(ops, ChunkFolder(ops, options, chunk), fileName, files[j]));
    r := fileReferences;
    var j := 0;
    while j < |files|
      invariant 0 <= j <= |files|
      invariant r == AddAll(fileReferences, mapped[..j])
    {
      assert mapped[..j + 1][..j] == mapped[..j];
      var ref := files[j];
      if Js.StartsWith(ref, ".") {
        var absolutePathToOriginal := ops.join(ops.dirname(fileName), ref);
        var chunkFolder := ChunkFolder(ops, options, chunk);
        var targetRelPath := Js.Join(Js.Split(ops.relative(chunkFolder, absolutePathToOriginal), '\\'), "/");
        if |targetRelPath| == 0 || targetRelPath[0] != '.' {
          targetRelPath := "./" + targetRelPath;
        }
        r := Js.SetAdd(r, targetRelPath);
      } else {
        r := Js.SetAdd(r, ref);
      }
      j := j + 1;
    }
    assert mapped[..j] == mapped;
  }

  function PathLine(ref: string): string
  {
    "/// <reference path=\"" + ref + "\" />"
  }

  function TypesLine(ref: string): string
  {
    "/// <reference types=\"" + ref + "\" />"
  }

  /** `refLines`: the path directives, the types directives, and an empty last line. */
  function RefLines(fileReferences: seq<string>, typeReferences: seq<string>): (r: seq<string>)
    ensures |r| == |fileReferences| + |typeReferences| + 1
  {
    seq(|fileReferences|, i requires 0 <= i < |fileReferences| => PathLine(fileReferences[i]))
      + seq(|typeReferences|, i requires 0 <= i < |typeReferences| => TypesLine(typeReferences[i]))
      + [""]
  }

  /** What is prepended: nothing without references, otherwise every line followed by a newline. */
  function ReferenceHeader(fileReferences: seq<string>, typeReferences: seq<string>): string
  {
    var lines := RefLines(fileReferences, typeReferences);
    if |lines| > 1 then Js.Join(lines, "\n") else ""
  }

  /** The directive header is empty exactly when there are no references; otherwise it is the path lines, then the types lines, joined, with a final newline. */
  lemma ReferenceHeaderShape(fileReferences: seq<string>, typeReferences: seq<string>)
    ensures |fileReferences| + |typeReferences| == 0 <==> ReferenceHeader(fileReferences, typeReferences) == ""
    ensures |fileReferences| + |typeReferences| > 0 ==>
      var directives := seq(|fileReferences|, i requires 0 <= i < |fileReferences| => PathLine(fileReferences[i]))
        + seq(|typeReferences|, i requires 0 <= i < |typeReferences| => TypesLine(typeReferences[i]));
      ReferenceHeader(fileReferences, typeReferences) == Js.Join(directives, "\n") + "\n"
  {
    var directives := seq(|fileReferences|, i requires 0 <= i < |fileReferences| => PathLine(fileReferences[i]))
      + seq(|typeReferences|, i requires 0 <= i < |typeReferences| => TypesLine(typeReferences[i]));
    if |fileReferences| + |typeReferences| > 0 {
      Js.JoinSnoc(directives, "", "\n");
      var h := ReferenceHeader(fileReferences, typeReferences);
      assert |h| > 0;
    }
  }

  /** The edits a list of `(location, code)` pairs stands for. */
  function EditsOf(fixes: seq<(Location, string)>): (r: seq<Edit>)
    ensures |r| == |fixes|
    ensures forall i :: 0 <= i < |fixes| ==> r[i] == Edit(fixes[i].0.start, fixes[i].0.end, fixes[i].1)
  {
    seq(|fixes|, i requires 0 <= i < |fixes| => Edit(fixes[i].0.start, fixes[i].0.end, fixes[i].1))
  }

  /** The namespace loop: each edit spliced into the current text at its own position, unless `code` already holds it there. */
  function AppliedInPlace(code: string, ds: seq<Edit>): string
    decreases |ds|
  {
    if |ds| == 0 then code else InPlaceStepText(code, AppliedInPlace(code, ds[..|ds| - 1]), ds[|ds| - 1])
  }

  /** One iteration of the namespace loop on the current text `cur`. */
  function InPlaceStepText(code: string, cur: string, x: Edit): string
  {
    if Js.Slice(code, x.start, x.end) == x.code then cur else Splice(cur, x.start, x.end, x.code)
  }

  /** The export loop: each edit spliced at its position moved by what earlier edits added, unless `code` already holds it there. */
  function AppliedWithOffset(code: string, ds: seq<Edit>): (string, int)
  {
    WithOffsetUpTo(code, ds, |ds|)
  }

  /** The text and offset of the export loop after the first `n` edits. */
  function WithOffsetUpTo(code: string, ds: seq<Edit>, n: nat): (string, int)
    requires n <= |ds|
    decreases n
  {
    if n == 0 then (code, 0) else ShiftStep(code, WithOffsetUpTo(code, ds, n - 1), ds[n - 1])
  }

  /** One iteration of the export loop on the current text and offset. */
  function ShiftStep(code: string, state: (string, int), x: Edit): (string, int)
  {
    var original := Js.Slice(code, x.start, x.end);
    if original == x.code then state
    else (Splice(state.0, x.start + state.1, x.end + state.1, x.code), state.1 + |x.code| - |original|)
  }

  /**
   * One step of the namespace loop: with the text untouched up to the end
   * of `x` and rendered after it, applying or skipping `x` gives the text
   * untouched up to `c` and rendered from there.
   */
  lemma InPlaceStep(code: string, x: Edit, rest: seq<Edit>, c: int, cur: string)
    requires 0 <= c <= x.start <= x.end && Ascending(rest, x.end, |code|)
    requires cur == code[..x.end] + Render(code, rest, x.end)
    ensures Ascending([x] + rest, c, |code|)
    ensures InPlaceStepText(code, cur, x) == code[..c] + Render(code, [x] + rest, c)
  {
    RenderCons(code, x, rest, c);
    var tail := Render(code, rest, x.end);
    InPlaceText(code, x, tail, cur);
    Js.ConcatAssoc(code[..c], code[c..x.start], x.code);
    Js.ConcatAssoc(code[..c], code[c..x.start] + x.code, tail);
    assert code[..x.start] == code[..c] + code[c..x.start];
  }

  /** Applying or skipping `x` on the text untouched up to its end puts its code after the untouched text before it. */
  lemma InPlaceText(code: string, x: Edit, tail: string, cur: string)
    requires 0 <= x.start <= x.end <= |code|
    requires cur == code[..x.end] + tail
    ensures InPlaceStepText(code, cur, x) == code[..x.start] + x.code + tail
  {
    var head := code[..x.end];
    assert |head| == x.end;
    if Js.Slice(code, x.start, x.end) == x.code {
      assert head == code[..x.start] + x.code;
    } else {
      Js.TakeConcatLeft(head, tail, x.start);
      Js.DropConcat(head, tail, 0);
      assert cur[..x.start] == code[..x.start];
      assert cur[x.end..] == tail;
      assert Splice(cur, x.start, x.end, x.code) == cur[..x.start] + x.code + cur[x.end..];
    }
  }

  /**
   * Applying the edits in the order given, each at its own position, when
   * the list taken in reverse ascends without overlap from `c`, leaves the
   * text before `c` and renders every replacement after it; skipping an
   * edit whose text is already in place changes nothing.
   */
  lemma {:induction false} AppliedInPlaceFrom(code: string, ds: seq<Edit>, c: int)
    requires Ascending(Reverse(ds), c, |code|)
    ensures AppliedInPlace(code, ds) == code[..c] + Render(code, Reverse(ds), c)
    decreases |ds|
  {
    if |ds| == 0 {
      assert code[..c] + code[c..] == code;
    } else {
      var init := ds[..|ds| - 1];
      var x := ds[|ds| - 1];
      assert ds == init + [x];
      ReverseSnoc(init, x);
      var rest := Reverse(init);
      assert Reverse(ds) == [x] + rest;
      assert ([x] + rest)[1..] == rest;
      AppliedInPlaceFrom(code, init, x.end);
      InPlaceStep(code, x, rest, c, AppliedInPlace(code, init));
    }
  }

  /** The namespace loop's meaning: the whole text with every edit rendered in, when the edits come in descending order. */
  lemma AppliedInPlaceRenders(code: string, ds: seq<Edit>)
    requires Ascending(Reverse(ds), 0, |code|)
    ensures AppliedInPlace(code, ds) == SpliceAll(code, Reverse(ds))
  {
    AppliedInPlaceFrom(code, ds, 0);
  }

  /** What an ascending edit list says about the edit at `k` and the rest after it. */
  lemma {:induction false} AscendingAt(es: seq<Edit>, c: int, len: int, k: nat)
    requires Ascending(es, c, len) && k < |es|
    ensures 0 <= es[k].start <= es[k].end <= len
    ensures Ascending(es[k + 1..], es[k].end, len)
    ensures k == 0 ==> c <= es[0].start
    ensures k > 0 ==> es[k - 1].end <= es[k].start
    decreases k
  {
    if k > 0 {
      AscendingAt(es[1..], es[0].end, len, k - 1);
      assert es[1..][k..] == es[k + 1..];
      assert es[1..][k - 1] == es[k];
      if k > 1 {
        assert es[1..][k - 2] == es[k - 1];
      }
    }
  }

  /** The end of the last edit among the first `k`, or 0. */
  function Reached(es: seq<Edit>, k: nat): int
    requires k <= |es|
  {
    if k == 0 then 0 else es[k - 1].end
  }

  /** The text the front-to-back loop has finished after `k` edits: everything up to the end of edit `k - 1`, rendered. */
  function Done(code: string, es: seq<Edit>, k: nat): string
    requires k <= |es|
    decreases k
  {
    if k == 0 then "" else Done(code, es, k - 1) + Js.Slice(code, Reached(es, k - 1), es[k - 1].start) + es[k - 1].code
  }

  /** The edits from `k` on lie after the first `k`. */
  lemma AscendingRest(es: seq<Edit>, len: int, k: nat)
    requires Ascending(es, 0, len) && k <= |es|
    ensures Ascending(es[k..], Reached(es, k), len)
    ensures 0 <= Reached(es, k) <= len
    ensures k < |es| ==> Reached(es, k) <= es[k].start
  {
    if k == 0 {
      assert es[0..] == es;
      if |es| > 0 {
        AscendingAt(es, 0, len, 0);
      }
    } else {
      AscendingAt(es, 0, len, k - 1);
      if k < |es| {
        AscendingAt(es, 0, len, k);
      }
    }
  }

  /** The step of `RenderSplit`: one more edit moves from the rest into the finished part. */
  lemma RenderSplitStep(code: string, es: seq<Edit>, k: nat, c: int)
    requires k < |es| && c == Reached(es, k) && Ascending(es[k..], c, |code|)
    ensures Render(code, es[k..], c) == Js.Slice(code, c, es[k].start) + es[k].code + Render(code, es[k + 1..], es[k].end)
  {
    assert es[k..][0] == es[k];
    assert es[k..][1..] == es[k + 1..];
  }

  /** The rendered text is the finished part followed by the rest rendered from where it stops. */
  lemma {:induction false} RenderSplit(code: string, es: seq<Edit>, k: nat)
    requires k <= |es| && Ascending(es, 0, |code|)
    ensures Ascending(es[k..], Reached(es, k), |code|)
    ensures Render(code, es, 0) == Done(code, es, k) + Render(code, es[k..], Reached(es, k))
    decreases k
  {
    AscendingRest(es, |code|, k);
    if k == 0 {
      assert es[0..] == es;
    } else {
      RenderSplit(code, es, k - 1);
      RenderSplitNext(code, es, k);
    }
  }

  /** The step of `RenderSplit`, from `k - 1` to `k`. */
  lemma RenderSplitNext(code: string, es: seq<Edit>, k: nat)
    requires 0 < k <= |es| && Ascending(es, 0, |code|)
    requires Ascending(es[k - 1..], Reached(es, k - 1), |code|) && Ascending(es[k..], Reached(es, k), |code|)
    requires Render(code, es, 0) == Done(code, es, k - 1) + Render(code, es[k - 1..], Reached(es, k - 1))
    ensures Render(code, es, 0) == Done(code, es, k) + Render(code, es[k..], Reached(es, k))
  {
    var c := Reached(es, k - 1);
    RenderSplitStep(code, es, k - 1, c);
    var d := Done(code, es, k - 1);
    var a := Js.Slice(code, c, es[k - 1].start);
    var g := es[k - 1].code;
    var rest := Render(code, es[k..], es[k - 1].end);
    assert Done(code, es, k) == d + a + g;
    Js.ConcatAssoc(d, a + g, rest);
  }

  /**
   * One step of the export loop: with the finished part `done` followed by
   * the untouched text from `c`, and the offset equal to how much `done`
   * has grown, applying or skipping `x` keeps that form one edit further.
   */
  lemma WithOffsetStep(code: string, done: string, c: int, x: Edit, state: (string, int), next: string)
    requires 0 <= c <= x.start <= x.end <= |code|
    requires state.0 == done + code[c..] && state.1 == |done| - c
    requires next == done + Js.Slice(code, c, x.start) + x.code
    ensures ShiftStep(code, state, x) == (next + code[x.end..], |next| - x.end)
  {
    if Js.Slice(code, x.start, x.end) == x.code {
      SkipInPlace(code, done, c, x, next);
    } else {
      ShiftedSplice(code, done, c, x.start, x.end, x.code);
    }
  }

  /** Skipping an edit whose code is already in place leaves the same text, finished one edit further. */
  lemma SkipInPlace(code: string, done: string, c: int, x: Edit, next: string)
    requires 0 <= c <= x.start <= x.end <= |code| && code[x.start..x.end] == x.code
    requires next == done + code[c..x.start] + x.code
    ensures done + code[c..] == next + code[x.end..] && |done| - c == |next| - x.end
  {
    var a := code[c..x.start];
    var z := code[x.end..];
    Js.SplitSlice(code, c, x.start, |code|);
    Js.SplitSlice(code, x.start, x.end, |code|);
    assert code[c..] == a + (x.code + z);
    Js.ConcatAssoc(a, x.code, z);
    Js.ConcatAssoc(done, a + x.code, z);
    Js.ConcatAssoc(done, a, x.code);
  }

  /** The loop's state after `k` edits as it should be: the finished part, the untouched rest, and the growth as offset. */
  function Fitted(code: string, es: seq<Edit>, k: nat): (string, int)
    requires k <= |es| && 0 <= Reached(es, k) <= |code|
  {
    (Done(code, es, k) + code[Reached(es, k)..], |Done(code, es, k)| - Reached(es, k))
  }

  /** After `k` edits the text is the finished part and the untouched rest, and the offset is how much the finished part has grown. */
  lemma {:induction false} WithOffsetPrefix(code: string, es: seq<Edit>, k: nat)
    requires k <= |es| && Ascending(es, 0, |code|)
    ensures 0 <= Reached(es, k) <= |code|
    ensures WithOffsetUpTo(code, es, k) == Fitted(code, es, k)
    decreases k
  {
    if k == 0 {
      WithOffsetStart(code, es);
    } else {
      WithOffsetPrefix(code, es, k - 1);
      WithOffsetNext(code, es, k);
    }
  }

  /** Before the first edit nothing is finished and the offset is zero. */
  lemma WithOffsetStart(code: string, es: seq<Edit>)
    ensures WithOffsetUpTo(code, es, 0) == Fitted(code, es, 0)
  {
    assert "" + code[0..] == code;
  }

  /** The step of `WithOffsetPrefix`, from `k - 1` to `k`. */
  lemma WithOffsetNext(code: string, es: seq<Edit>, k: nat)
    requires 0 < k <= |es| && Ascending(es, 0, |code|) && 0 <= Reached(es, k - 1) <= |code|
    requires WithOffsetUpTo(code, es, k - 1) == Fitted(code, es, k - 1)
    ensures 0 <= Reached(es, k) <= |code|
    ensures WithOffsetUpTo(code, es, k) == Fitted(code, es, k)
  {
    AscendingRest(es, |code|, k - 1);
    AscendingAt(es, 0, |code|, k - 1);
    ShiftStepFits(code, es, k, WithOffsetUpTo(code, es, k - 1));
  }

  /** Edit `k - 1` applied to the loop's state after `k - 1` edits gives the state after `k`. */
  lemma ShiftStepFits(code: string, es: seq<Edit>, k: nat, prev: (string, int))
    requires 0 < k <= |es|
    requires 0 <= Reached(es, k - 1) <= es[k - 1].start <= es[k - 1].end <= |code|
    requires prev == Fitted(code, es, k - 1)
    ensures 0 <= Reached(es, k) <= |code|
    ensures ShiftStep(code, prev, es[k - 1]) == Fitted(code, es, k)
  {
    var x := es[k - 1];
    var c := Reached(es, k - 1);
    var d := Done(code, es, k - 1);
    var n := Done(code, es, k);
    assert n == d + Js.Slice(code, c, x.start) + x.code by {
      DoneNext(code, es, k);
    }
    assert Fitted(code, es, k) == (n + code[x.end..], |n| - x.end) by {
      FittedAt(code, es, k);
    }
    WithOffsetStep(code, d, c, x, prev, n);
  }

  /** After at least one edit, the untouched rest starts at the end of the last edit. */
  lemma FittedAt(code: string, es: seq<Edit>, k: nat)
    requires 0 < k <= |es| && 0 <= es[k - 1].end <= |code|
    ensures 0 <= Reached(es, k) <= |code|
    ensures Fitted(code, es, k) == (Done(code, es, k) + code[es[k - 1].end..], |Done(code, es, k)| - es[k - 1].end)
  {
  }

  /** Edit `k - 1` adds the untouched text before it and its code to the finished part. */
  lemma DoneNext(code: string, es: seq<Edit>, k: nat)
    requires 0 < k <= |es|
    ensures Done(code, es, k) == Done(code, es, k - 1) + Js.Slice(code, Reached(es, k - 1), es[k - 1].start) + es[k - 1].code
  {
  }

  /**
   * The export loop's meaning: applying ascending, non-overlapping edits
   * front to back, each moved by the growth of the edits before it, renders
   * every replacement into the unedited text; skipped edits change nothing.
   */
  lemma AppliedWithOffsetRenders(code: string, es: seq<Edit>)
    requires Ascending(es, 0, |code|)
    ensures AppliedWithOffset(code, es).0 == SpliceAll(code, es)
  {
    WithOffsetPrefix(code, es, |es|);
    RenderSplit(code, es, |es|);
    AscendingRest(es, |code|, |es|);
    assert es[|es|..] == [];
  }

  /** The first loop: `ms.update` for every namespace fix that changes its range of `code`. */
  method ApplyInPlace(ms: MagicStringMock, code: string, fixes: seq<(Location, string)>)
    modifies ms
    requires ms.text == code
    ensures ms.text == AppliedInPlace(code, EditsOf(fixes))
  {
    var edits := EditsOf(fixes);
    var k := 0;
    while k < |edits|
      invariant 0 <= k <= |edits|
      invariant ms.text == AppliedInPlace(code, edits[..k])
    {
      assert edits[..k + 1][..k] == edits[..k];
      var x := edits[k];
      var originalCode := Js.Slice(code, x.start, x.end);
      if originalCode != x.code {
        ms.Update(x.start, x.end, x.code);
      }
      k := k + 1;
    }
    assert edits[..k] == edits;
  }

  /** The second loop: `ms.updateByGenerated` shifted by `offset`, which grows by each applied fix's change in length. */
  method ApplyWithOffset(ms: MagicStringMock, code: string, fixes: seq<(Location, string)>)
    modifies ms
    requires ms.text == code
    ensures ms.text == AppliedWithOffset(code, EditsOf(fixes)).0
  {
    var edits := EditsOf(fixes);
    var offset := 0;
    var k := 0;
    while k < |edits|
      invariant 0 <= k <= |edits|
      invariant (ms.text, offset) == WithOffsetUpTo(code, edits, k)
    {
      offset := ExportFix(ms, code, edits, k, offset);
      k := k + 1;
    }
  }

  /** Iteration `k` of the export loop takes the loop's state after `k` edits to its state after `k + 1`. */
  method ExportFix(ms: MagicStringMock, code: string, edits: seq<Edit>, k: nat, offset: int) returns (next: int)
    modifies ms
    requires k < |edits| && (ms.text, offset) == WithOffsetUpTo(code, edits, k)
    ensures (ms.text, next) == WithOffsetUpTo(code, edits, k + 1)
  {
    next := ShiftEdit(ms, code, edits[k], offset, WithOffsetUpTo(code, edits, k));
  }

  /** One iteration of the export loop, on the editor and the running offset. */
  method ShiftEdit(ms: MagicStringMock, code: string, x: Edit, offset: int, ghost state: (string, int)) returns (next: int)
    modifies ms
    requires state == (ms.text, offset)
    ensures (ms.text, next) == ShiftStep(code, state, x)
  {
    var originalCode := Js.Slice(code, x.start, x.end);
    next := offset;
    if originalCode != x.code {
      ms.UpdateByGenerated(x.start + offset, x.end + offset, x.code);
      next := offset + |x.code| - |originalCode|;
    }
  }

  /** The text once the reference header is prepended. */
  function Prepended(ops: PathOps, options: OutputOptions, chunk: Chunk, refs: References, inputCode: string): string
  {
    var (typeReferences, fileReferences) := CollectedReferences(ops, ChunkFolder(ops, options, chunk), refs, chunk.moduleIds);
    ReferenceHeader(fileReferences, typeReferences) + inputCode
  }

  /** The text after the namespace fixes of its parse. */
  function NamespacesFixed(code: string, parse: string -> seq<Stmt>): Result<string>
  {
    var fixes :- NamespaceFinder.Fixes(parse(code));
    Ok(AppliedInPlace(code, EditsOf(fixes)))
  }

  /** The text after the export rewrites of its parse. */
  function ExportsFixed(code: string, parse: string -> seq<Stmt>): string
  {
    AppliedWithOffset(code, EditsOf(ExportsFinder.ExportEdits(ExportsFinder.Collect(parse(code))))).0
  }

  /** The output for a non-empty text. */
  function PostProcessed(code: string, options: OutputOptions, parse: string -> seq<Stmt>): Result<ChunkOutput>
  {
    var fixed :- NamespacesFixed(code, parse);
    var final := ExportsFixed(fixed, parse);
    if SourceMapEnabled(options) then Ok(CodeWithMap(final)) else Ok(Code(final))
  }

  /** The hook's result, as a function of its inputs and the parser. */
  function Rendered(ops: PathOps, options: OutputOptions, chunk: Chunk, refs: References, inputCode: string, parse: string -> seq<Stmt>)
    : Result<ChunkOutput>
  {
    var code := Prepended(ops, options, chunk, refs, inputCode);
    if code == "" then Ok(Code("export {  }")) else PostProcessed(code, options, parse)
  }

  /** An empty chunk renders as an empty export exactly when it has no references to prepend. */
  lemma EmptyChunk(ops: PathOps, options: OutputOptions, chunk: Chunk, refs: References, parse: string -> seq<Stmt>)
    ensures var (t, f) := CollectedReferences(ops, ChunkFolder(ops, options, chunk), refs, chunk.moduleIds);
      |t| + |f| == 0 <==> Prepended(ops, options, chunk, refs, "") == ""
    ensures Prepended(ops, options, chunk, refs, "") == "" ==> Rendered(ops, options, chunk, refs, "", parse) == Ok(Code("export {  }"))
  {
    var (t, f) := CollectedReferences(ops, ChunkFolder(ops, options, chunk), refs, chunk.moduleIds);
    ReferenceHeaderShape(f, t);
  }

  /** Edits over locations in order inside `[from, len]`, from `0` on, are well placed. */
  lemma {:induction false} LocationsAscending(es: seq<Edit>, ls: seq<Location>, from: int, len: int)
    requires |es| == |ls| && forall i :: 0 <= i < |es| ==> es[i].start == ls[i].start && es[i].end == ls[i].end
    requires 0 <= from && LocationsIn(ls, from, len)
    ensures Ascending(es, from, len)
    decreases |es|
  {
    if |es| > 0 {
      assert LocationsIn(ls[1..], ls[0].end, len);
      LocationsAscending(es[1..], ls[1..], ls[0].end, len);
    }
  }

  /**
   * For statements as a parser gives them, the namespace fixes come latest
   * first, so from the back they are well placed: in order inside the text,
   * none overlapping a later one.
   */
  lemma NamespaceFixesAscending(ss: seq<Stmt>, len: int)
    requires StmtsParsed(ss, 0, len) && NamespaceFinder.Fixes(ss).Ok?
    ensures Ascending(Reverse(EditsOf(NamespaceFinder.Fixes(ss).value)), 0, len)
  {
    var found := NamespaceFinder.Found(ss).value;
    NamespaceFinder.FoundIn(ss, 0, len);
    RecordFixesAscending(found.produced, found.items, NamespaceFinder.Fixes(ss).value, len);
  }

  /** The fixes of records in order inside the text, when the records are unshifted, are well placed from the back. */
  lemma RecordFixesAscending(p: seq<NamespaceFinder.Namespace>, items: map<string, NamespaceFinder.Item>, fixes: seq<(Location, string)>, len: int)
    requires LocationsIn(NamespaceFinder.Locations(p), 0, len)
    requires fixes == NamespaceFinder.NamespaceCodes(Reverse(p), items)
    ensures Ascending(Reverse(EditsOf(fixes)), 0, len)
  {
    var es := Reverse(EditsOf(fixes));
    ReversedCodes(p, items, fixes);
    CodesEditsAt(p, items, es);
    LocationsAscending(es, NamespaceFinder.Locations(p), 0, len);
  }

  /** The namespace fixes of the reversed records, read from the back, are the fixes of the records. */
  lemma ReversedCodes(p: seq<NamespaceFinder.Namespace>, items: map<string, NamespaceFinder.Item>, fixes: seq<(Location, string)>)
    requires fixes == NamespaceFinder.NamespaceCodes(Reverse(p), items)
    ensures Reverse(EditsOf(fixes)) == EditsOf(NamespaceFinder.NamespaceCodes(p, items))
  {
    var codes := NamespaceFinder.NamespaceCodes(p, items);
    NamespaceFinder.NamespaceCodesReversed(p, items);
    EditsOfReversed(fixes);
    ReverseTwice(codes);
  }

  /** Each fix of a record covers that record's location. */
  lemma CodesEditsAt(p: seq<NamespaceFinder.Namespace>, items: map<string, NamespaceFinder.Item>, es: seq<Edit>)
    requires es == EditsOf(NamespaceFinder.NamespaceCodes(p, items))
    ensures |es| == |p|
    ensures forall i :: 0 <= i < |es| ==> es[i].start == p[i].location.start && es[i].end == p[i].location.end
  {
  }

  /** Reading the edits of a list from the back is taking the edits of the reversed list. */
  lemma EditsOfReversed(fixes: seq<(Location, string)>)
    ensures Reverse(EditsOf(fixes)) == EditsOf(Reverse(fixes))
  {
    var a, b := Reverse(EditsOf(fixes)), EditsOf(Reverse(fixes));
    forall i | 0 <= i < |fixes|
      ensures a[i] == b[i]
    {
      assert a[i] == EditsOf(fixes)[|fixes| - 1 - i];
      assert Reverse(fixes)[i] == fixes[|fixes| - 1 - i];
    }
  }

  lemma ReverseTwice<T>(s: seq<T>)
    ensures Reverse(Reverse(s)) == s
  {
    var r := Reverse(Reverse(s));
    forall i | 0 <= i < |s|
      ensures r[i] == s[i]
    {
      assert r[i] == Reverse(s)[|s| - 1 - i];
    }
  }

  /** For statements as a parser gives them, the export rewrites are well placed from the front. */
  lemma ExportFixesAscending(ss: seq<Stmt>, len: int)
    requires StmtsParsed(ss, 0, len)
    ensures Ascending(EditsOf(ExportsFinder.ExportEdits(ExportsFinder.Collect(ss))), 0, len)
  {
    var c := ExportsFinder.Collect(ss);
    ExportsFinder.ExportEditsInOrder(ss, 0, len);
    LocationsAscending(EditsOf(ExportsFinder.ExportEdits(c)), ExportsFinder.ClauseLocations(c.rawExports), 0, len);
  }

  /** A parser that gives every text well-formed statements. */
  ghost predicate ParsesWell(parse: string -> seq<Stmt>)
  {
    forall t :: StmtsParsed(parse(t), 0, |t|)
  }

  /**
   * With a parser that gives well-formed statements, a failing namespace
   * pass is the output's error; otherwise the chunk is the prepended text
   * with every namespace fix rendered in, then every export rewrite rendered
   * into that; a map is attached exactly when one is wanted.
   */
  lemma PostProcessedMeaning(code: string, options: OutputOptions, parse: string -> seq<Stmt>)
    requires ParsesWell(parse)
    ensures NamespaceFinder.Fixes(parse(code)).Err? ==>
      PostProcessed(code, options, parse) == Err(NamespaceFinder.Fixes(parse(code)).error)
    ensures NamespaceFinder.Fixes(parse(code)).Ok? ==>
      var namespaceEdits := Reverse(EditsOf(NamespaceFinder.Fixes(parse(code)).value));
      && Ascending(namespaceEdits, 0, |code|)
      && var fixed := SpliceAll(code, namespaceEdits);
         var exportEdits := EditsOf(ExportsFinder.ExportEdits(ExportsFinder.Collect(parse(fixed))));
         && Ascending(exportEdits, 0, |fixed|)
         && var final := SpliceAll(fixed, exportEdits);
            PostProcessed(code, options, parse) == (if SourceMapEnabled(options) then Ok(CodeWithMap(final)) else Ok(Code(final)))
  {
    if NamespaceFinder.Fixes(parse(code)).Ok? {
      var fixes := NamespaceFinder.Fixes(parse(code)).value;
      assert StmtsParsed(parse(code), 0, |code|);
      NamespaceFixesAscending(parse(code), |code|);
      var fixed := SpliceAll(code, Reverse(EditsOf(fixes)));
      assert StmtsParsed(parse(fixed), 0, |fixed|);
      PostProcessedFixed(code, options, parse, fixes, fixed);
    }
  }

  /** The output once the namespace fixes are known to be well placed and the fixed text parses well. */
  lemma PostProcessedFixed(code: string, options: OutputOptions, parse: string -> seq<Stmt>, fixes: seq<(Location, string)>, fixed: string)
    requires NamespaceFinder.Fixes(parse(code)) == Ok(fixes)
    requires Ascending(Reverse(EditsOf(fixes)), 0, |code|) && fixed == SpliceAll(code, Reverse(EditsOf(fixes)))
    requires StmtsParsed(parse(fixed), 0, |fixed|)
    ensures var exportEdits := EditsOf(ExportsFinder.ExportEdits(ExportsFinder.Collect(parse(fixed))));
      && Ascending(exportEdits, 0, |fixed|)
      && var final := SpliceAll(fixed, exportEdits);
         PostProcessed(code, options, parse) == (if SourceMapEnabled(options) then Ok(CodeWithMap(final)) else Ok(Code(final)))
  {
    AppliedInPlaceRenders(code, EditsOf(fixes));
    ExportFixesAscending(parse(fixed), |fixed|);
    AppliedWithOffsetRenders(fixed, EditsOf(ExportsFinder.ExportEdits(ExportsFinder.Collect(parse(fixed)))));
  }

  /** Everything after the empty-chunk test: the two reconcilers' loops and the choice of output. */
  method PostProcess(ms: MagicStringMock, code: string, options: OutputOptions, parse: string -> seq<Stmt>)
    returns (r: Result<ChunkOutput>)
    modifies ms
    requires ms.text == code
    ensures r == PostProcessed(code, options, parse)
  {
    var enableSourceMap := options.sourcemap != HiddenSourcemap && options.sourcemap != NoSourcemap;
    var namespaceFixes := NamespaceFinder.Fix(parse(code));
    if namespaceFixes.Err? {
      return Err(namespaceFixes.error);
    }
    ApplyInPlace(ms, code, namespaceFixes.value);
    var fixed := ms.ToString();
    var exportFixes := ExportsFinder.FindExports(parse(fixed));
    ApplyWithOffset(ms, fixed, exportFixes);
    var final := ms.ToString();
    if !enableSourceMap {
      return Ok(Code(final));
    }
    return Ok(CodeWithMap(final));
  }

  /** Collects the chunk's references and prepends their directive lines, if there are any. */
  method PrependReferences(ms: MagicStringMock, ops: PathOps, options: OutputOptions, chunk: Chunk, refs: References, inputCode: string)
    modifies ms
    requires ms.text == inputCode
    ensures ms.text == Prepended(ops, options, chunk, refs, inputCode)
  {
    var typeReferences, fileReferences := CollectReferences(ops, options, chunk, refs);
    var refLines := RefLines(fileReferences, typeReferences);
    if |refLines| > 1 {
      ms.Prepend(Js.Join(refLines, "\n"));
    }
  }

  /** `renderChunk`, with the chunk's module references and the parser as inputs. */
  method RenderChunk(ops: PathOps, options: OutputOptions, chunk: Chunk, refs: References, inputCode: string, parse: string -> seq<Stmt>)
    returns (r: Result<ChunkOutput>)
    ensures r == Rendered(ops, options, chunk, refs, inputCode, parse)
  {
    var ms := new MagicStringMock(inputCode);
    PrependReferences(ms, ops, options, chunk, refs, inputCode);
    var code := ms.ToString();
    if code == "" {
      return Ok(Code("export {  }"));
    }
    r := PostProcess(ms, code, options, parse);
  }
}
