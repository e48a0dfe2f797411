# rollup-plugin-dts: text rewriting and declaration normalisation, in Dafny

This project models the core of `rollup-plugin-dts`, the Rollup plugin that
bundles `.d.ts` declaration files, and proves properties of that model. It
covers five connected parts:

- **Positions and edits** (`text_helper.dfy`, `mock_editor.dfy`, `edits.dfy`,
  `magic_string.dfy`, `sourcemap.dfy`):
  - the text helper, which converts between offsets and (1-based line,
    0-based column) pairs and slices text between positions;
  - the mock `MagicString` editor, as a class over one mutable `text`;
  - a real `MagicString`, seen as the log of calls made on it;
  - `forEachMS`;
  - the rebuild of an edit script from the mapping list of an existing
    source map;
  - `updateByGenerated`.

  `Edits` gives an ascending, non-overlapping edit list its one meaning,
  `Render`. The other files relate their loops to that meaning.
- **The preprocessor** (`preprocess.dfy`): the two statement passes of
  `preProcess`. They record declared, exported and default names, the ranges
  of each name, unique synthetic names and inline-import aliases. They also
  fix modifiers, split variable statements, reorder fragments, append
  exports and remove reference directives. `PreProcessor` is the class
  holding that state. `PreProcessFile` is proved equal to the pure
  specification `PreProcessed`, and the lemmas are about that specification.
  `moves.dfy` reads a log of `move` calls as a rendering order over the
  original text, which shows what the reordering does to one name's
  fragments: it makes them contiguous, in source order.
- **Config and program selection** (`program.dfy`):
  - `cacheConfig`'s upward fill of the config cache;
  - `getCompilerOptions`: the cache key, the candidate list `maybeInputs`,
    the inclusion test, option merging and the project-reference fallback;
  - `createPrograms`' grouping of inputs into programs;
  - `getModule`'s choice of program.

  `Session` holds the two module-level caches.
- **The post-bundle reconcilers** (`namespace_finder.dfy`,
  `exports_finder.dfy`):
  - `NamespaceFinder.findNamespaces` and `fix` turn the bundler's frozen
    namespace objects, stray empty statements, `.d.ts` specifiers and
    `X as X` elements into (range, replacement) records;
  - `ExportsFinder` classifies export elements as types or values and
    renders the clauses again.

  The renderer calls `.run()` on both classes (`src/transform/index.ts:194`,
  `:206`). The classes as they stand expose `fix()` and `findExports()`, and
  the model treats those as the `(location, code)` producers that `run()`
  names.
- **The render stage** (`render_chunk.dfy`): `renderChunk` collects the
  chunk's references and prepends their directive lines, handles the empty
  chunk, then applies both edit lists. The namespace fixes are spliced from
  the back. The export rewrites are spliced front to back with a running
  offset. Both loops skip a replacement that is already in place.

Shared definitions:
- `wrappers.dfy`: `Option` and `Result`, and the errors the plugin throws.
- `js.dfy`: JavaScript string semantics (`slice` with negative and clamped
  indices, `split`, `join`, insertion-ordered `Set`s, `startsWith`,
  `endsWith`).
- `ast.dfy`: the statement datatype that stands for the TypeScript AST,
  and `StmtsParsed`, which says that statements lie in order inside the
  text and that each node's parts lie inside its span, as a parser gives
  them.

The TypeScript compiler, the source-map consumer and the file system are
inputs:
- a parsed file is a `SourceFile` or a sequence of `Stmt`;
- a source map's lookups are the functions of a `Consumer`;
- finding and reading config files, matching `paths` keys, testing for a
  file and building a program are the functions of a `Host`;
- the operating system's path functions in `renderChunk` are a `PathOps`.

`path.dirname` in `program.ts` is modelled by Node's POSIX algorithm on
strings, because the cache walk's termination depends on it.

## Model

| member | source | states |
|---|---|---|
| TextHelper.LinesTotal | src/utils/sourcemap-helper.ts:17 | the lines of `text.split("\n")` account for the whole text: their lengths plus one newline each are the text's length plus one |
| TextHelper.FirstLinePosition | src/utils/sourcemap-helper.ts:20-23 | line 1, column c is offset c |
| TextHelper.NextLinePosition | src/utils/sourcemap-helper.ts:20-23 | each later line adds the previous line's length plus one |
| TextHelper.EarlierLineEarlierPosition | src/utils/sourcemap-helper.ts:20-23 | for valid pairs, a pair on an earlier line names an earlier offset |
| TextHelper.PositionInjective | src/utils/sourcemap-helper.ts:20-23 | distinct valid line/column pairs name distinct offsets |
| TextHelper.LineColAtRoundTrip | src/utils/sourcemap-helper.ts:20-37 | for every offset 0 <= pos <= length, the pair found by `getLineAndColumnOfPosition` is valid, and `getPositionOfLineAndColmn` of it is pos again; no other valid pair gives pos |
| TextHelper.LineColAtOutside | src/utils/sourcemap-helper.ts:24-37 | a negative offset stays on line 1 with the offset as column; an offset past the end gives line count + 1, column 1 |
| TextHelper.LineAndColumnOf | src/utils/sourcemap-helper.ts:24-37 | the loop computes `LineColAt`; inside the text its result round-trips to the offset; outside the text it follows the two rules above |
| TextHelper.BetweenAsWrittenDropsNewline | src/utils/sourcemap-helper.ts:51-61 | as written, the line/column loop turns "a\nb" from (1,0) to (2,0) into "ab", while the corrected loop gives "a\nb" |
| TextHelper.BetweenIsSlice | src/utils/sourcemap-helper.ts:51-61 | with the newline fixed, the text collected from line i to the end pair is the slice of the text from the start of line i (or from the start pair) through the inclusive end column |
| TextHelper.BetweenOfText | src/utils/sourcemap-helper.ts:51-61 | for valid, ordered pairs, the line/column form of `getTextBetween` is `text.slice(start, end + 1)` in offsets |
| TextHelper.TextBetweenLines | src/utils/sourcemap-helper.ts:51-61 | the loop computes one piece per line, with a newline between consecutive lines; for valid, ordered pairs the result is the slice from start to the inclusive end |
| TextHelper.TextBetween | src/utils/sourcemap-helper.ts:38-62 | two offsets give `text.slice(start, end)`; a mixed pair converts the line/column side to an offset first; two pairs give the line/column loop |
| MockEditor.MoveForward | src/utils/sourcemap-helper.ts:365-369 | `move(s, e, i)` with s <= e <= i keeps the length and the prefix, and puts `text[s..e)` right before the old `text[i..)` |
| MockEditor.MoveBackwardCopies | src/utils/sourcemap-helper.ts:365-369 | a move to before its own start duplicates text: `move(2, 3, 0)` on "abc" gives "abcabc" |
| MockEditor.ResetAfterUpdate | src/utils/sourcemap-helper.ts:352-355 | `reset` after a length-preserving update of the same range restores the initial text |
| MockEditor.MagicStringMock.constructor | src/utils/sourcemap-helper.ts:299-302 | the text and the initial text start out equal |
| MockEditor.MagicStringMock.Update | src/utils/sourcemap-helper.ts:324-327 | the new text is `text.slice(0, s) + c + text.slice(e)` |
| MockEditor.MagicStringMock.Overwrite | src/utils/sourcemap-helper.ts:328-330 | `overwrite` is `update` |
| MockEditor.MagicStringMock.Remove | src/utils/sourcemap-helper.ts:370-373 | `remove` is an update with the empty string |
| MockEditor.MagicStringMock.Slice | src/utils/sourcemap-helper.ts:331-333 | within bounds, `slice` is the substring of the current text; it is never longer than the text |
| MockEditor.MagicStringMock.Reset | src/utils/sourcemap-helper.ts:352-355 | the range is read back from the initial text; the rest of the current text is kept |
| MockEditor.MagicStringMock.Append | src/utils/sourcemap-helper.ts:357-360 | the content is added at the end |
| MockEditor.MagicStringMock.Prepend | src/utils/sourcemap-helper.ts:361-364 | the content is added at the front |
| MockEditor.MagicStringMock.Move | src/utils/sourcemap-helper.ts:365-369 | the text is rebuilt as `slice(0, s) + slice(e, i) + slice(s, e) + slice(i)` |
| MockEditor.MagicStringMock.AppendLeft | src/utils/sourcemap-helper.ts:374-377 | a plain insertion at the index |
| MockEditor.MagicStringMock.AppendRight | src/utils/sourcemap-helper.ts:378-381 | a plain insertion at the index |
| MockEditor.MagicStringMock.PrependLeft | src/utils/sourcemap-helper.ts:382-385 | a plain insertion at the index |
| MockEditor.MagicStringMock.PrependRight | src/utils/sourcemap-helper.ts:386-389 | a plain insertion at the index |
| MockEditor.MagicStringMock.UpdateByGenerated | src/utils/sourcemap-helper.ts:453-455 | in mock mode `updateByGenerated` is `update` |
| MockEditor.MagicStringMock.IsEmpty | src/utils/sourcemap-helper.ts:420-422 | true exactly when the text is empty |
| MockEditor.MagicStringMock.Length | src/utils/sourcemap-helper.ts:423-425 | the text's length |
| MockEditor.MagicStringMock.HasChanged | src/utils/sourcemap-helper.ts:426-428 | true exactly when the text differs from the initial text |
| MockEditor.MagicStringMock.ToString | src/utils/sourcemap-helper.ts:429-431 | the current text |
| MockEditor.MagicStringMock.LastChar | src/utils/sourcemap-helper.ts:311-313 | the last character, or "" for an empty text |
| MockEditor.MagicStringMock.LastLine | src/utils/sourcemap-helper.ts:314-322 | the longest suffix of the text without a newline: a suffix, newline-free, and either the whole text or preceded by a newline |
| Edits.SpliceShape | src/utils/sourcemap-helper.ts:324-327 | an update of [s, e) keeps `text[0..s)` and the old `text[e..)` around the content; the new length is len - (e - s) + length of content |
| Edits.SpliceSame | src/transform/index.ts:195-196 | writing back what a range already holds changes nothing, so skipping such an edit is sound |
| Edits.RenderLength | src/transform/index.ts:205-214 | applying an edit list lengthens the text by the sum of each replacement's length minus its range's length |
| Edits.ReverseSnoc | src/transform/NamespaceFinder.ts:73 | `unshift` builds the reverse of the push order |
| MagicStringLog.MagicString.Slice | src/transform/preprocess.ts:209 | within bounds, `slice` is the substring of the text the editor was created on |
| SourceMaps.PairsOf | src/utils/sourcemap-helper.ts:79-89 | over n mappings there are n + 1 callbacks: (none, m1), then (m_i, m_i+1) for each consecutive pair, then (m_n, none); with no mappings, one (none, none) |
| SourceMaps.ForEachMS | src/utils/sourcemap-helper.ts:74-90 | the loop threading `prev` makes exactly the callbacks of `PairsOf` on the resolved mappings |
| SourceMaps.FromExistingMap | src/utils/sourcemap-helper.ts:234-297 | an empty code fails with the inline-map error; otherwise a missing or empty `sourcesContent[0]` fails with its own error; otherwise the editor is created on the original text and holds exactly the rebuild's calls |
| SourceMaps.Replay | src/utils/sourcemap-helper.ts:262-297 | driving the editor with each callback in turn appends the rebuild's calls |
| SourceMaps.RebuildCallback | src/utils/sourcemap-helper.ts:268-296 | first callback: prepend a non-empty generated prefix, then remove a non-empty original prefix; last callback: overwrite the rest of the original, or append when nothing is left; equal original positions: `appendRight` of the segment; otherwise `overwrite` of the original segment |
| SourceMaps.StepHeadEdits | src/utils/sourcemap-helper.ts:269-277 | the first callback's calls, read as edits, are the generated prefix at 0 and the removal of the original prefix |
| SourceMaps.StepPairEdit | src/utils/sourcemap-helper.ts:288-295 | a pair's calls, read as an edit, replace the original segment by the generated segment, an insertion when the original positions are equal |
| SourceMaps.StepTailEdit | src/utils/sourcemap-helper.ts:278-287 | the last callback's calls, read as an edit, replace the rest of the original by the rest of the generated code |
| SourceMaps.RebuildRenders | src/utils/sourcemap-helper.ts:262-297 | when there is at least one mapping, the original text is non-empty, and the mappings ascend in both coordinates and lie within both texts, the calls the rebuild makes form an ascending edit list that turns the original text into the generated code |
| SourceMaps.RebuildWithoutMappings | src/utils/sourcemap-helper.ts:268-289 | with no mappings the only callback has neither side, and the rebuild makes no call |
| SourceMaps.TranslationFails | src/utils/sourcemap-helper.ts:173-202 | the translation fails exactly when one of the three `originalPositionFor` lookups answers null, always with "Source map is invalid"; otherwise it is one update of the original range |
| SourceMaps.IdentityTranslation | src/utils/sourcemap-helper.ts:148-231 | through an identity map on an unchanged text, an update in generated coordinates is the same update in original coordinates |
| SourceMaps.Translate | src/utils/sourcemap-helper.ts:148-231 | the method, with the text helper's loops, computes `Translation` |
| SourceMaps.BuildUpdate | src/utils/sourcemap-helper.ts:204-231 | the update writes `generatedContent[..start - gs) + code + generatedContent[end - gs..)` over the original range, where gs is where the generated content starts |
| SourceMaps.UpdateByGenerated | src/utils/sourcemap-helper.ts:140-232 | with no original text helper it is `update(start, end, code)`; otherwise it makes the translated update, or fails with the lookup error and leaves the editor unchanged |
| PreProcess.UniqueNameFewest | src/transform/preprocess.ts:357-364 | `uniqName(hint)` returns `hint` behind the fewest underscores that make it undeclared: the result is undeclared, and every shorter candidate is declared |
| PreProcess.UniqNameNeverRepeats | src/transform/preprocess.ts:357-364 | the returned name is declared afterwards, so no later call returns it again |
| PreProcess.UniqNameValid | src/transform/preprocess.ts:357-364 | `uniqName` keeps the bookkeeping free of duplicates |
| PreProcess.Sanitized | src/transform/preprocess.ts:351 | every character outside `[a-zA-Z0-9_$]` becomes `_` and every other character is kept |
| PreProcess.NamespaceImportIdempotent | src/transform/preprocess.ts:348-355 | asking again for a file id returns the same alias and changes nothing; a new alias is the sanitised id behind the fewest underscores that make it undeclared, and is remembered |
| PreProcess.EmptyFileIdForgotten | src/transform/preprocess.ts:349-350 | an empty file id gets the falsy alias "", so the next request makes another alias, "_" |
| PreProcess.NamespaceImportValid | src/transform/preprocess.ts:348-355 | `createNamespaceImport` keeps the bookkeeping valid |
| PreProcess.PushedRangesAscending | src/transform/preprocess.ts:366-379 | a range that starts where the last ends extends the last; otherwise it is appended; a range at or after the last keeps the list ordered and disjoint |
| PreProcess.PushNamedValid | src/transform/preprocess.ts:366-379 | `pushNamedNode` keeps every listed name with a non-empty range list |
| PreProcess.MovesForward | src/transform/preprocess.ts:264-274 | for ordered ranges, every move of the reordering carries one earlier range, in order, forward to the start of the last range |
| PreProcess.PushedRangesApart | src/transform/preprocess.ts:366-379 | pushing a non-empty range at or after the end of the last keeps the ranges non-empty and separated by a gap, because a range touching the last one is merged into it |
| PreProcess.ReorderStep | src/transform/preprocess.ts:271-273 | one `move` of the reordering takes the next range out of its place and puts it right after the ranges moved before it, just before the last range; nothing else changes order |
| PreProcess.ReorderedContiguous | src/transform/preprocess.ts:264-274 | on a text in its own order, the moves of one name's separated ranges never throw and leave the order: every gap between ranges in order, then every range in source order, ending with the last, then the rest of the text |
| PreProcess.ReorderedText | src/transform/preprocess.ts:264-274 | on the unedited text, the moves render the text between the ranges, then the ranges' own text one after the other in source order, then the text after the last range |
| Moves.MovedBlock | src/transform/preprocess.ts:272 | a `move` of a run that stands after positions below its start, to a position past it, takes the run out and reinserts it right before that position, keeping the rest in order |
| PreProcess.MoveRanges | src/transform/preprocess.ts:264-274 | the editor receives one `move` per range but the last, each to the start of the last range |
| PreProcess.GetStart | src/transform/preprocess.ts:428-431 | the full start, moved past a newline found there |
| PreProcess.GetEnd | src/transform/preprocess.ts:432-435 | the end, moved past a newline found there |
| PreProcess.ModifierRemovalsMeaning | src/transform/preprocess.ts:394-404 | the removals are exactly one per `export` or `default` modifier, each through one character past the modifier |
| PreProcess.FixModifierDeclare | src/transform/preprocess.ts:382-408 | "declare " is inserted exactly when the node is an enum, class, function, module or variable statement without `declare`; interfaces and type aliases never get it |
| PreProcess.AliasInsertionsMeaning | src/transform/preprocess.ts:419-423 | each namespace export element written without `as` gets exactly one ` as name` right after its name, and nothing else is inserted |
| PreProcess.SplitMeaning | src/transform/preprocess.ts:192-217 | for a list of n declarators, each comma is removed, `;\n` goes where it was, and `declare <let/const/var> ` replaces the next declarator's leading whitespace or is inserted before it |
| PreProcess.InlineImportsFail | src/transform/preprocess.ts:325-331 | the inline-import check fails exactly when some `import()` type has an argument that is not a string literal, always with the same unsupported-syntax error |
| PreProcess.DirectiveRemovalLine | src/transform/preprocess.ts:294-301 | a directive's removal runs from its line start through the line break, or to the end of the text on the last line |
| PreProcess.DirectiveNames | src/transform/preprocess.ts:290-292 | the reference set holds each directive's file name once, and nothing else |
| PreProcess.DeclareVariablesNames | src/transform/preprocess.ts:162-170 | a variable statement's identifier names go into the declared names, and into the exported names when the statement is exported, without duplicates |
| PreProcess.Pass1Names | src/transform/preprocess.ts:123-219 | after pass 1, a name is declared exactly when it was before or some statement declares it, and exported exactly when it was before or some statement exports it; both sets stay duplicate-free |
| PreProcess.Pass1Valid | src/transform/preprocess.ts:123-219 | pass 1 keeps the bookkeeping valid |
| PreProcess.InlineImportsKeep | src/transform/preprocess.ts:325-346 | the inline-import check changes neither the ranges, nor the exported names, nor the default |
| PreProcess.Pass2Keeps | src/transform/preprocess.ts:230-262 | pass 2 changes neither the ranges nor the exported names, and a default export found in pass 1 stays |
| PreProcess.Pass2Valid | src/transform/preprocess.ts:230-262 | pass 2 keeps the bookkeeping valid |
| PreProcess.Pass1Ranges | src/transform/preprocess.ts:148-190 | for statements in source order, pass 1 keeps every name's ranges ordered and disjoint, all ending by the last statement's end |
| PreProcess.RangesNeverOverlap | src/transform/preprocess.ts:264-274 | for a file in source order, every name's ranges are ordered and disjoint after pass 1, and pass 2 leaves them as they are, so the reordering meets the precondition of `MovesForward`: every move carries an earlier fragment forward |
| PreProcess.Pass1Fails | src/transform/preprocess.ts:183-184 | pass 1 fails exactly on a variable statement without declarators, whose first name cannot be read |
| PreProcess.Pass2Fails | src/transform/preprocess.ts:325-331 | pass 2, which runs the inline-import check on every statement, fails exactly on a statement with a non-literal inline import |
| PreProcess.PreProcessFails | src/transform/preprocess.ts:123-262 | preprocessing fails exactly when some variable statement has no declarator, which is reported first, or else some inline import is non-literal |
| PreProcess.FixModifiers | src/transform/preprocess.ts:382-408 | the editor receives exactly `fixModifiers`' removals and its `declare ` insertion |
| PreProcess.ScanModifiers | src/transform/preprocess.ts:393-404 | the modifier loop removes each `export` and `default` modifier through one character past it, and reports whether some modifier is `declare` |
| PreProcess.ModifierStep | src/transform/preprocess.ts:395-403 | one modifier: `export` or `default` is removed, `declare` is noted, anything else changes nothing |
| PreProcess.DuplicateExports | src/transform/preprocess.ts:410-426 | the editor receives exactly the ` as name` insertions of the module block's non-namespace export clauses |
| PreProcess.StatementStep | src/transform/preprocess.ts:415-424 | one statement of the module block: a named export clause gets its ` as name` insertions, any other statement none |
| PreProcess.AddAliases | src/transform/preprocess.ts:419-423 | the inner loop's insertions |
| PreProcess.SplitVariable | src/transform/preprocess.ts:197-217 | the editor receives exactly the splitting loop's calls |
| PreProcess.SplitStep | src/transform/preprocess.ts:203-216 | one item of the declaration list: a comma is removed and becomes the new comma position; a later declarator gets `;\n` at that position and the `declare <keyword> ` prefix over its leading whitespace |
| PreProcess.RemoveDirectives | src/transform/preprocess.ts:290-317 | returns the set of the directives' file names; the editor receives each directive line's removal |
| PreProcess.DirectiveStep | src/transform/preprocess.ts:292-301 | one directive: its file name is added to the set and its line removed through the line break |
| PreProcess.PreProcessor.constructor | src/transform/preprocess.ts:100-109 | empty bookkeeping, beside an editor on the file's full text |
| PreProcess.PreProcessor.ClaimName | src/transform/preprocess.ts:357-364 | the while loop computes `uniqName` on the state |
| PreProcess.PreProcessor.CreateNamespaceImport | src/transform/preprocess.ts:348-355 | the state and alias of `NamespaceImport` |
| PreProcess.PreProcessor.PushNamedNode | src/transform/preprocess.ts:366-379 | the state of `PushNamed` |
| PreProcess.PreProcessor.Pass1Statement | src/transform/preprocess.ts:124-218 | one statement of pass 1: the state of `Pass1Step`, or its error |
| PreProcess.PreProcessor.Pass1Declaration | src/transform/preprocess.ts:136-150 | a named declaration is declared, becomes the default or an exported name by its modifiers, and has its range pushed unless it is a global augmentation; an unnamed one changes nothing |
| PreProcess.PreProcessor.DeclareVariableNames | src/transform/preprocess.ts:162-170 | the loop records each identifier declarator as declared, and as exported for an exported statement |
| PreProcess.PreProcessor.PushRestRanges | src/transform/preprocess.ts:186-190 | the loop pushes the range from full start to end of each later identifier declarator |
| PreProcess.PreProcessor.Pass1Variable | src/transform/preprocess.ts:158-218 | pass 1 on a variable statement: names, modifiers, ranges and splitting |
| PreProcess.PreProcessor.PushVariableRanges | src/transform/preprocess.ts:175-190 | a single identifier declarator gets the statement's range; with several, the first gets the range from the statement's start to its own end and each later identifier its own range; no declarator is the absent-node error |
| PreProcess.PreProcessor.Pass2Statement | src/transform/preprocess.ts:231-261 | one statement of pass 2: the state of `Pass2Step`, or its error |
| PreProcess.PreProcessor.RunPass1 | src/transform/preprocess.ts:123-219 | the first statement loop computes `Pass1` on the state, or stops with its first error |
| PreProcess.PreProcessor.RunPass2 | src/transform/preprocess.ts:230-262 | the second statement loop computes `Pass2` on the state, or stops with its first error |
| PreProcess.PreProcessor.CheckInlineImport | src/transform/preprocess.ts:325-346 | the state of `InlineImports`, or its error |
| PreProcess.PreProcessor.Reorder | src/transform/preprocess.ts:264-274 | the editor receives the moves of every name's ranges, in the map's order; what one name's moves render is `ReorderedText` |
| PreProcess.PreProcessor.RenderExports | src/transform/preprocess.ts:276-285 | `export default X;` when a default exists, `export { … }` in first-seen order when a name is exported, then an `import * as` prepended for each inline import |
| PreProcess.PreProcessFile | src/transform/preprocess.ts:33-324 | the whole preprocessing computes the specification `PreProcessed`: both passes, reordering, exports and directive removal, or the first error |
| Program.Spread | src/program.ts:67 | `{ ...a, ...b }`: the keys of both, with `b` winning |
| Program.OptionsPrecedence | src/program.ts:191-194 | a program's options are the config's where it sets them, else the caller's overrides, else the plugin's defaults |
| Program.Dirname | src/program.ts:48-50 | POSIX `path.dirname`: ".", "/", "//" or a proper prefix; the measure shrinks unless the path is its own parent |
| Program.UpShrinks | src/program.ts:45-54 | a walk up the directories never grows the measure, and strictly shrinks it once the walk moves |
| Program.UpFixed | src/program.ts:48 | a directory that is its own parent stays put |
| Program.FilledKeeps | src/program.ts:45-54 | the walk keeps every entry already cached, and every entry it adds is for the config and an ancestor of the start |
| Program.CacheFilledEffect | src/program.ts:42-55 | `cacheConfig` sets `from`, adds only ancestors of `from` and only for the config, and leaves every other entry, including the cached ancestor it stops at, unchanged |
| Program.CacheFilledOwnPath | src/program.ts:90-92 | an override config is cached only under its own path |
| Program.CacheFilledReaches | src/program.ts:42-55 | when no directory between `from` and `to` was cached, every one of them, `to` included, is cached for the config |
| Program.JsStem | src/program.ts:154 | the input without the JavaScript suffix it ends with, or the input itself |
| Program.MaybeInputs | src/program.ts:123-178 | the candidates start with the input; a JavaScript input adds its stem's TypeScript and declaration variants, any other input its JavaScript variants; `.d.ts` is added unless the input already ends with it |
| Program.DtsFiles | src/program.ts:182 | exactly the config files that match the declaration-extension pattern |
| Program.Decide | src/program.ts:100-196 | a result exactly when the input is included (a config file is a candidate) or forced (a `paths` key matches, or `allowJs` with a `.js` input); it carries the declaration files and the merged options and references, or only the caller's options when the config has errors |
| Program.CacheKey | src/program.ts:72 | the override config path when given, otherwise the input's directory |
| Program.FirstPick | src/program.ts:305-317 | the first program whose roots contain an entry, or that holds a non-entry as a non-external-library file |
| Program.AddAll | src/program.ts:245 | `dtsFiles` as a set: duplicate-free, holding what it held and every added name |
| Program.RunsFlatten | src/program.ts:238-278 | the runs of consecutive inputs concatenate back to the inputs |
| Program.Runs | src/program.ts:253-266 | there are runs exactly when there are inputs, and no run is empty |
| Program.RunsShape | src/program.ts:253-266 | all inputs of a run share its directory |
| Program.RunsMaximal | src/program.ts:253-266 | neighbouring runs have different directories |
| Program.ProgramsAreRuns | src/program.ts:238-278 | `createPrograms` makes exactly one program per maximal run of consecutive inputs that resolve to the same directory, in input order, with the run's inputs as roots |
| Program.RefScanChoice | src/program.ts:318-338 | a reference program the scan chooses holds the file as a file of its own; every program already cached stays cached, unchanged |
| Program.Session.constructor | src/program.ts:33 | both caches, the config cache and the program cache, start empty |
| Program.Context.constructor | src/program.ts:292 | the plugin context holds the entries, the programs, the compiler options and the tsconfig path it was given |
| Program.Session.CacheConfig | src/program.ts:42-55 | the loop computes `CacheFilled` on the cache and leaves the program cache unchanged |
| Program.Session.GetCompilerOptions | src/program.ts:57-205 | no fuel: the depth error; a cache hit that decides returns that decision with the cache unchanged; a miss without a config file, or with an unreadable one, returns only the caller's options; a miss that decides caches the config and returns the decision; any error is "not included" for the cache key |
| Program.Session.CreatePrograms | src/program.ts:226-281 | the inputs resolved are the non-declaration inputs, made absolute, in order, and the programs are `Programs` of them; a failure is the depth error or "not included"; the reference-program cache is unchanged |
| Program.AddInput | src/program.ts:245-266 | one resolved input: the first opens a group with its directory, options and references; one in the same directory joins the group; one elsewhere closes the group as a program and opens its own, keeping the references; declaration files accumulate |
| Program.Session.OptionsFor | src/program.ts:244 | the options lookup `createPrograms` makes, at the session's depth: it fails only when the depth runs out or the module is not included; a cache hit that decides gives that decision, a miss without a readable config gives the caller's options alone, and a read config that decides gives its decision and is cached; the reference-program cache is unchanged |
| Program.Session.CreateProgram | src/program.ts:207-224 | a program built with the file as its only root and some compiler result's declaration files, options and references; a failure is the depth error or "not included"; the reference-program cache is unchanged |
| Program.Session.ScanReferences | src/program.ts:318-338 | the reference scan computes `RefScan` on the program cache |
| Program.Session.GetModule | src/program.ts:291-361 | with no programs, a declaration file is its own code; otherwise the first picking program, replaced by the last reference program holding the file, with the config cache unchanged; otherwise, for a file on disk, a new program with the file as root, appended to the context and returned as the file's module, or the creation's error with the context unchanged; otherwise null with both caches unchanged; the short-cut for a declaration file and every branch without a pick leave the reference-program cache as it was |
| NamespaceFinder.JsSpecifierSuffix | src/transform/NamespaceFinder.ts:108-111 | `.d.ts`, `.d.cts` and `.d.mts` become `.js`, `.cjs` and `.mjs`; any other specifier is kept |
| NamespaceFinder.SpecifierCode | src/transform/NamespaceFinder.ts:86-113 | a statement yields a specifier record exactly when its module specifier is a relative declaration-file string; then it yields one, which replaces the text between the quotes by the `.js` name |
| NamespaceFinder.DeletionCode | src/transform/NamespaceFinder.ts:242-250 | an empty-statement or `X as X` record is replaced by nothing |
| NamespaceFinder.FoundPrefixFails | src/transform/NamespaceFinder.ts:60-199 | an error in some statement is the error of the whole search |
| NamespaceFinder.FrozenPrefixFails | src/transform/NamespaceFinder.ts:176-183 | a bad property in the frozen object fails the whole collection with the same error |
| NamespaceFinder.CollectFrozen | src/transform/NamespaceFinder.ts:175-191 | `__proto__` is skipped; every other member must be an identifier- or string-keyed assignment of an identifier, else unsupported syntax |
| NamespaceFinder.RedundantRecords | src/transform/NamespaceFinder.ts:118-138 | a deletion from the end of the property name to the end of the name for each `X as X` element of a module block's non-namespace export clauses |
| NamespaceFinder.FindInStatement | src/transform/NamespaceFinder.ts:60-199 | one statement's records and its `itemTypes` entry |
| NamespaceFinder.Unshift | src/transform/NamespaceFinder.ts:194-198 | unshifting each record turns the list into the reverse of the production order |
| NamespaceFinder.FindNamespaces | src/transform/NamespaceFinder.ts:56-201 | the records in the reverse of the order they were found, and `itemTypes`, or the first error; for a well-formed parse that order runs backwards through the text (`FoundDescending`) |
| NamespaceFinder.FoundIn | src/transform/NamespaceFinder.ts:60-199 | for statements as a parser lays them out, the records found lie inside the text, in order, none overlapping a later one |
| NamespaceFinder.FoundDescending | src/transform/NamespaceFinder.ts:193-198 | for statements as a parser lays them out, the unshifted list runs backwards through the text: every record ends before each record ahead of it starts |
| NamespaceFinder.TypeParamsForms | src/transform/NamespaceFinder.ts:257-266 | an absent or empty list gives ("", ""); otherwise both forms are bracketed; without constraints or defaults the two forms agree |
| NamespaceFinder.AliasKinds | src/transform/NamespaceFinder.ts:211-239 | only same-name exports get aliases: a namespace an `import` alias, an interface or type a `type` alias, an enum or class both, anything else a `declare const` |
| NamespaceFinder.ReexportCodes | src/transform/NamespaceFinder.ts:210-241 | the loop collects every export's alias lines, in order |
| NamespaceFinder.ExportLines | src/transform/NamespaceFinder.ts:38-46 | one line per export, in order: `ns_name as name` for same-name exports, otherwise `local as exported` |
| NamespaceFinder.GenNamespaceExportShape | src/transform/NamespaceFinder.ts:35-51 | the namespace text: the header, the lines joined with ",\n" and a trailing ",", then the closing braces |
| NamespaceFinder.NamespaceCodesReversed | src/transform/NamespaceFinder.ts:193-198 | the fixes come out in the reverse of the order their records were found |
| NamespaceFinder.RenderNamespace | src/transform/NamespaceFinder.ts:208-250 | a record's replacement: the alias lines, then the namespace when it has a name, then its trailing text |
| NamespaceFinder.Fix | src/transform/NamespaceFinder.ts:203-254 | the found records, each with its location and rendered replacement, latest found first; or the search's error |
| ExportsFinder.GetExportsAndLocals | src/transform/ExportsFinder.ts:56-130 | the loop and its recursion compute `Collect`: the export clauses, the value names and the type names, in visit order |
| ExportsFinder.CollectStatement | src/transform/ExportsFinder.ts:68-127 | imports are skipped; interfaces and type aliases are types; classes, enums, functions and variables are values; a module is a value and is searched inside; a local, not type-only `export { … }` is collected |
| ExportsFinder.KindOf | src/transform/ExportsFinder.ts:27-31 | an element is a type exactly when a type of its local name is declared and no value is |
| ExportsFinder.ElementOf | src/transform/ExportsFinder.ts:24-38 | the exported name is the element's name; the local name is its property name when present, else its name |
| ExportsFinder.DeclOf | src/transform/ExportsFinder.ts:39-45 | one element per export specifier, at the clause's span |
| ExportsFinder.SortByStartCorrect | src/transform/ExportsFinder.ts:47 | the sort orders by start and is a permutation of its input |
| ExportsFinder.CreateNamedExport | src/transform/ExportsFinder.ts:132-136 | `type ` comes first unless elided or the element is a value; ` as exported` is appended when the names differ, and when they agree the element is the marker and the name and nothing more |
| ExportsFinder.ExportPartMarker | src/transform/ExportsFinder.ts:138-144 | the clause starts with `type { ` exactly when the list is non-empty and every element is a type; it always ends with ` }` |
| ExportsFinder.ExportPartEmpty | src/transform/ExportsFinder.ts:138-144 | an empty list renders `{  }` |
| ExportsFinder.FindExports | src/transform/ExportsFinder.ts:20-54 | the rendered clauses of what was collected, sorted by start |
| ExportsFinder.ExportEditsSorted | src/transform/ExportsFinder.ts:20-54 | one edit per collected clause, in ascending order of start, each the clause's span with its `getExportPart` rendering |
| ExportsFinder.ExportEditsInOrder | src/transform/ExportsFinder.ts:40-47 | for statements as a parser lays them out, the sort keeps the collected order: the edits are the clauses' own ranges, inside the text, none overlapping a later one |
| RenderChunk.ModuleKeySlashes | src/transform/index.ts:114-117 | the lookup key is the file name with every backslash turned into a slash |
| RenderChunk.FileReferenceForm | src/transform/index.ts:117-131 | a non-relative reference is kept verbatim; a relative one is re-relativised to the chunk's folder with forward slashes, and gets "./" unless it starts with "." |
| RenderChunk.GatheredMembers | src/transform/index.ts:111-133 | the gathered set holds each element of some list once |
| RenderChunk.CollectedReferencesMembers | src/transform/index.ts:111-133 | the type references are exactly those some module of the chunk recorded; the file references are those modules' references, each rewritten; each once |
| RenderChunk.CollectReferences | src/transform/index.ts:111-133 | the loops over the chunk's modules compute the two sets |
| RenderChunk.AddTypeReferences | src/transform/index.ts:114-116 | the inner loop adds a module's type references to the set |
| RenderChunk.AddFileReferences | src/transform/index.ts:117-132 | the inner loop adds a module's file references, rewritten, to the set |
| RenderChunk.RefLines | src/transform/index.ts:135-139 | one line per reference, plus the closing empty line |
| RenderChunk.ReferenceHeaderShape | src/transform/index.ts:135-141 | nothing is prepended exactly when there is no reference; otherwise all path directives come before all types directives, each line ending in a newline |
| RenderChunk.InPlaceStep | src/transform/index.ts:194-199 | one namespace fix, applied or skipped, keeps the text rendered from the fix on |
| RenderChunk.AppliedInPlaceRenders | src/transform/index.ts:194-199 | applying the fixes at their own positions, in descending order, is rendering every fix into the unedited text; skipped fixes change nothing |
| RenderChunk.WithOffsetPrefix | src/transform/index.ts:205-214 | after k rewrites, the text is the finished part and the untouched rest, and the offset is how much the finished part has grown |
| RenderChunk.AppliedWithOffsetRenders | src/transform/index.ts:205-214 | with ascending, non-overlapping locations, splicing each rewrite at its position shifted by the growth so far is applying every rewrite to the unedited text |
| RenderChunk.ApplyInPlace | src/transform/index.ts:194-199 | the namespace loop's text, skipping unchanged replacements |
| RenderChunk.ApplyWithOffset | src/transform/index.ts:205-214 | the export loop's text, with the offset growing by generated length minus original length |
| RenderChunk.ShiftEdit | src/transform/index.ts:207-213 | one export-loop iteration on the editor: skip when the range already holds the code, otherwise splice at the range shifted by the offset and grow the offset by the change in length |
| RenderChunk.ExportFix | src/transform/index.ts:205-214 | iteration k of the export loop takes the loop's text and offset after k rewrites to those after k + 1 |
| RenderChunk.EmptyChunk | src/transform/index.ts:140-146 | an empty chunk with no references renders exactly `export {  }` |
| RenderChunk.NamespaceFixesAscending | src/transform/index.ts:194-199 | for statements as a parser lays them out, the namespace fixes, read from the back, are in order inside the text and do not overlap |
| RenderChunk.ExportFixesAscending | src/transform/index.ts:205-214 | for statements as a parser lays them out, the export rewrites are in order inside the text and do not overlap |
| RenderChunk.PostProcessedMeaning | src/transform/index.ts:194-226 | with a parser that lays statements out well, a failing namespace search is the output's error; otherwise both fix lists are well placed, the chunk is the namespace fixes rendered in, then the export rewrites rendered into that, and the map is attached exactly when source maps are on |
| RenderChunk.PostProcess | src/transform/index.ts:148-226 | the two loops and the choice of output compute `PostProcessed` |
| RenderChunk.PrependReferences | src/transform/index.ts:111-141 | the text with the reference header prepended |
| RenderChunk.RenderChunk | src/transform/index.ts:105-227 | the hook computes `Rendered`: references, the empty-chunk rule, then both loops |

## Left out

- The import-attributes branch of `preProcess` (`src/transform/preprocess.ts:42-97`) is not modelled. It restores `with { … }` clauses through a source map. `PreProcessFile` is the run without an input map.
- The TypeScript compiler is not modelled. Parsing, AST queries, `ts.createProgram`, `findConfigFile`, `readConfigFile`, `parseJsonConfigFileContent` and emitting are all inputs: `SourceFile` and `Stmt` values, a parser function, or the functions of `Host`.
- `getChildren()`, `forEachChild` and the token lookups of pass 2 come pre-digested in the statement datatype, as lists and keyword tokens.
- The `source-map` consumer is two lookup functions. VLQ decoding, the bias search and `generateMap` are not modelled.
- The real `magic-string` is the log of calls made on it. Its chunk graph and map generation are not modelled. The log is given a meaning for ascending, disjoint edits (`Edits`), and, separately, for a log made only of moves on an unedited text (`Moves`). The move semantics in `Moves` follow `magic-string`'s documented behaviour; that library is not part of this model.
- PreProcess.PreProcessor.Reorder: what the moves render (`ReorderedText`, through `MoveRanges`, `MovesFor` and `MovesForward`) is proved one name at a time, on the unedited text. Not proved: how the moves of several names compose, or how they compose with the removals and insertions made before them in the same editor.
- PreProcess.ReorderedContiguous: requires the ranges to be non-empty and separated (`RangesWithin`). `PushedRangesApart` shows pushing keeps that, but the model does not prove that pass 1 only pushes non-empty ranges; `RangesNeverOverlap` proves only the weaker order `RangesAscending` for pass 1.
- `MagicStringLog.MagicString.Slice` reads the original text, not the edited one. Every `ms.slice` in preprocessing reads positions no earlier edit has touched.
- The inline-map regex, `atob` and `JSON.parse` are not modelled. `FromExistingMap` takes the code and the decoded map.
- PreProcess.Sanitized: strings are sequences of Unicode scalar values, where JavaScript counts UTF-16 code units. A character outside the Basic Multilingual Plane is one unit here and two in the source. So the regex at `src/transform/preprocess.ts:351`, which has no `u` flag, turns "𝒳" (U+1D4B3) into "__", while `Sanitized` gives "_". The same unit difference applies to the offsets, lines and columns of `TextHelper` (`TextHelper.LineAndColumnOf`, `TextHelper.TextBetween`), to the slices and lengths of `Js` and `Edits`, and to the growing offset of `RenderChunk.ApplyWithOffset`. They agree with the source only on text whose characters all lie in the Basic Multilingual Plane.
- Regex-based trimming (`trim`, `trimLines`, `replace`, `replaceAll`) of the mock editor is not modelled, because the plugin never calls it.
- `trace()` and all logging (`console.log`, `console.error`, `DTS_LOG_CACHE`, DEBUG) are not modelled.
- `emitJSDoc` and the `jsdocExplorer` callback (`src/transform/index.ts:149-192`) are not modelled. They run a user callback concurrently.
- Matching a `paths` key against an input (`src/program.ts:102-113`) is the host function `pathKeyMatches`. `options.paths` is kept as the key list `pathKeys`.
- `path.resolve` is not normalised. An absolute path stays as it is and a relative one is joined to the working directory.
- `path.join`, `path.relative` and `path.dirname` in `renderChunk` are the functions of `PathOps`.
- A `GetCompilerOptions` reference attempt that would overflow the stack is modelled by a fuel bound, `Session.depth`. An exhausted attempt is an error the caller's `try` swallows, like the stack overflow it stands for.
- Program.Session.GetCompilerOptions: the fallback over project references is stated only through its error. The returned value is stated when the config (cached or read) decides.
- Program.Session.CreateProgram: states only that the program is built from some compiler result. It does not tie that result to `GetCompilerOptions`' contract.
- Program.Session.GetModule: a new program's compiler result is existential, as in `CreateProgram`; it is not tied to `GetCompilerOptions`' contract. What the config cache holds after a program is created is not stated.
- Program.Session.OptionsFor: like `GetCompilerOptions`, the value from the project-reference fallback is stated only through its error.
- Program.Session.CreatePrograms: the compiler result recorded for each input is not tied to `GetCompilerOptions`' contract, and what the config cache holds afterwards is not stated. The reference-program cache is proved unchanged.
- PreProcess.PreProcessor.Reorder: `ranges.pop()` shortens each list in place. The model leaves `nameRanges` as it was, because nothing reads it afterwards.
- An empty range list in `pushNamedNode`, where the source would read `nodes[-1]`, is treated like a missing one. Lists are created with one range and only grow (`PreProcess.Valid`), so it never arises.
- TextHelper.TextBetween: requires a start line of at least 1 when both ends are line/column pairs. Its only callers pass source-map lines, which are 1-based; below 1 the source would throw reading `lines[-1]`.
- RenderChunk.RenderChunk: the render stage is modelled with the mock editor's string semantics only. With `sourcemap` set to `true` or `"inline"`, the source builds a real `MagicString` (`src/transform/index.ts:107-109`), adds the reference header to it (`:141`), and then updates positions computed on the header plus the input code (`:197`). The model does not capture that path: neither the text the real editor renders there nor its map.
- SourceMaps.RebuildRenders: proved under the string reading of the calls, where an `appendRight` at a position survives a later `overwrite` starting there. A real `magic-string` `overwrite` clears that appended content. For example, original "abc", code "XYZbc" and mappings (generated 0, original 0), (2, 0), (3, 1) give "XYZbc" in the model but "Zbc" in the library. The library's behaviour there is not modelled.
- TextHelper.TextBetweenLines: computes the corrected newline rule of the Findings row (`i < end.line`), not `src/utils/sourcemap-helper.ts:57` as written; `BetweenAsWrittenDropsNewline` models the written rule.
- TextHelper.TextBetween: uses `TextBetweenLines`, so it has the corrected newline rule for two line/column pairs.
- SourceMaps.Translate: reads the generated and original text through the corrected `getTextBetween`.
- SourceMaps.BuildUpdate: the generated content it splices comes from the corrected `getTextBetween`.
- SourceMaps.UpdateByGenerated: through `Translate`, it has the corrected newline rule.
- Rollup hook registration, option plumbing (`src/index.ts`, `src/api.ts`, `src/options.ts`) and `Transformer.convert` are not modelled. They are outside the rewriting logic.

## Findings

| source | as written | input that shows it | evidently intended | confidence | as-written member | corrected member |
|---|---|---|---|---|---|---|
| src/utils/sourcemap-helper.ts:57 | `if (i + 1 < end.line)` adds a newline after every line but the last two | text "a\nb", from line 1 column 0 to line 2 column 0 gives "ab" | `i < end.line`: a newline after every line but the last, so the result is the text between the two positions ("a\nb") | not executed | TextHelper.BetweenAsWrittenDropsNewline | TextHelper.BetweenIsSlice |
