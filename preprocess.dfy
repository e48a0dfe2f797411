/**
 * The declaration preprocessor run on every `.d.ts` file before bundling.
 * Two passes over the statements fill the bookkeeping (declared, exported
 * and default names, inline-import aliases, the ranges each name covers) and
 * issue edits on a `MagicString` of the file's text; afterwards each name's
 * ranges are made contiguous, the export statements and the inline imports
 * are added, and the reference directives are recorded and cut out.
 *
 * The editor here is a real `MagicString`, so its effect is the list of calls
 * made on it, in order; every position in them is a position of the file.
 */
module PreProcess {
  import Js
  import opened Wrappers
  import opened Ast
  import opened Edits
  import opened MagicStringLog
  import Moves

  /** A `[start, end]` pair of positions. */
  type Range = (int, int)

  /** What the passes read from a parsed file. */
  datatype SourceFile = SourceFile(
    text: string,
    statements: seq<Stmt>,
    typeReferenceDirectives: seq<Directive>,
    referencedFiles: seq<Directive>)

  /** The editor, as the calls made on it, and the two sets of references, in insertion order. */
  datatype Output = Output(calls: seq<Call>, typeReferences: seq<string>, fileReferences: seq<string>)

  /**
   * The preprocessor's state: the insertion-ordered sets `declaredNames` and
   * `exportedNames`, `defaultExport`, the maps `inlineImports` and
   * `nameRanges` with their keys in insertion order, and the editor's calls.
   */
  datatype Bookkeeping = Bookkeeping(
    declaredNames: seq<string>,
    exportedNames: seq<string>,
    defaultExport: string,
    inlineKeys: seq<string>,
    inlineImports: map<string, string>,
    rangeNames: seq<string>,
    nameRanges: map<string, seq<Range>>,
    calls: seq<Call>)

  const Initial := Bookkeeping([], [], "", [], map[], [], map[], [])

  /** The sets hold no duplicates, each map's key list is its keys, and no name has an empty list of ranges. */
  ghost predicate Valid(b: Bookkeeping)
  {
    && Js.NoDup(b.declaredNames) && Js.NoDup(b.exportedNames)
    && Js.NoDup(b.inlineKeys) && (forall k :: k in b.inlineImports <==> k in b.inlineKeys)
    && Js.NoDup(b.rangeNames) && (forall k :: k in b.nameRanges <==> k in b.rangeNames)
    && (forall k :: k in b.nameRanges ==> |b.nameRanges[k]| > 0)
  }

  // ---------------------------------------------------------------- names

  /** `k` underscores. */
  function Underscores(k: nat): (r: string)
    ensures |r| == k
  {
    if k == 0 then "" else Underscores(k - 1) + "_"
  }

  /** The length of the longest name. */
  function MaxLength(names: seq<string>): (r: nat)
    ensures forall x :: x in names ==> |x| <= r
  {
    if |names| == 0 then 0
    else
      var m := MaxLength(names[1..]);
      assert forall x :: x in names ==> x == names[0] || x in names[1..];
      if |names[0]| > m then |names[0]| else m
  }

  /** What `uniqName(hint)` returns: `hint`, behind one more `_` as long as that is a declared name. */
  function UniqueName(declared: seq<string>, hint: string): string
    decreases MaxLength(declared) + 1 - |hint|
  {
    if hint in declared then UniqueName(declared, "_" + hint) else hint
  }

  /**
   * `uniqName` returns a name that is not declared yet, made of `hint`
   * behind the fewest underscores that achieve this: each shorter candidate
   * is a declared name.
   */
  lemma {:induction false} UniqueNameFewest(declared: seq<string>, hint: string)
    ensures UniqueName(declared, hint) !in declared
    ensures var r := UniqueName(declared, hint);
      |r| >= |hint| && r == Underscores(|r| - |hint|) + hint
      && forall j :: 0 <= j < |r| - |hint| ==> Underscores(j) + hint in declared
    decreases MaxLength(declared) + 1 - |hint|
  {
    var r := UniqueName(declared, hint);
    if hint in declared {
      var h := "_" + hint;
      UniqueNameFewest(declared, h);
      var m := |r| - |h|;
      assert r == Underscores(m) + h;
      Js.ConcatAssoc(Underscores(m), "_", hint);
      forall j | 0 <= j < m + 1
        ensures Underscores(j) + hint in declared
      {
        if j > 0 {
          assert Underscores(j - 1) + h in declared;
          assert Underscores(j) == Underscores(j - 1) + "_";
          Js.ConcatAssoc(Underscores(j - 1), "_", hint);
        } else {
          assert Underscores(0) + hint == hint;
        }
      }
    } else {
      assert r == Underscores(0) + hint;
    }
  }

  /** `uniqName(hint)`: the new name, added to the declared names. */
  function UniqName(b: Bookkeeping, hint: string): (Bookkeeping, string)
  {
    var name := UniqueName(b.declaredNames, hint);
    (b.(declaredNames := b.declaredNames + [name]), name)
  }

  /** Once `uniqName` has returned a name, no later call returns it again. */
  lemma UniqNameNeverRepeats(b: Bookkeeping, hint: string, later: string)
    ensures var (b1, name) := UniqName(b, hint);
      name in b1.declaredNames && UniqName(b1, later).1 != name
  {
    var (b1, name) := UniqName(b, hint);
    UniqueNameFewest(b1.declaredNames, later);
  }

  /** The characters an alias may keep: `[a-zA-Z0-9_$]`. */
  predicate IdentifierChar(c: char)
  {
    ('a' <= c <= 'z') || ('A' <= c <= 'Z') || ('0' <= c <= '9') || c == '_' || c == '$'
  }

  /** `fileId.replace(/[^a-zA-Z0-9_$]/g, () => "_")`. */
  function Sanitized(fileId: string): (r: string)
    ensures |r| == |fileId|
    ensures forall i :: 0 <= i < |r| ==> IdentifierChar(r[i])
    ensures forall i :: 0 <= i < |r| ==> (r[i] == fileId[i] <==> IdentifierChar(fileId[i]))
    decreases |fileId|
  {
    if |fileId| == 0 then ""
    else
      var c := fileId[|fileId| - 1];
      Sanitized(fileId[..|fileId| - 1]) + [if IdentifierChar(c) then c else '_']
  }

  /**
   * `createNamespaceImport(fileId)`: the alias already given to `fileId`, or
   * a new unique name made from its sanitised form, remembered for it. A
   * remembered empty alias counts as none, since the empty string is falsy;
   * setting an existing key keeps its place in the map's order.
   */
  function NamespaceImport(b: Bookkeeping, fileId: string): (Bookkeeping, string)
  {
    if fileId in b.inlineImports && b.inlineImports[fileId] != "" then (b, b.inlineImports[fileId])
    else
      var (b1, name) := UniqName(b, Sanitized(fileId));
      (b1.(inlineKeys := if fileId in b.inlineImports then b.inlineKeys else b.inlineKeys + [fileId],
           inlineImports := b.inlineImports[fileId := name]),
       name)
  }

  /**
   * The same file id always gets the same alias: asking again returns it
   * and changes nothing. A new alias is the sanitised id behind the fewest
   * underscores that make it undeclared.
   */
  lemma NamespaceImportIdempotent(b: Bookkeeping, fileId: string)
    requires fileId != ""
    ensures var (b1, alias) := NamespaceImport(b, fileId);
      NamespaceImport(b1, fileId) == (b1, alias)
    ensures !(fileId in b.inlineImports && b.inlineImports[fileId] != "") ==>
      var alias := NamespaceImport(b, fileId).1;
      alias !in b.declaredNames && |alias| >= |fileId| && alias == Underscores(|alias| - |fileId|) + Sanitized(fileId)
  {
    UniqueNameFewest(b.declaredNames, Sanitized(fileId));
  }

  /** The falsy case: an empty file id gets the empty alias, which is then not recognised, so the next request makes another. */
  lemma EmptyFileIdForgotten()
    ensures NamespaceImport(Initial, "").1 == ""
    ensures NamespaceImport(NamespaceImport(Initial, "").0, "").1 == "_"
  {
    assert Sanitized("") == "";
    var b1 := NamespaceImport(Initial, "").0;
    assert b1.declaredNames == [""];
    assert UniqueName(b1.declaredNames, "") == UniqueName(b1.declaredNames, "_");
    assert UniqueName(b1.declaredNames, "_") == "_";
  }

  /** Making a new alias keeps the bookkeeping valid. */
  lemma NamespaceImportValid(b: Bookkeeping, fileId: string)
    requires Valid(b)
    ensures Valid(NamespaceImport(b, fileId).0)
  {
    UniqueNameFewest(b.declaredNames, Sanitized(fileId));
  }

  /** Declaring a name through `uniqName` keeps the bookkeeping valid. */
  lemma UniqNameValid(b: Bookkeeping, hint: string)
    requires Valid(b)
    ensures Valid(UniqName(b, hint).0)
  {
    UniqueNameFewest(b.declaredNames, hint);
  }

  // ---------------------------------------------------------------- ranges

  /** Ranges in order, none overlapping a later one. */
  predicate RangesAscending(rs: seq<Range>)
  {
    && (forall i :: 0 <= i < |rs| ==> rs[i].0 <= rs[i].1)
    && (forall i, j :: 0 <= i < j < |rs| ==> rs[i].1 <= rs[j].0)
  }

  /** The `else` branch of `pushNamedNode`: the last range grows when the new one starts where it ends, otherwise the new one is added. */
  function PushedRanges(ranges: seq<Range>, r: Range): seq<Range>
    requires |ranges| > 0
  {
    var last := ranges[|ranges| - 1];
    if last.1 == r.0 then ranges[..|ranges| - 1] + [(last.0, r.1)] else ranges + [r]
  }

  /**
   * Pushing a range that starts at or after the end of the last keeps the
   * ranges in order and disjoint; the list then ends where the new range
   * ends and its first range still starts where it did.
   */
  lemma PushedRangesAscending(ranges: seq<Range>, r: Range)
    requires |ranges| > 0 && RangesAscending(ranges)
    requires r.0 <= r.1 && ranges[|ranges| - 1].1 <= r.0
    ensures RangesAscending(PushedRanges(ranges, r))
    ensures var out := PushedRanges(ranges, r);
      |out| > 0 && out[0].0 == ranges[0].0 && out[|out| - 1].1 == r.1
  {
  }

  /** `pushNamedNode(name, range)`: a new name gets a list of its own, at the end of the map's order. */
  function PushNamed(b: Bookkeeping, name: string, r: Range): Bookkeeping
  {
    if name in b.nameRanges && |b.nameRanges[name]| > 0 then
      b.(nameRanges := b.nameRanges[name := PushedRanges(b.nameRanges[name], r)])
    else
      b.(rangeNames := if name in b.nameRanges then b.rangeNames else b.rangeNames + [name],
         nameRanges := b.nameRanges[name := [r]])
  }

  /** Pushing keeps the bookkeeping valid. */
  lemma PushNamedValid(b: Bookkeeping, name: string, r: Range)
    requires Valid(b)
    ensures Valid(PushNamed(b, name, r))
  {
  }

  /** The moves of the reordering for one name: every range but the last, in order, to the start of the last. */
  function MovesFor(ranges: seq<Range>): (r: seq<Call>)
    ensures |ranges| > 0 ==> |r| == |ranges| - 1
  {
    if |ranges| == 0 then []
    else
      var target := ranges[|ranges| - 1].0;
      seq(|ranges| - 1, i requires 0 <= i < |ranges| - 1 => Move(ranges[i].0, ranges[i].1, target))
  }

  /**
   * For ranges in order, every move of the reordering is a forward move of
   * one earlier range to the start of the last one, in the order of the
   * ranges. What the moves then render is `ReorderedContiguous`.
   */
  lemma MovesForward(ranges: seq<Range>)
    requires |ranges| > 0 && RangesAscending(ranges)
    ensures forall i :: 0 <= i < |MovesFor(ranges)| ==>
      var c := MovesFor(ranges)[i];
      c.Move? && c.start == ranges[i].0 && c.end == ranges[i].1
      && c.start <= c.end <= c.index == ranges[|ranges| - 1].0
  {
  }

  /** Ranges in order with room between them: none is empty, and each ends before the next starts. */
  predicate RangesApart(rs: seq<Range>)
  {
    && (forall i :: 0 <= i < |rs| ==> rs[i].0 < rs[i].1)
    && (forall i, j :: 0 <= i < j < |rs| ==> rs[i].1 < rs[j].0)
  }

  /**
   * Pushing a non-empty range that starts at or after the end of the last
   * keeps the ranges apart: a range that touches the last one is merged into
   * it, so no two ranges of a name ever touch.
   */
  lemma PushedRangesApart(ranges: seq<Range>, r: Range)
    requires |ranges| > 0 && RangesApart(ranges)
    requires r.0 < r.1 && ranges[|ranges| - 1].1 <= r.0
    ensures RangesApart(PushedRanges(ranges, r))
  {
    var last := ranges[|ranges| - 1];
    var out := PushedRanges(ranges, r);
    forall i, j | 0 <= i < j < |out|
      ensures out[i].1 < out[j].0
    {
      if j < |ranges| - 1 {
        assert out[i] == ranges[i] && out[j] == ranges[j];
      } else if last.1 == r.0 {
        assert out[i] == ranges[i] && out[j].0 == last.0;
      } else if j < |ranges| {
        assert out[i] == ranges[i] && out[j] == ranges[j];
      } else {
        assert out[i] == ranges[i] && out[j] == r;
        assert ranges[i].1 <= last.1;
      }
    }
  }

  /** Where the text between the `k`-th range and the one before it starts. */
  function PrevEnd(rs: seq<Range>, k: nat): int
    requires k <= |rs|
  {
    if k == 0 then 0 else rs[k - 1].1
  }

  /** The positions between the first `k` ranges, from the start of the text: each gap in order. */
  function Gaps(rs: seq<Range>, k: nat): seq<int>
    requires k <= |rs|
  {
    if k == 0 then [] else Gaps(rs, k - 1) + Moves.Iota(PrevEnd(rs, k - 1), rs[k - 1].0)
  }

  /** The positions inside the first `k` ranges, each range in order. */
  function Blocks(rs: seq<Range>, k: nat): seq<int>
    requires k <= |rs|
  {
    if k == 0 then [] else Blocks(rs, k - 1) + Moves.Iota(rs[k - 1].0, rs[k - 1].1)
  }

  /** Ranges apart, starting inside the text and ending by its length `n`. */
  predicate RangesWithin(rs: seq<Range>, n: int)
  {
    |rs| > 0 && RangesApart(rs) && 0 <= rs[0].0 && rs[|rs| - 1].1 <= n
  }

  /** Every gap before the `k`-th range lies before the end of the range before it. */
  lemma {:induction false} GapsBelow(rs: seq<Range>, n: int, k: nat)
    requires RangesWithin(rs, n) && k <= |rs|
    ensures Moves.Below(Gaps(rs, k), PrevEnd(rs, k))
  {
    if k > 0 {
      GapsBelow(rs, n, k - 1);
      assert PrevEnd(rs, k - 1) <= rs[k - 1].0 < PrevEnd(rs, k);
      Moves.BelowMono(Gaps(rs, k - 1), PrevEnd(rs, k - 1), PrevEnd(rs, k));
      Moves.BelowAppend(Gaps(rs, k - 1), Moves.Iota(PrevEnd(rs, k - 1), rs[k - 1].0), PrevEnd(rs, k));
    }
  }

  /** Every range before the `k`-th lies before the end of the range before it. */
  lemma {:induction false} BlocksBelow(rs: seq<Range>, n: int, k: nat)
    requires RangesWithin(rs, n) && k <= |rs|
    ensures Moves.Below(Blocks(rs, k), PrevEnd(rs, k))
  {
    if k > 0 {
      BlocksBelow(rs, n, k - 1);
      assert PrevEnd(rs, k - 1) <= rs[k - 1].0 < PrevEnd(rs, k);
      Moves.BelowMono(Blocks(rs, k - 1), PrevEnd(rs, k - 1), PrevEnd(rs, k));
      Moves.BelowAppend(Blocks(rs, k - 1), Moves.Iota(rs[k - 1].0, rs[k - 1].1), PrevEnd(rs, k));
    }
  }

  /** The rendering order after the first `k` moves of the reordering of `rs`, on a text of length `n`. */
  function ReorderedAfter(rs: seq<Range>, n: int, k: nat): seq<int>
    requires 0 < |rs| && k <= |rs|
  {
    var target := rs[|rs| - 1].0;
    Gaps(rs, k) + Moves.Iota(PrevEnd(rs, k), target) + Blocks(rs, k) + Moves.Iota(target, n)
  }

  /** One move of the reordering takes the next range out and puts it after the ranges moved before it. */
  lemma ReorderStep(rs: seq<Range>, n: int, k: nat)
    requires RangesWithin(rs, n) && k < |rs| - 1
    ensures Moves.Moved(ReorderedAfter(rs, n, k), rs[k].0, rs[k].1, rs[|rs| - 1].0)
      == Some(ReorderedAfter(rs, n, k + 1))
  {
    var c, s, e, t := PrevEnd(rs, k), rs[k].0, rs[k].1, rs[|rs| - 1].0;
    assert c <= s < e < t < rs[|rs| - 1].1 <= n;
    var g, b := Gaps(rs, k), Blocks(rs, k);
    var x, m, y, z := Moves.Iota(c, s), Moves.Iota(s, e), Moves.Iota(e, t), Moves.Iota(t, n);
    Moves.IotaSplit(s, e, t);
    Moves.IotaSplit(c, s, t);
    assert ReorderedAfter(rs, n, k) == g + (x + (m + y)) + b + z;
    assert ReorderedAfter(rs, n, k + 1) == (g + x) + y + (b + m) + z;
    Regroup(g, x, m, y, b, z);
    GapsBelow(rs, n, k);
    BlocksBelow(rs, n, k);
    Moves.BelowMono(g, c, s);
    Moves.BelowAppend(g, x, s);
    Moves.BelowMono(b, c, t);
    Moves.BelowAppend(y, b, t);
    Moves.MovedBlock(g + x, y + b, z, s, e, t);
  }

  /** The two regroupings of a move of the reordering. */
  lemma Regroup(g: seq<int>, x: seq<int>, m: seq<int>, y: seq<int>, b: seq<int>, z: seq<int>)
    ensures g + (x + (m + y)) + b + z == (g + x) + m + (y + b) + z
    ensures (g + x) + (y + b) + m + z == (g + x) + y + (b + m) + z
  {
  }

  /** The first `k` moves of the reordering, from the text's own order. */
  lemma {:induction false} ReorderPrefix(rs: seq<Range>, n: int, k: nat)
    requires RangesWithin(rs, n) && k <= |rs| - 1
    ensures Moves.MovesOrder(Moves.Iota(0, n), MovesFor(rs)[..k]) == Some(ReorderedAfter(rs, n, k))
  {
    var cs := MovesFor(rs);
    if k == 0 {
      assert cs[..0] == [];
      ReorderedStart(rs, n);
    } else {
      ReorderPrefix(rs, n, k - 1);
      assert cs[k - 1] == Move(rs[k - 1].0, rs[k - 1].1, rs[|rs| - 1].0);
      Moves.MovesOrderNext(Moves.Iota(0, n), cs, k, ReorderedAfter(rs, n, k - 1));
      ReorderStep(rs, n, k - 1);
    }
  }

  /** Before any move, the order is the text's own. */
  lemma ReorderedStart(rs: seq<Range>, n: int)
    requires RangesWithin(rs, n)
    ensures ReorderedAfter(rs, n, 0) == Moves.Iota(0, n)
  {
    var t := rs[|rs| - 1].0;
    assert 0 <= rs[0].0 <= t < rs[|rs| - 1].1 <= n;
    assert ReorderedAfter(rs, n, 0) == Moves.Iota(0, t) + Moves.Iota(t, n);
    Moves.IotaSplit(0, t, n);
  }

  /**
   * The reordering of one name's ranges, on a text of length `n` taken in
   * its own order, throws nowhere and makes the ranges contiguous: the text
   * renders its gaps between the ranges in order, then every range in source
   * order with the earlier ones right before the last, then what follows the
   * last range.
   */
  lemma ReorderedContiguous(rs: seq<Range>, n: int)
    requires RangesWithin(rs, n)
    ensures Moves.MovesOrder(Moves.Iota(0, n), MovesFor(rs))
      == Some(Gaps(rs, |rs|) + Blocks(rs, |rs|) + Moves.Iota(rs[|rs| - 1].1, n))
  {
    var last := |rs| - 1;
    var t, e := rs[last].0, rs[last].1;
    ReorderPrefix(rs, n, last);
    assert MovesFor(rs)[..last] == MovesFor(rs);
    var g, b := Gaps(rs, last), Blocks(rs, last);
    var before := Moves.Iota(PrevEnd(rs, last), t);
    assert Gaps(rs, |rs|) == g + before;
    assert Blocks(rs, |rs|) == b + Moves.Iota(t, e);
    var x, y := Moves.Iota(t, e), Moves.Iota(e, n);
    assert ReorderedAfter(rs, n, last) == g + before + b + Moves.Iota(t, n);
    Moves.IotaSplit(t, e, n);
    RegroupLast(g, before, b, x, y);
  }

  /** The regrouping of the order once the last move is done. */
  lemma RegroupLast(g: seq<int>, before: seq<int>, b: seq<int>, x: seq<int>, y: seq<int>)
    ensures g + before + b + (x + y) == (g + before) + (b + x) + y
  {
  }

  /** The text of the gaps between the first `k` ranges, in order. */
  function GapText(text: string, rs: seq<Range>, k: nat): string
    requires RangesWithin(rs, |text|) && k <= |rs|
  {
    if k == 0 then ""
    else
      assert PrevEnd(rs, k - 1) <= rs[k - 1].0 < rs[k - 1].1 <= rs[|rs| - 1].1;
      GapText(text, rs, k - 1) + text[PrevEnd(rs, k - 1)..rs[k - 1].0]
  }

  /** The text of the first `k` ranges, in order. */
  function BlockText(text: string, rs: seq<Range>, k: nat): string
    requires RangesWithin(rs, |text|) && k <= |rs|
  {
    if k == 0 then ""
    else
      assert 0 <= rs[k - 1].0 < rs[k - 1].1 <= rs[|rs| - 1].1;
      BlockText(text, rs, k - 1) + text[rs[k - 1].0..rs[k - 1].1]
  }

  /** The gaps render as their text. */
  lemma {:induction false} RenderedGaps(text: string, rs: seq<Range>, k: nat)
    requires RangesWithin(rs, |text|) && k <= |rs|
    ensures Moves.Inside(Gaps(rs, k), |text|)
    ensures Moves.Rendered(text, Gaps(rs, k)) == GapText(text, rs, k)
  {
    if k > 0 {
      RenderedGaps(text, rs, k - 1);
      assert PrevEnd(rs, k - 1) <= rs[k - 1].0 < rs[k - 1].1 <= rs[|rs| - 1].1;
      Moves.RenderedIota(text, PrevEnd(rs, k - 1), rs[k - 1].0);
      Moves.RenderedAppend(text, Gaps(rs, k - 1), Moves.Iota(PrevEnd(rs, k - 1), rs[k - 1].0));
    }
  }

  /** The ranges render as their text. */
  lemma {:induction false} RenderedBlocks(text: string, rs: seq<Range>, k: nat)
    requires RangesWithin(rs, |text|) && k <= |rs|
    ensures Moves.Inside(Blocks(rs, k), |text|)
    ensures Moves.Rendered(text, Blocks(rs, k)) == BlockText(text, rs, k)
  {
    if k > 0 {
      RenderedBlocks(text, rs, k - 1);
      assert 0 <= rs[k - 1].0 < rs[k - 1].1 <= rs[|rs| - 1].1;
      Moves.RenderedIota(text, rs[k - 1].0, rs[k - 1].1);
      Moves.RenderedAppend(text, Blocks(rs, k - 1), Moves.Iota(rs[k - 1].0, rs[k - 1].1));
    }
  }

  /**
   * On the unedited text, the reordering of one name's ranges renders the
   * text between the ranges, then the ranges' own text one after the other in
   * source order, then the text after the last range.
   */
  lemma ReorderedText(text: string, rs: seq<Range>)
    requires RangesWithin(rs, |text|)
    ensures var o := Moves.MovesOrder(Moves.Iota(0, |text|), MovesFor(rs));
      && o.Some?
      && Moves.Inside(o.value, |text|)
      && Moves.Rendered(text, o.value)
         == GapText(text, rs, |rs|) + BlockText(text, rs, |rs|) + text[rs[|rs| - 1].1..]
  {
    ReorderedContiguous(rs, |text|);
    RenderedReordering(text, rs, Gaps(rs, |rs|) + Blocks(rs, |rs|) + Moves.Iota(rs[|rs| - 1].1, |text|));
  }

  /** The order the reordering ends in renders as the gaps, the ranges and the tail. */
  lemma RenderedReordering(text: string, rs: seq<Range>, o: seq<int>)
    requires RangesWithin(rs, |text|)
    requires o == Gaps(rs, |rs|) + Blocks(rs, |rs|) + Moves.Iota(rs[|rs| - 1].1, |text|)
    ensures Moves.Inside(o, |text|)
    ensures Moves.Rendered(text, o) == GapText(text, rs, |rs|) + BlockText(text, rs, |rs|) + text[rs[|rs| - 1].1..]
  {
    var g, b := Gaps(rs, |rs|), Blocks(rs, |rs|);
    var tail := Moves.Iota(rs[|rs| - 1].1, |text|);
    RenderedGaps(text, rs, |rs|);
    RenderedBlocks(text, rs, |rs|);
    Moves.RenderedIota(text, rs[|rs| - 1].1, |text|);
    Moves.RenderedAppend(text, g, b);
    Moves.RenderedAppend(text, g + b, tail);
  }

  /** The reordering loop over the map's values, in its order. */
  function ReorderCalls(names: seq<string>, nameRanges: map<string, seq<Range>>): seq<Call>
    decreases |names|
  {
    if |names| == 0 then []
    else
      var name := names[|names| - 1];
      ReorderCalls(names[..|names| - 1], nameRanges) + (if name in nameRanges then MovesFor(nameRanges[name]) else [])
  }

  // ---------------------------------------------------------------- positions

  /** `newlineAt(node, idx)`: the file's character at `idx` is a line break; outside the text there is none. */
  predicate NewlineAt(text: string, idx: int)
  {
    0 <= idx < |text| && text[idx] == '\n'
  }

  /** `getStart(node)`: the full start, moved past a line break there. */
  function GetStart(text: string, span: Span): (r: int)
    ensures r == span.fullStart || (r == span.fullStart + 1 && NewlineAt(text, span.fullStart))
    ensures NewlineAt(text, span.fullStart) ==> r == span.fullStart + 1
  {
    span.fullStart + (if NewlineAt(text, span.fullStart) then 1 else 0)
  }

  /** `getEnd(node)`: the end, moved past a line break there. */
  function GetEnd(text: string, span: Span): (r: int)
    ensures r == span.end || (r == span.end + 1 && NewlineAt(text, span.end))
    ensures NewlineAt(text, span.end) ==> r == span.end + 1
  {
    span.end + (if NewlineAt(text, span.end) then 1 else 0)
  }

  // ---------------------------------------------------------------- modifiers

  predicate ExportOrDefault(m: Modifier)
  {
    m.kind == ExportKeyword || m.kind == DefaultKeyword
  }

  /** The removal of one modifier by `fixModifiers`: `export` and `default`, with the character after them. */
  function RemovalOf(m: Modifier): seq<Call>
  {
    if ExportOrDefault(m) then [Remove(m.start, m.end + 1)] else []
  }

  /** The removals of `fixModifiers`'s loop, in modifier order. */
  function ModifierRemovals(mods: seq<Modifier>): seq<Call>
    decreases |mods|
  {
    if |mods| == 0 then [] else ModifierRemovals(mods[..|mods| - 1]) + RemovalOf(mods[|mods| - 1])
  }

  /** The removals are exactly one per `export` or `default` modifier, each up to one character past the modifier. */
  lemma {:induction false} ModifierRemovalsMeaning(mods: seq<Modifier>)
    ensures forall i :: 0 <= i < |mods| && ExportOrDefault(mods[i]) ==> Remove(mods[i].start, mods[i].end + 1) in ModifierRemovals(mods)
    ensures forall c :: c in ModifierRemovals(mods) ==>
      exists i :: 0 <= i < |mods| && ExportOrDefault(mods[i]) && c == Remove(mods[i].start, mods[i].end + 1)
    decreases |mods|
  {
    if |mods| > 0 {
      var init := mods[..|mods| - 1];
      ModifierRemovalsMeaning(init);
      forall c | c in ModifierRemovals(mods)
        ensures exists i :: 0 <= i < |mods| && ExportOrDefault(mods[i]) && c == Remove(mods[i].start, mods[i].end + 1)
      {
        if c in ModifierRemovals(init) {
          var i :| 0 <= i < |init| && ExportOrDefault(init[i]) && c == Remove(init[i].start, init[i].end + 1);
          assert mods[i] == init[i];
        } else {
          assert c in RemovalOf(mods[|mods| - 1]);
        }
      }
      forall i | 0 <= i < |mods| && ExportOrDefault(mods[i])
        ensures Remove(mods[i].start, mods[i].end + 1) in ModifierRemovals(mods)
      {
        if i < |mods| - 1 {
          assert mods[i] == init[i];
        }
      }
    }
  }

  /** The statements that get a `declare` when they lack one: enums, classes, functions, modules and variable statements. */
  predicate NeedsDeclare(n: Node)
  {
    || (n.Declaration? && n.kind in {EnumDecl, ClassDecl, FunctionDecl, ModuleDecl})
    || n.VariableStatement?
  }

  /** `fixModifiers(ms, node)`, `start` being the node's start. */
  function FixModifierCalls(n: Node, start: int): seq<Call>
  {
    ModifierRemovals(ModifiersOf(n))
      + (if NeedsDeclare(n) && !HasModifier(n, DeclareKeyword) then [AppendRight(start, "declare ")] else [])
  }

  /**
   * `fixModifiers` adds `declare ` exactly when the statement needs it and
   * has no `declare` modifier, so never to interfaces and type aliases; it
   * inserts nothing else.
   */
  lemma FixModifierDeclare(n: Node, start: int)
    ensures AppendRight(start, "declare ") in FixModifierCalls(n, start) <==> NeedsDeclare(n) && !HasModifier(n, DeclareKeyword)
    ensures n.Declaration? && n.kind in {InterfaceDecl, TypeAliasDecl} ==>
      forall c :: c in FixModifierCalls(n, start) ==> c.Remove?
  {
    ModifierRemovalsMeaning(ModifiersOf(n));
  }

  // ---------------------------------------------------------------- namespace exports

  /** `duplicateExports` on one export clause: ` as name` after each element written without `as`. */
  function AliasInsertions(elements: seq<ExportSpecifier>): seq<Call>
    decreases |elements|
  {
    if |elements| == 0 then []
    else
      var e := elements[|elements| - 1];
      AliasInsertions(elements[..|elements| - 1]) + (if e.propertyName.None? then [AppendLeft(e.nameEnd, " as " + e.name)] else [])
  }

  /** The elements written without `as` get exactly one ` as name` each, right after the name. */
  lemma {:induction false} AliasInsertionsMeaning(elements: seq<ExportSpecifier>)
    ensures forall i :: 0 <= i < |elements| && elements[i].propertyName.None? ==>
      AppendLeft(elements[i].nameEnd, " as " + elements[i].name) in AliasInsertions(elements)
    ensures forall c :: c in AliasInsertions(elements) ==>
      exists i :: 0 <= i < |elements| && elements[i].propertyName.None? && c == AppendLeft(elements[i].nameEnd, " as " + elements[i].name)
    decreases |elements|
  {
    if |elements| > 0 {
      var init := elements[..|elements| - 1];
      AliasInsertionsMeaning(init);
      forall c | c in AliasInsertions(elements)
        ensures exists i :: 0 <= i < |elements| && elements[i].propertyName.None? && c == AppendLeft(elements[i].nameEnd, " as " + elements[i].name)
      {
        if c in AliasInsertions(init) {
          var i :| 0 <= i < |init| && init[i].propertyName.None? && c == AppendLeft(init[i].nameEnd, " as " + init[i].name);
          assert elements[i] == init[i];
        } else {
          assert elements[|elements| - 1].propertyName.None?;
        }
      }
      forall i | 0 <= i < |elements| && elements[i].propertyName.None?
        ensures AppendLeft(elements[i].nameEnd, " as " + elements[i].name) in AliasInsertions(elements)
      {
        if i < |elements| - 1 {
          assert elements[i] == init[i];
        }
      }
    }
  }

  /** The insertions for one statement of a module block: only a non-namespace export clause has any. */
  function StatementAliases(s: Stmt): seq<Call>
  {
    match s.node
    case ExportDeclaration(_, _, Some(Named(clause))) => AliasInsertions(clause.elements)
    case _ => []
  }

  /** `duplicateExports`'s loop over a module block's statements. */
  function BlockAliases(statements: seq<Stmt>): seq<Call>
    decreases |statements|
  {
    if |statements| == 0 then []
    else BlockAliases(statements[..|statements| - 1]) + StatementAliases(statements[|statements| - 1])
  }

  /** `duplicateExports(ms, module)`: nothing unless the body is a module block. */
  function DuplicateExportCalls(body: ModuleBody): seq<Call>
  {
    match body
    case Block(statements) => BlockAliases(statements)
    case _ => []
  }

  // ---------------------------------------------------------------- variable statements

  /** The names of a variable statement's identifier declarators: declared, and exported with the statement. */
  function DeclareVariables(b: Bookkeeping, decls: seq<VarDecl>, isExport: bool): Bookkeeping
    decreases |decls|
  {
    if |decls| == 0 then b
    else
      var b1 := DeclareVariables(b, decls[..|decls| - 1], isExport);
      var d := decls[|decls| - 1];
      if d.name.isIdentifier then
        b1.(declaredNames := Js.SetAdd(b1.declaredNames, d.name.text),
            exportedNames := if isExport then Js.SetAdd(b1.exportedNames, d.name.text) else b1.exportedNames)
      else b1
  }

  /** The ranges of the declarators after the first: each identifier's own full span. */
  function RestRanges(b: Bookkeeping, decls: seq<VarDecl>): Bookkeeping
    decreases |decls|
  {
    if |decls| == 0 then b
    else
      var b1 := RestRanges(b, decls[..|decls| - 1]);
      var d := decls[|decls| - 1];
      if d.name.isIdentifier then PushNamed(b1, d.name.text, (d.span.fullStart, d.span.end)) else b1
  }

  /**
   * The ranges of a variable statement: the whole statement for a single
   * identifier declarator; otherwise the first declarator (whatever its name)
   * from the statement's start, then the others. With no declarator at all
   * the first is absent and reading its name throws.
   */
  function VariableRanges(b: Bookkeeping, text: string, span: Span, decls: seq<VarDecl>): Result<Bookkeeping>
  {
    if |decls| == 1 then
      if decls[0].name.isIdentifier then Ok(PushNamed(b, decls[0].name.text, (GetStart(text, span), GetEnd(text, span)))) else Ok(b)
    else if |decls| == 0 then Err(AbsentNode)
    else Ok(RestRanges(PushNamed(b, decls[0].name.text, (GetStart(text, span), decls[0].span.end)), decls[1..]))
  }

  /** `declare let `, `declare const ` or `declare var `. */
  function VarPrefix(k: VarKeyword): string
  {
    "declare " + (match k case Let => "let" case Const => "const" case Var => "var") + " "
  }

  /** How many characters `s` starts with that `trimStart` removes. */
  function LeadingWhitespace(s: string): (r: int)
    ensures 0 <= r <= |s|
  {
    |s| - |Js.TrimStart(s)|
  }

  /** The prefix for a declarator after a comma: over its leading whitespace, or inserted at its full start when there is none. */
  function PrefixCall(d: Span, prefix: string, text: string): Call
  {
    var whitespace := LeadingWhitespace(Js.Slice(text, d.fullStart, d.start));
    if whitespace != 0 then Overwrite(d.fullStart, d.fullStart + whitespace, prefix) else AppendLeft(d.fullStart, prefix)
  }

  /** One child of the declaration list in the splitting loop, with `commaPos` and the calls so far. */
  function SplitItem(state: (int, seq<Call>), item: ListItem, prefix: string, text: string): (int, seq<Call>)
  {
    match item
    case CommaToken(sp) => (sp.start, state.1 + [Remove(sp.start, sp.end)])
    case DeclaratorItem(sp) =>
      if state.0 != 0 then (state.0, state.1 + [AppendLeft(state.0, ";\n"), PrefixCall(sp, prefix, text)]) else state
  }

  /** The splitting loop over the declaration list's children. */
  function Split(list: seq<ListItem>, prefix: string, text: string): (int, seq<Call>)
    decreases |list|
  {
    if |list| == 0 then (0, []) else SplitItem(Split(list[..|list| - 1], prefix, text), list[|list| - 1], prefix, text)
  }

  /** A declaration list as the parser gives it: the first declarator, then comma and declarator pairs. */
  function Interleaved(first: Span, pairs: seq<(Span, Span)>): seq<ListItem>
    decreases |pairs|
  {
    if |pairs| == 0 then [DeclaratorItem(first)]
    else
      var p := pairs[|pairs| - 1];
      Interleaved(first, pairs[..|pairs| - 1]) + [CommaToken(p.0), DeclaratorItem(p.1)]
  }

  /** For each comma: its removal, `;\n` where it was, and the declaration prefix before the next declarator. */
  function SeparatorCalls(pairs: seq<(Span, Span)>, prefix: string, text: string): seq<Call>
    decreases |pairs|
  {
    if |pairs| == 0 then []
    else
      var p := pairs[|pairs| - 1];
      SeparatorCalls(pairs[..|pairs| - 1], prefix, text)
        + [Remove(p.0.start, p.0.end), AppendLeft(p.0.start, ";\n"), PrefixCall(p.1, prefix, text)]
  }

  /**
   * The calls the splitting loop makes on `a, b, c`: for each comma in
   * order, its removal, `;\n` at its place and the `declare <keyword> `
   * prefix for the declarator after it; the last comma's position is what
   * the loop is left holding. What the calls render is not stated.
   */
  lemma {:induction false} SplitMeaning(first: Span, pairs: seq<(Span, Span)>, prefix: string, text: string)
    requires forall i :: 0 <= i < |pairs| ==> pairs[i].0.start != 0
    ensures Split(Interleaved(first, pairs), prefix, text)
      == (if |pairs| == 0 then 0 else pairs[|pairs| - 1].0.start, SeparatorCalls(pairs, prefix, text))
    decreases |pairs|
  {
    var list := Interleaved(first, pairs);
    if |pairs| == 0 {
      assert list[..0] == [];
    } else {
      var init := pairs[..|pairs| - 1];
      var p := pairs[|pairs| - 1];
      SplitMeaning(first, init, prefix, text);
      var l := Interleaved(first, init);
      assert list == l + [CommaToken(p.0), DeclaratorItem(p.1)];
      SplitPair(l, p.0, p.1, prefix, text);
      var before := Split(l, prefix, text);
      var afterComma := SplitItem(before, CommaToken(p.0), prefix, text);
      assert afterComma == (p.0.start, before.1 + [Remove(p.0.start, p.0.end)]);
      assert p.0.start != 0;
      assert SplitItem(afterComma, DeclaratorItem(p.1), prefix, text)
        == (p.0.start, before.1 + [Remove(p.0.start, p.0.end)] + [AppendLeft(p.0.start, ";\n"), PrefixCall(p.1, prefix, text)]);
      assert before.1 + [Remove(p.0.start, p.0.end)] + [AppendLeft(p.0.start, ";\n"), PrefixCall(p.1, prefix, text)]
        == SeparatorCalls(pairs, prefix, text);
    }
  }

  /** The splitting loop over a comma and the declarator after it. */
  lemma SplitPair(l: seq<ListItem>, comma: Span, d: Span, prefix: string, text: string)
    ensures Split(l + [CommaToken(comma), DeclaratorItem(d)], prefix, text)
      == SplitItem(SplitItem(Split(l, prefix, text), CommaToken(comma), prefix, text), DeclaratorItem(d), prefix, text)
  {
    var list := l + [CommaToken(comma), DeclaratorItem(d)];
    assert list[..|list| - 1] == l + [CommaToken(comma)];
    assert (l + [CommaToken(comma)])[..|l|] == l;
  }

  // ---------------------------------------------------------------- pass 1

  /** What pass 1 records for a named declaration. */
  function DeclareNamed(b: Bookkeeping, n: Node, name: string, text: string, span: Span, globalAugmentation: bool): Bookkeeping
  {
    var b1 := b.(declaredNames := Js.SetAdd(b.declaredNames, name));
    var b2 :=
      if IsExportDefault(n) then b1.(defaultExport := name)
      else if IsExport(n) then b1.(exportedNames := Js.SetAdd(b1.exportedNames, name))
      else b1;
    if globalAugmentation then b2 else PushNamed(b2, name, (GetStart(text, span), GetEnd(text, span)))
  }

  /** Pass 1 on one statement. */
  function Pass1Step(b: Bookkeeping, s: Stmt, text: string): Result<Bookkeeping>
  {
    match s.node
    case EmptyStatement => Ok(b.(calls := b.calls + [Remove(s.span.start, s.span.end)]))
    case Declaration(kind, name, _, _, globalAugmentation, body, _) =>
      var b1 := if name.Some? then DeclareNamed(b, s.node, name.value.text, text, s.span, globalAugmentation) else b;
      var b2 := if kind == ModuleDecl then b1.(calls := b1.calls + DuplicateExportCalls(body)) else b1;
      Ok(b2.(calls := b2.calls + FixModifierCalls(s.node, s.span.start)))
    case VariableStatement(keyword, decls, list, _) =>
      var b1 := DeclareVariables(b, decls, IsExport(s.node));
      var b2 := b1.(calls := b1.calls + FixModifierCalls(s.node, s.span.start));
      var b3 :- VariableRanges(b2, text, s.span, decls);
      Ok(b3.(calls := b3.calls + Split(list, VarPrefix(keyword), text).1))
    case _ => Ok(b)
  }

  /** Pass 1 over the statements in order. */
  function Pass1(b: Bookkeeping, ss: seq<Stmt>, text: string): Result<Bookkeeping>
    decreases |ss|
  {
    if |ss| == 0 then Ok(b)
    else
      var b1 :- Pass1(b, ss[..|ss| - 1], text);
      Pass1Step(b1, ss[|ss| - 1], text)
  }

  // ---------------------------------------------------------------- pass 2

  /** Inline imports with an argument other than a string literal are refused. */
  const InlineImportMessage := "inline imports should have a literal argument"

  /** One inline `import("…")` type: its `import(…)` part, up to a following `.` or `<`, becomes the file's alias. */
  function InlineImportStep(b: Bookkeeping, t: ImportType): Result<Bookkeeping>
  {
    match t.argument
    case OtherArgument => Err(UnsupportedSyntax(InlineImportMessage))
    case StringArgument(fileId) =>
      var (b1, importName) := NamespaceImport(b, fileId);
      var end := if t.qualifierStart.Some? then t.qualifierStart.value else t.end;
      Ok(b1.(calls := b1.calls + [Overwrite(t.importStart, end, importName)]))
  }

  /** `checkInlineImport(node)` over the inline import types below a statement, in visiting order. */
  function InlineImports(b: Bookkeeping, ts: seq<ImportType>): Result<Bookkeeping>
    decreases |ts|
  {
    if |ts| == 0 then Ok(b)
    else
      var b1 :- InlineImports(b, ts[..|ts| - 1]);
      InlineImportStep(b1, ts[|ts| - 1])
  }

  /** The check fails exactly when some inline import has an argument that is not a string literal, and then always with the same error. */
  lemma {:induction false} InlineImportsFail(b: Bookkeeping, ts: seq<ImportType>)
    ensures InlineImports(b, ts).Err? <==> exists j :: 0 <= j < |ts| && ts[j].argument.OtherArgument?
    ensures InlineImports(b, ts).Err? ==> InlineImports(b, ts).error == UnsupportedSyntax(InlineImportMessage)
    decreases |ts|
  {
    if |ts| > 0 {
      var init := ts[..|ts| - 1];
      InlineImportsFail(b, init);
      if exists j :: 0 <= j < |init| && init[j].argument.OtherArgument? {
        var j :| 0 <= j < |init| && init[j].argument.OtherArgument?;
        assert ts[j] == init[j];
      }
      if exists j :: 0 <= j < |ts| && ts[j].argument.OtherArgument? {
        var j :| 0 <= j < |ts| && ts[j].argument.OtherArgument?;
        if j < |ts| - 1 {
          assert init[j] == ts[j];
        }
      }
    }
  }

  /** The name given to a nameless default class or function, after its keyword; a space is added before a punctuation token unless one is there. */
  function DefaultNameCall(k: KeywordToken, name: string, text: string): Call
  {
    if k.nextIsPunctuation then
      var addSpace := Js.Slice(text, k.end, k.nextStart) != " ";
      AppendLeft(k.nextStart, (if addSpace then " " else "") + name)
    else AppendRight(k.end, " " + name)
  }

  /** A nameless `export default` class or function. */
  predicate NamelessDefault(n: Node)
  {
    IsExportDefault(n) && n.Declaration? && (n.kind == FunctionDecl || n.kind == ClassDecl) && n.name.None?
  }

  /** The default name: the one declared, else a fresh `export_default`. */
  function WithDefaultName(b: Bookkeeping): Bookkeeping
  {
    if b.defaultExport != "" then b
    else
      var (b1, name) := UniqName(b, "export_default");
      b1.(defaultExport := name)
  }

  /** Pass 2 on one statement. */
  function Pass2Step(b: Bookkeeping, s: Stmt, text: string): Result<Bookkeeping>
  {
    var b1 :- InlineImports(b, s.importTypes);
    if NamelessDefault(s.node) then
      var b2 := WithDefaultName(b1);
      Ok(b2.(calls := b2.calls + [DefaultNameCall(s.node.keyword, b2.defaultExport, text)]))
    else Ok(b1)
  }

  /** Pass 2 over the statements in order. */
  function Pass2(b: Bookkeeping, ss: seq<Stmt>, text: string): Result<Bookkeeping>
    decreases |ss|
  {
    if |ss| == 0 then Ok(b)
    else
      var b1 :- Pass2(b, ss[..|ss| - 1], text);
      Pass2Step(b1, ss[|ss| - 1], text)
  }

  // ---------------------------------------------------------------- output

  /** `export default X;` when there is a default, then `export { … }` when some name is exported. */
  function ExportAppends(defaultExport: string, exportedNames: seq<string>): seq<Call>
  {
    (if defaultExport != "" then [Append("\nexport default " + defaultExport + ";\n")] else [])
      + (if |exportedNames| > 0 then [Append("\nexport { " + Js.Join(exportedNames, ", ") + " };\n")] else [])
  }

  /** `import * as alias from "fileId";` prepended for each inline import, in the map's order. */
  function ImportPrepends(keys: seq<string>, imports: map<string, string>): seq<Call>
    decreases |keys|
  {
    if |keys| == 0 then []
    else
      var k := keys[|keys| - 1];
      ImportPrepends(keys[..|keys| - 1], imports)
        + (if k in imports then [Prepend("import * as " + imports[k] + " from \"" + k + "\";\n")] else [])
  }

  /** The removal of a directive's line, with its line break when one follows. */
  function DirectiveRemoval(d: Directive, text: string): Call
  {
    var end := if Js.Slice(text, d.lineEnd, d.lineEnd + 1) == "\n" then d.lineEnd + 1 else d.lineEnd;
    Remove(d.lineStart, end)
  }

  /** A directive's line is removed from its start through its line break, or to the end of the text on the last line. */
  lemma DirectiveRemovalLine(d: Directive, text: string)
    requires 0 <= d.lineStart <= d.lineEnd <= |text|
    ensures var c := DirectiveRemoval(d, text);
      c.Remove? && c.start == d.lineStart
      && (if d.lineEnd < |text| && text[d.lineEnd] == '\n' then c.end == d.lineEnd + 1 else c.end == d.lineEnd)
  {
    if d.lineEnd < |text| {
      assert Js.Slice(text, d.lineEnd, d.lineEnd + 1) == [text[d.lineEnd]];
    }
  }

  function DirectiveCalls(ds: seq<Directive>, text: string): seq<Call>
    decreases |ds|
  {
    if |ds| == 0 then [] else DirectiveCalls(ds[..|ds| - 1], text) + [DirectiveRemoval(ds[|ds| - 1], text)]
  }

  /** The set of the directives' file names, in first-seen order. */
  function DirectiveNames(ds: seq<Directive>): (r: seq<string>)
    ensures Js.NoDup(r)
    ensures forall x :: x in r <==> exists i :: 0 <= i < |ds| && ds[i].fileName == x
    decreases |ds|
  {
    if |ds| == 0 then []
    else
      var prev := DirectiveNames(ds[..|ds| - 1]);
      assert forall i :: 0 <= i < |ds| - 1 ==> ds[..|ds| - 1][i] == ds[i];
      Js.SetAdd(prev, ds[|ds| - 1].fileName)
  }

  /** The whole preprocessing of a file. */
  function PreProcessed(file: SourceFile): Result<Output>
  {
    var b1 :- Pass1(Initial, file.statements, file.text);
    var b2 :- Pass2(b1, file.statements, file.text);
    var calls := b2.calls
      + ReorderCalls(b2.rangeNames, b2.nameRanges)
      + ExportAppends(b2.defaultExport, b2.exportedNames)
      + ImportPrepends(b2.inlineKeys, b2.inlineImports)
      + DirectiveCalls(file.typeReferenceDirectives, file.text)
      + DirectiveCalls(file.referencedFiles, file.text);
    Ok(Output(calls, DirectiveNames(file.typeReferenceDirectives), DirectiveNames(file.referencedFiles)))
  }

  // ---------------------------------------------------------------- what the passes record

  /** Some identifier declarator of the list is named `x`. */
  predicate DeclaresVariable(decls: seq<VarDecl>, x: string)
  {
    exists j :: 0 <= j < |decls| && decls[j].name.isIdentifier && decls[j].name.text == x
  }

  /** The statement declares `x`: a declaration named `x`, or a variable statement with an identifier declarator `x`. */
  predicate Declares(s: Stmt, x: string)
  {
    match s.node
    case Declaration(_, Some(n), _, _, _, _, _) => n.text == x
    case VariableStatement(_, decls, _, _) => DeclaresVariable(decls, x)
    case _ => false
  }

  /** The statement adds `x` to the exported names: an exported, non-default declaration named `x`, or an exported variable statement declaring `x`. */
  predicate ExportsName(s: Stmt, x: string)
  {
    match s.node
    case Declaration(_, Some(n), _, _, _, _, _) => n.text == x && IsExport(s.node) && !IsExportDefault(s.node)
    case VariableStatement(_, decls, _, _) => IsExport(s.node) && DeclaresVariable(decls, x)
    case _ => false
  }

  /** The variable names go into both sets, in order and without duplicates; nothing else changes. */
  lemma {:induction false} DeclareVariablesNames(b: Bookkeeping, decls: seq<VarDecl>, isExport: bool)
    ensures var b1 := DeclareVariables(b, decls, isExport);
      && b1.(declaredNames := b.declaredNames, exportedNames := b.exportedNames) == b
      && (Js.NoDup(b.declaredNames) ==> Js.NoDup(b1.declaredNames))
      && (Js.NoDup(b.exportedNames) ==> Js.NoDup(b1.exportedNames))
      && (forall x :: x in b1.declaredNames <==> x in b.declaredNames || DeclaresVariable(decls, x))
      && (forall x :: x in b1.exportedNames <==> x in b.exportedNames || (isExport && DeclaresVariable(decls, x)))
    decreases |decls|
  {
    if |decls| > 0 {
      var init := decls[..|decls| - 1];
      DeclareVariablesNames(b, init, isExport);
      forall x
        ensures DeclaresVariable(decls, x) <==>
          (DeclaresVariable(init, x) || (decls[|decls| - 1].name.isIdentifier && decls[|decls| - 1].name.text == x))
      {
        if DeclaresVariable(decls, x) {
          var j :| 0 <= j < |decls| && decls[j].name.isIdentifier && decls[j].name.text == x;
          if j < |init| {
            assert init[j] == decls[j];
          }
        }
        if DeclaresVariable(init, x) {
          var j :| 0 <= j < |init| && init[j].name.isIdentifier && init[j].name.text == x;
          assert decls[j] == init[j];
        }
      }
    }
  }

  /** Pushing ranges changes only the ranges. */
  lemma {:induction false} RestRangesOnlyRanges(b: Bookkeeping, decls: seq<VarDecl>)
    ensures RestRanges(b, decls).(rangeNames := b.rangeNames, nameRanges := b.nameRanges) == b
    decreases |decls|
  {
    if |decls| > 0 {
      RestRangesOnlyRanges(b, decls[..|decls| - 1]);
    }
  }

  /** Pass 1 on one statement adds to the declared and exported names exactly what the statement declares and exports. */
  lemma Pass1StepNames(b: Bookkeeping, s: Stmt, text: string)
    requires Pass1Step(b, s, text).Ok?
    ensures var b1 := Pass1Step(b, s, text).value;
      && (Js.NoDup(b.declaredNames) ==> Js.NoDup(b1.declaredNames))
      && (Js.NoDup(b.exportedNames) ==> Js.NoDup(b1.exportedNames))
      && (forall x :: x in b1.declaredNames <==> x in b.declaredNames || Declares(s, x))
      && (forall x :: x in b1.exportedNames <==> x in b.exportedNames || ExportsName(s, x))
  {
    if s.node.VariableStatement? {
      VariableStepNames(b, s, text);
    } else if s.node.Declaration? {
      DeclarationStepNames(b, s, text);
    } else {
      assert Pass1Step(b, s, text).value.(calls := b.calls) == b;
    }
  }

  /** The names pass 1 records for a declaration: its name, and also as exported when it is exported but not the default. */
  lemma DeclarationStepNames(b: Bookkeeping, s: Stmt, text: string)
    requires s.node.Declaration?
    ensures var b1 := Pass1Step(b, s, text).value;
      && (Js.NoDup(b.declaredNames) ==> Js.NoDup(b1.declaredNames))
      && (Js.NoDup(b.exportedNames) ==> Js.NoDup(b1.exportedNames))
      && (forall x :: x in b1.declaredNames <==> x in b.declaredNames || Declares(s, x))
      && (forall x :: x in b1.exportedNames <==> x in b.exportedNames || ExportsName(s, x))
  {
    var n := s.node;
    var b1 := if n.name.Some? then DeclareNamed(b, n, n.name.value.text, text, s.span, n.globalAugmentation) else b;
    var b2 := if n.kind == ModuleDecl then b1.(calls := b1.calls + DuplicateExportCalls(n.body)) else b1;
    assert Pass1Step(b, s, text) == Ok(b2.(calls := b2.calls + FixModifierCalls(n, s.span.start)));
    assert b2.declaredNames == b1.declaredNames && b2.exportedNames == b1.exportedNames;
    if n.name.Some? {
      var x := n.name.value.text;
      assert b1.declaredNames == Js.SetAdd(b.declaredNames, x);
      assert b1.exportedNames == if !IsExportDefault(n) && IsExport(n) then Js.SetAdd(b.exportedNames, x) else b.exportedNames;
    }
  }

  /** The names pass 1 records for a variable statement are those of `DeclareVariables`. */
  lemma VariableStepNames(b: Bookkeeping, s: Stmt, text: string)
    requires s.node.VariableStatement? && Pass1Step(b, s, text).Ok?
    ensures var b1 := DeclareVariables(b, s.node.declarations, IsExport(s.node));
      Pass1Step(b, s, text).value.declaredNames == b1.declaredNames
      && Pass1Step(b, s, text).value.exportedNames == b1.exportedNames
    ensures var b1 := Pass1Step(b, s, text).value;
      && (Js.NoDup(b.declaredNames) ==> Js.NoDup(b1.declaredNames))
      && (Js.NoDup(b.exportedNames) ==> Js.NoDup(b1.exportedNames))
      && (forall x :: x in b1.declaredNames <==> x in b.declaredNames || Declares(s, x))
      && (forall x :: x in b1.exportedNames <==> x in b.exportedNames || ExportsName(s, x))
  {
    var decls := s.node.declarations;
    var b1 := DeclareVariables(b, decls, IsExport(s.node));
    DeclareVariablesNames(b, decls, IsExport(s.node));
    var b2 := b1.(calls := b1.calls + FixModifierCalls(s.node, s.span.start));
    var b3 := VariableRanges(b2, text, s.span, decls).value;
    if |decls| > 1 {
      RestRangesOnlyRanges(PushNamed(b2, decls[0].name.text, (GetStart(text, s.span), decls[0].span.end)), decls[1..]);
    }
    assert b3.declaredNames == b1.declaredNames && b3.exportedNames == b1.exportedNames;
    assert Pass1Step(b, s, text).value == b3.(calls := b3.calls + Split(s.node.list, VarPrefix(s.node.varKeyword), text).1);
  }

  /**
   * After pass 1 the declared names are those declared before plus every
   * name a statement declares, and the exported names those exported before
   * plus every name a statement exports, each set without duplicates.
   */
  lemma {:induction false} Pass1Names(b: Bookkeeping, ss: seq<Stmt>, text: string)
    requires Pass1(b, ss, text).Ok?
    ensures var b1 := Pass1(b, ss, text).value;
      && (Js.NoDup(b.declaredNames) ==> Js.NoDup(b1.declaredNames))
      && (Js.NoDup(b.exportedNames) ==> Js.NoDup(b1.exportedNames))
      && (forall x :: x in b1.declaredNames <==> x in b.declaredNames || exists i :: 0 <= i < |ss| && Declares(ss[i], x))
      && (forall x :: x in b1.exportedNames <==> x in b.exportedNames || exists i :: 0 <= i < |ss| && ExportsName(ss[i], x))
    decreases |ss|
  {
    if |ss| > 0 {
      var init := ss[..|ss| - 1];
      var last := ss[|ss| - 1];
      Pass1Names(b, init, text);
      Pass1StepNames(Pass1(b, init, text).value, last, text);
      DeclaresSnoc(ss);
    }
  }

  /** Some statement declares `x`. */
  predicate SomeDeclares(ss: seq<Stmt>, x: string)
  {
    exists i :: 0 <= i < |ss| && Declares(ss[i], x)
  }

  /** Some statement exports `x`. */
  predicate SomeExports(ss: seq<Stmt>, x: string)
  {
    exists i :: 0 <= i < |ss| && ExportsName(ss[i], x)
  }

  /** A name is declared or exported by some statement exactly when by one before the last, or by the last. */
  lemma DeclaresSnoc(ss: seq<Stmt>)
    requires |ss| > 0
    ensures forall x :: SomeDeclares(ss, x) <==> SomeDeclares(ss[..|ss| - 1], x) || Declares(ss[|ss| - 1], x)
    ensures forall x :: SomeExports(ss, x) <==> SomeExports(ss[..|ss| - 1], x) || ExportsName(ss[|ss| - 1], x)
  {
    var init := ss[..|ss| - 1];
    assert forall i :: 0 <= i < |init| ==> init[i] == ss[i];
  }

  /** Pushing the ranges after the first declarator keeps the bookkeeping valid. */
  lemma {:induction false} RestRangesValid(b: Bookkeeping, decls: seq<VarDecl>)
    requires Valid(b)
    ensures Valid(RestRanges(b, decls))
    decreases |decls|
  {
    if |decls| > 0 {
      RestRangesValid(b, decls[..|decls| - 1]);
      var d := decls[|decls| - 1];
      PushNamedValid(RestRanges(b, decls[..|decls| - 1]), d.name.text, (d.span.fullStart, d.span.end));
    }
  }

  /** Pass 1 keeps the bookkeeping valid. */
  lemma {:induction false} Pass1Valid(b: Bookkeeping, ss: seq<Stmt>, text: string)
    requires Valid(b) && Pass1(b, ss, text).Ok?
    ensures Valid(Pass1(b, ss, text).value)
    decreases |ss|
  {
    if |ss| > 0 {
      var init := ss[..|ss| - 1];
      Pass1Valid(b, init, text);
      Pass1StepValid(Pass1(b, init, text).value, ss[|ss| - 1], text);
    }
  }

  /** One statement of pass 1 keeps the bookkeeping valid. */
  lemma Pass1StepValid(b: Bookkeeping, s: Stmt, text: string)
    requires Valid(b) && Pass1Step(b, s, text).Ok?
    ensures Valid(Pass1Step(b, s, text).value)
  {
    Pass1StepNames(b, s, text);
    if s.node.Declaration? {
      DeclarationStepValid(b, s, text);
    } else if s.node.VariableStatement? {
      VariableStepValid(b, s, text);
    }
  }

  /** A declaration keeps the bookkeeping valid once its names stay distinct. */
  lemma DeclarationStepValid(b: Bookkeeping, s: Stmt, text: string)
    requires Valid(b) && s.node.Declaration?
    requires var b1 := Pass1Step(b, s, text).value; Js.NoDup(b1.declaredNames) && Js.NoDup(b1.exportedNames)
    ensures Valid(Pass1Step(b, s, text).value)
  {
    var n := s.node;
    var b1 := if n.name.Some? then DeclareNamed(b, n, n.name.value.text, text, s.span, n.globalAugmentation) else b;
    var b2 := if n.kind == ModuleDecl then b1.(calls := b1.calls + DuplicateExportCalls(n.body)) else b1;
    var r := b2.(calls := b2.calls + FixModifierCalls(n, s.span.start));
    assert Pass1Step(b, s, text) == Ok(r);
    if n.name.Some? {
      DeclareNamedValid(b, n, n.name.value.text, text, s.span, n.globalAugmentation);
    }
  }

  /** Declaring a name keeps the bookkeeping valid once the names stay distinct. */
  lemma DeclareNamedValid(b: Bookkeeping, n: Node, x: string, text: string, span: Span, globalAugmentation: bool)
    requires Valid(b)
    requires var d := DeclareNamed(b, n, x, text, span, globalAugmentation); Js.NoDup(d.declaredNames) && Js.NoDup(d.exportedNames)
    ensures Valid(DeclareNamed(b, n, x, text, span, globalAugmentation))
  {
    var c1 := b.(declaredNames := Js.SetAdd(b.declaredNames, x));
    var c2 :=
      if IsExportDefault(n) then c1.(defaultExport := x)
      else if IsExport(n) then c1.(exportedNames := Js.SetAdd(c1.exportedNames, x))
      else c1;
    if !globalAugmentation {
      assert DeclareNamed(b, n, x, text, span, globalAugmentation) == PushNamed(c2, x, (GetStart(text, span), GetEnd(text, span)));
      PushNamedValid(c2, x, (GetStart(text, span), GetEnd(text, span)));
    }
  }

  /** A variable statement keeps the bookkeeping valid once its names stay distinct. */
  lemma VariableStepValid(b: Bookkeeping, s: Stmt, text: string)
    requires Valid(b) && s.node.VariableStatement? && Pass1Step(b, s, text).Ok?
    requires var b1 := Pass1Step(b, s, text).value; Js.NoDup(b1.declaredNames) && Js.NoDup(b1.exportedNames)
    ensures Valid(Pass1Step(b, s, text).value)
  {
    var decls := s.node.declarations;
    VariableStepNames(b, s, text);
    DeclareVariablesNames(b, decls, IsExport(s.node));
    var b1 := DeclareVariables(b, decls, IsExport(s.node));
    var b2 := b1.(calls := b1.calls + FixModifierCalls(s.node, s.span.start));
    assert Valid(b2);
    var b3 := VariableRanges(b2, text, s.span, decls).value;
    assert Pass1Step(b, s, text) == Ok(b3.(calls := b3.calls + Split(s.node.list, VarPrefix(s.node.varKeyword), text).1));
    VariableRangesValid(b2, text, s.span, decls);
  }

  /** Recording a variable statement's ranges keeps the bookkeeping valid. */
  lemma VariableRangesValid(b: Bookkeeping, text: string, span: Span, decls: seq<VarDecl>)
    requires Valid(b) && VariableRanges(b, text, span, decls).Ok?
    ensures Valid(VariableRanges(b, text, span, decls).value)
  {
    if |decls| == 1 {
      PushNamedValid(b, decls[0].name.text, (GetStart(text, span), GetEnd(text, span)));
    } else if |decls| > 1 {
      var b1 := PushNamed(b, decls[0].name.text, (GetStart(text, span), decls[0].span.end));
      PushNamedValid(b, decls[0].name.text, (GetStart(text, span), decls[0].span.end));
      RestRangesValid(b1, decls[1..]);
    }
  }

  /** The inline-import check changes neither the ranges, nor the exported names, nor the default. */
  lemma {:induction false} InlineImportsKeep(b: Bookkeeping, ts: seq<ImportType>)
    requires InlineImports(b, ts).Ok?
    ensures var b1 := InlineImports(b, ts).value;
      b1.rangeNames == b.rangeNames && b1.nameRanges == b.nameRanges
      && b1.exportedNames == b.exportedNames && b1.defaultExport == b.defaultExport
    decreases |ts|
  {
    if |ts| > 0 {
      InlineImportsKeep(b, ts[..|ts| - 1]);
    }
  }

  /** Pass 2 changes neither the ranges nor the exported names; a default it finds stays. */
  lemma {:induction false} Pass2Keeps(b: Bookkeeping, ss: seq<Stmt>, text: string)
    requires Pass2(b, ss, text).Ok?
    ensures var b1 := Pass2(b, ss, text).value;
      b1.rangeNames == b.rangeNames && b1.nameRanges == b.nameRanges && b1.exportedNames == b.exportedNames
      && (b.defaultExport != "" ==> b1.defaultExport == b.defaultExport)
    decreases |ss|
  {
    if |ss| > 0 {
      Pass2Keeps(b, ss[..|ss| - 1], text);
      InlineImportsKeep(Pass2(b, ss[..|ss| - 1], text).value, ss[|ss| - 1].importTypes);
    }
  }

  /** Pass 2 keeps the bookkeeping valid. */
  lemma {:induction false} Pass2Valid(b: Bookkeeping, ss: seq<Stmt>, text: string)
    requires Valid(b) && Pass2(b, ss, text).Ok?
    ensures Valid(Pass2(b, ss, text).value)
    decreases |ss|
  {
    if |ss| > 0 {
      Pass2Valid(b, ss[..|ss| - 1], text);
      var b0 := Pass2(b, ss[..|ss| - 1], text).value;
      InlineImportsValid(b0, ss[|ss| - 1].importTypes);
      var b1 := InlineImports(b0, ss[|ss| - 1].importTypes).value;
      UniqNameValid(b1, "export_default");
    }
  }

  /** The inline-import check keeps the bookkeeping valid. */
  lemma {:induction false} InlineImportsValid(b: Bookkeeping, ts: seq<ImportType>)
    requires Valid(b) && InlineImports(b, ts).Ok?
    ensures Valid(InlineImports(b, ts).value)
    decreases |ts|
  {
    if |ts| > 0 {
      InlineImportsValid(b, ts[..|ts| - 1]);
      var t := ts[|ts| - 1];
      if t.argument.StringArgument? {
        NamespaceImportValid(InlineImports(b, ts[..|ts| - 1]).value, t.argument.text);
      }
    }
  }

  // ---------------------------------------------------------------- ranges never overlap

  /** Every name's ranges are in order, none overlapping, and all end by `bound`. */
  predicate RangesBefore(b: Bookkeeping, bound: int)
  {
    forall n :: n in b.nameRanges ==>
      RangesAscending(b.nameRanges[n]) && (|b.nameRanges[n]| > 0 ==> b.nameRanges[n][|b.nameRanges[n]| - 1].1 <= bound)
  }

  /** Pushing a range that starts at or after `bound` keeps every name's ranges in order, and they then all end by its end. */
  lemma PushNamedBefore(b: Bookkeeping, name: string, r: Range, bound: int)
    requires RangesBefore(b, bound) && bound <= r.0 <= r.1
    ensures RangesBefore(PushNamed(b, name, r), r.1)
  {
    var m := PushNamed(b, name, r).nameRanges;
    forall k | k in m
      ensures RangesAscending(m[k]) && (|m[k]| > 0 ==> m[k][|m[k]| - 1].1 <= r.1)
    {
      if k == name {
        if name in b.nameRanges && |b.nameRanges[name]| > 0 {
          PushedRangesAscending(b.nameRanges[name], r);
        } else {
          assert m[k] == [r];
        }
      } else {
        assert m[k] == b.nameRanges[k];
      }
    }
  }

  /** Declarators in order between `from` and `to`, none overlapping a later one. */
  predicate DeclaratorsInside(decls: seq<VarDecl>, from: int, to: int)
  {
    && (forall j :: 0 <= j < |decls| ==> from <= decls[j].span.fullStart <= decls[j].span.end <= to)
    && (forall i, j :: 0 <= i < j < |decls| ==> decls[i].span.end <= decls[j].span.fullStart)
  }

  /** The ranges of the declarators after the first stay in order and end by the last declarator's end. */
  lemma {:induction false} RestRangesBefore(b: Bookkeeping, decls: seq<VarDecl>, bound: int, to: int)
    requires RangesBefore(b, bound) && DeclaratorsInside(decls, bound, to) && bound <= to
    ensures RangesBefore(RestRanges(b, decls), to)
    decreases |decls|
  {
    if |decls| > 0 {
      var init := decls[..|decls| - 1];
      var d := decls[|decls| - 1];
      var mid := if |init| == 0 then bound else init[|init| - 1].span.end;
      DeclaratorsInit(decls, bound, to);
      RestRangesBefore(b, init, bound, mid);
      if d.name.isIdentifier {
        PushNamedBefore(RestRanges(b, init), d.name.text, (d.span.fullStart, d.span.end), mid);
        RangesBeforeWeaken(RestRanges(b, decls), d.span.end, to);
      } else {
        RangesBeforeWeaken(RestRanges(b, init), mid, to);
      }
    }
  }

  /** The declarators but the last lie between `from` and the end of the one before the last, which ends before the last starts. */
  lemma DeclaratorsInit(decls: seq<VarDecl>, from: int, to: int)
    requires |decls| > 0 && DeclaratorsInside(decls, from, to)
    ensures var init := decls[..|decls| - 1];
      var mid := if |init| == 0 then from else init[|init| - 1].span.end;
      && DeclaratorsInside(init, from, mid) && from <= mid <= decls[|decls| - 1].span.fullStart
      && decls[|decls| - 1].span.end <= to
  {
    var init := decls[..|decls| - 1];
    assert forall j :: 0 <= j < |init| ==> init[j] == decls[j];
    if |init| > 0 {
      assert forall j :: 0 <= j < |init| ==> decls[j].span.end <= init[|init| - 1].span.end by {
        forall j | 0 <= j < |init|
          ensures decls[j].span.end <= init[|init| - 1].span.end
        {
          if j < |init| - 1 {
            assert decls[j].span.end <= decls[|init| - 1].span.fullStart;
          }
        }
      }
    }
  }

  /** Ranges that end by `x` end by any later bound. */
  lemma RangesBeforeWeaken(b: Bookkeeping, x: int, y: int)
    requires RangesBefore(b, x) && x <= y
    ensures RangesBefore(b, y)
  {
  }

  /**
   * A statement as the parser lays it out: its line break at the full start
   * is trivia before its start, and a variable statement's declarators lie in
   * order within it.
   */
  predicate WellPlaced(s: Stmt, text: string)
  {
    && 0 <= s.span.fullStart && GetStart(text, s.span) <= s.span.start <= s.span.end
    && (s.node.VariableStatement? ==> DeclaratorsInside(s.node.declarations, s.span.start, s.span.end))
  }

  /** Well placed statements in source order, none overlapping a later one. */
  predicate Ordered(ss: seq<Stmt>, text: string)
  {
    && (forall i :: 0 <= i < |ss| ==> WellPlaced(ss[i], text))
    && (forall i, j :: 0 <= i < j < |ss| ==> ss[i].span.end <= ss[j].span.fullStart)
  }

  /** A statement's end, past its line break, is never after the start of a later statement. */
  lemma EndBeforeStart(text: string, a: Span, b: Span)
    requires a.end <= b.fullStart
    ensures GetEnd(text, a) <= GetStart(text, b)
  {
  }

  /** The ranges pass 1 records for one statement lie between its start and its end. */
  lemma Pass1StepRanges(b: Bookkeeping, s: Stmt, text: string, bound: int)
    requires RangesBefore(b, bound) && WellPlaced(s, text) && bound <= GetStart(text, s.span)
    requires Pass1Step(b, s, text).Ok?
    ensures RangesBefore(Pass1Step(b, s, text).value, GetEnd(text, s.span))
  {
    match s.node {
      case Declaration(_, name, _, _, globalAugmentation, body, _) =>
        DeclarationStepRanges(b, s, text, bound);
      case VariableStatement(_, _, _, _) =>
        VariableStepRanges(b, s, text, bound);
      case _ =>
        assert Pass1Step(b, s, text).value.nameRanges == b.nameRanges;
    }
  }

  /** A named declaration's range is its whole statement. */
  lemma DeclarationStepRanges(b: Bookkeeping, s: Stmt, text: string, bound: int)
    requires s.node.Declaration?
    requires RangesBefore(b, bound) && WellPlaced(s, text) && bound <= GetStart(text, s.span)
    ensures RangesBefore(Pass1Step(b, s, text).value, GetEnd(text, s.span))
  {
    var n := s.node;
    var b1 := if n.name.Some? then DeclareNamed(b, n, n.name.value.text, text, s.span, n.globalAugmentation) else b;
    var b2 := if n.kind == ModuleDecl then b1.(calls := b1.calls + DuplicateExportCalls(n.body)) else b1;
    assert Pass1Step(b, s, text) == Ok(b2.(calls := b2.calls + FixModifierCalls(n, s.span.start)));
    if n.name.Some? {
      DeclareNamedRanges(b, n, n.name.value.text, text, s.span, n.globalAugmentation, bound);
    } else {
      RangesBeforeWeaken(b, bound, GetEnd(text, s.span));
    }
  }

  /** Declaring a name records at most the statement's own range, which lies after `bound`. */
  lemma DeclareNamedRanges(b: Bookkeeping, n: Node, x: string, text: string, span: Span, globalAugmentation: bool, bound: int)
    requires RangesBefore(b, bound) && bound <= GetStart(text, span) <= GetEnd(text, span)
    ensures RangesBefore(DeclareNamed(b, n, x, text, span, globalAugmentation), GetEnd(text, span))
  {
    var c1 := b.(declaredNames := Js.SetAdd(b.declaredNames, x));
    var c2 :=
      if IsExportDefault(n) then c1.(defaultExport := x)
      else if IsExport(n) then c1.(exportedNames := Js.SetAdd(c1.exportedNames, x))
      else c1;
    assert c2.nameRanges == b.nameRanges;
    if globalAugmentation {
      RangesBeforeWeaken(c2, bound, GetEnd(text, span));
    } else {
      assert DeclareNamed(b, n, x, text, span, globalAugmentation) == PushNamed(c2, x, (GetStart(text, span), GetEnd(text, span)));
      PushNamedBefore(c2, x, (GetStart(text, span), GetEnd(text, span)), bound);
    }
  }

  /** A variable statement's ranges lie in order within the statement. */
  lemma VariableStepRanges(b: Bookkeeping, s: Stmt, text: string, bound: int)
    requires s.node.VariableStatement? && Pass1Step(b, s, text).Ok?
    requires RangesBefore(b, bound) && WellPlaced(s, text) && bound <= GetStart(text, s.span)
    ensures RangesBefore(Pass1Step(b, s, text).value, GetEnd(text, s.span))
  {
    var decls := s.node.declarations;
    var b1 := DeclareVariables(b, decls, IsExport(s.node));
    DeclareVariablesNames(b, decls, IsExport(s.node));
    var b2 := b1.(calls := b1.calls + FixModifierCalls(s.node, s.span.start));
    VariableRangesBefore(b2, text, s.span, decls, bound);
    assert Pass1Step(b, s, text).value.nameRanges == VariableRanges(b2, text, s.span, decls).value.nameRanges;
  }

  /** The ranges of the declarators: the first from the statement's start, the others their own, all in order. */
  lemma VariableRangesBefore(b: Bookkeeping, text: string, span: Span, decls: seq<VarDecl>, bound: int)
    requires RangesBefore(b, bound) && bound <= GetStart(text, span) <= span.start <= span.end
    requires DeclaratorsInside(decls, span.start, span.end) && VariableRanges(b, text, span, decls).Ok?
    ensures RangesBefore(VariableRanges(b, text, span, decls).value, GetEnd(text, span))
  {
    if |decls| == 1 {
      if decls[0].name.isIdentifier {
        PushNamedBefore(b, decls[0].name.text, (GetStart(text, span), GetEnd(text, span)), bound);
      }
    } else {
      var first := decls[0];
      var range := (GetStart(text, span), first.span.end);
      PushNamedBefore(b, first.name.text, range, bound);
      var rest := decls[1..];
      assert forall j :: 0 <= j < |rest| ==> rest[j] == decls[j + 1];
      RestRangesBefore(PushNamed(b, first.name.text, range), rest, first.span.end, span.end);
    }
  }

  /**
   * For statements in source order, pass 1 keeps every name's ranges in
   * order and disjoint, all ending by the last statement's end.
   */
  lemma {:induction false} Pass1Ranges(b: Bookkeeping, ss: seq<Stmt>, text: string, bound: int)
    requires Ordered(ss, text) && RangesBefore(b, bound)
    requires |ss| > 0 ==> bound <= GetStart(text, ss[0].span)
    requires Pass1(b, ss, text).Ok?
    ensures RangesBefore(Pass1(b, ss, text).value, if |ss| == 0 then bound else GetEnd(text, ss[|ss| - 1].span))
    decreases |ss|
  {
    if |ss| > 0 {
      var init := ss[..|ss| - 1];
      var s := ss[|ss| - 1];
      assert forall i :: 0 <= i < |init| ==> init[i] == ss[i];
      assert Ordered(init, text);
      Pass1Ranges(b, init, text, bound);
      if |init| > 0 {
        EndBeforeStart(text, init[|init| - 1].span, s.span);
      }
      Pass1StepRanges(Pass1(b, init, text).value, s, text, if |init| == 0 then bound else GetEnd(text, init[|init| - 1].span));
    }
  }

  /**
   * For a file whose statements are in source order, every name's ranges are
   * in order and disjoint when the reordering runs, so each of its moves
   * carries an earlier fragment forward to the start of the name's last one.
   */
  lemma RangesNeverOverlap(file: SourceFile)
    requires Ordered(file.statements, file.text)
    requires Pass1(Initial, file.statements, file.text).Ok?
    ensures var b := Pass1(Initial, file.statements, file.text).value;
      forall n :: n in b.nameRanges ==> RangesAscending(b.nameRanges[n])
    ensures var b := Pass1(Initial, file.statements, file.text).value;
      Pass2(b, file.statements, file.text).Ok? ==> Pass2(b, file.statements, file.text).value.nameRanges == b.nameRanges
  {
    var ss := file.statements;
    var bound := if |ss| == 0 then 0 else GetStart(file.text, ss[0].span);
    Pass1Ranges(Initial, ss, file.text, bound);
    var b := Pass1(Initial, ss, file.text).value;
    if Pass2(b, ss, file.text).Ok? {
      Pass2Keeps(b, ss, file.text);
    }
  }

  // ---------------------------------------------------------------- when preprocessing fails

  /** A variable statement without a declarator: reading its first declarator's name throws. */
  predicate EmptyVariableStatement(s: Stmt)
  {
    s.node.VariableStatement? && |s.node.declarations| == 0
  }

  /** Some inline import type below the statement has an argument other than a string literal. */
  predicate HasNonLiteralImport(s: Stmt)
  {
    exists j :: 0 <= j < |s.importTypes| && s.importTypes[j].argument.OtherArgument?
  }

  /** Pass 1 fails exactly on a variable statement without declarators. */
  lemma {:induction false} Pass1Fails(b: Bookkeeping, ss: seq<Stmt>, text: string)
    ensures Pass1(b, ss, text).Err? <==> exists i :: 0 <= i < |ss| && EmptyVariableStatement(ss[i])
    ensures Pass1(b, ss, text).Err? ==> Pass1(b, ss, text).error == AbsentNode
    decreases |ss|
  {
    if |ss| > 0 {
      var init := ss[..|ss| - 1];
      Pass1Fails(b, init, text);
      assert forall i :: 0 <= i < |init| ==> init[i] == ss[i];
    }
  }

  /** Pass 2 fails exactly on a statement with a non-literal inline import, and always with the same error. */
  lemma {:induction false} Pass2Fails(b: Bookkeeping, ss: seq<Stmt>, text: string)
    ensures Pass2(b, ss, text).Err? <==> exists i :: 0 <= i < |ss| && HasNonLiteralImport(ss[i])
    ensures Pass2(b, ss, text).Err? ==> Pass2(b, ss, text).error == UnsupportedSyntax(InlineImportMessage)
    decreases |ss|
  {
    if |ss| > 0 {
      var init := ss[..|ss| - 1];
      Pass2Fails(b, init, text);
      assert forall i :: 0 <= i < |init| ==> init[i] == ss[i];
      if Pass2(b, init, text).Ok? {
        InlineImportsFail(Pass2(b, init, text).value, ss[|ss| - 1].importTypes);
      }
    }
  }

  /**
   * Preprocessing fails exactly when some variable statement has no
   * declarator, which pass 1 meets first, or else some inline import type has
   * a non-literal argument, which is an unsupported-syntax error.
   */
  lemma PreProcessFails(file: SourceFile)
    ensures PreProcessed(file).Err? <==>
      (exists i :: 0 <= i < |file.statements| && EmptyVariableStatement(file.statements[i]))
      || (exists i :: 0 <= i < |file.statements| && HasNonLiteralImport(file.statements[i]))
    ensures (exists i :: 0 <= i < |file.statements| && EmptyVariableStatement(file.statements[i])) ==>
      PreProcessed(file) == Err(AbsentNode)
    ensures ((forall i :: 0 <= i < |file.statements| ==> !EmptyVariableStatement(file.statements[i]))
        && (exists i :: 0 <= i < |file.statements| && HasNonLiteralImport(file.statements[i])))
      ==> PreProcessed(file) == Err(UnsupportedSyntax(InlineImportMessage))
  {
    Pass1Fails(Initial, file.statements, file.text);
    if Pass1(Initial, file.statements, file.text).Ok? {
      Pass2Fails(Pass1(Initial, file.statements, file.text).value, file.statements, file.text);
    }
  }

  // ---------------------------------------------------------------- failures

  /** A failing prefix makes pass 1 fail with the same error. */
  lemma {:induction false} Pass1PrefixFails(b: Bookkeeping, ss: seq<Stmt>, text: string, k: nat)
    requires k <= |ss| && Pass1(b, ss[..k], text).Err?
    ensures Pass1(b, ss, text) == Err(Pass1(b, ss[..k], text).error)
    decreases |ss| - k
  {
    if k == |ss| {
      assert ss[..k] == ss;
    } else {
      assert ss[..k + 1][..k] == ss[..k];
      Pass1PrefixFails(b, ss, text, k + 1);
    }
  }

  /** A failing prefix makes pass 2 fail with the same error. */
  lemma {:induction false} Pass2PrefixFails(b: Bookkeeping, ss: seq<Stmt>, text: string, k: nat)
    requires k <= |ss| && Pass2(b, ss[..k], text).Err?
    ensures Pass2(b, ss, text) == Err(Pass2(b, ss[..k], text).error)
    decreases |ss| - k
  {
    if k == |ss| {
      assert ss[..k] == ss;
    } else {
      assert ss[..k + 1][..k] == ss[..k];
      Pass2PrefixFails(b, ss, text, k + 1);
    }
  }

  /** A failing prefix makes the inline-import check fail with the same error. */
  lemma {:induction false} InlineImportsPrefixFails(b: Bookkeeping, ts: seq<ImportType>, k: nat)
    requires k <= |ts| && InlineImports(b, ts[..k]).Err?
    ensures InlineImports(b, ts) == Err(InlineImports(b, ts[..k]).error)
    decreases |ts| - k
  {
    if k == |ts| {
      assert ts[..k] == ts;
    } else {
      assert ts[..k + 1][..k] == ts[..k];
      InlineImportsPrefixFails(b, ts, k + 1);
    }
  }

  // ---------------------------------------------------------------- the editing procedures

  /** `fixModifiers(ms, node)`. */
  method FixModifiers(ms: MagicString, n: Node, start: int)
    modifies ms
    ensures ms.calls == old(ms.calls) + FixModifierCalls(n, start)
  {
    var needsDeclare := NeedsDeclare(n);
    var mods := ModifiersOf(n);
    var hasDeclare := ScanModifiers(ms, mods);
    assert hasDeclare == HasModifier(n, DeclareKeyword);
    if needsDeclare && !hasDeclare {
      ms.AppendRight(start, "declare ");
    }
  }

  /** Some modifier before position `k` is `declare`. */
  predicate DeclaredBefore(mods: seq<Modifier>, k: nat)
    requires k <= |mods|
  {
    exists i :: 0 <= i < k && mods[i].kind == DeclareKeyword
  }

  lemma DeclaredBeforeNext(mods: seq<Modifier>, k: nat)
    requires k < |mods|
    ensures DeclaredBefore(mods, k + 1) <==> DeclaredBefore(mods, k) || mods[k].kind == DeclareKeyword
  {
    if DeclaredBefore(mods, k + 1) {
      var i :| 0 <= i < k + 1 && mods[i].kind == DeclareKeyword;
      if i < k {
        assert DeclaredBefore(mods, k);
      }
    }
  }

  /** The loop of `fixModifiers`: removes `export` and `default`, and tells whether `declare` was seen. */
  method ScanModifiers(ms: MagicString, mods: seq<Modifier>) returns (hasDeclare: bool)
    modifies ms
    ensures ms.calls == old(ms.calls) + ModifierRemovals(mods)
    ensures hasDeclare <==> exists i :: 0 <= i < |mods| && mods[i].kind == DeclareKeyword
  {
    hasDeclare := false;
    var k := 0;
    assert mods[..0] == [];
    while k < |mods|
      invariant 0 <= k <= |mods|
      invariant ms.calls == old(ms.calls) + ModifierRemovals(mods[..k])
      invariant hasDeclare == DeclaredBefore(mods, k)
    {
      assert mods[..k + 1][..k] == mods[..k];
      Js.ConcatAssoc(old(ms.calls), ModifierRemovals(mods[..k]), RemovalOf(mods[k]));
      DeclaredBeforeNext(mods, k);
      hasDeclare := ModifierStep(ms, mods[k], hasDeclare, ms.calls);
      k := k + 1;
    }
    assert mods[..k] == mods;
  }

  /** One modifier in the loop of `fixModifiers`: remove `export` and `default`, note `declare`. */
  method ModifierStep(ms: MagicString, mod: Modifier, hasDeclare: bool, ghost base: seq<Call>) returns (h: bool)
    modifies ms
    requires ms.calls == base
    ensures ms.calls == base + RemovalOf(mod)
    ensures h <==> hasDeclare || mod.kind == DeclareKeyword
  {
    h := hasDeclare;
    if mod.kind == ExportKeyword || mod.kind == DefaultKeyword {
      ms.Remove(mod.start, mod.end + 1);
    } else if mod.kind == DeclareKeyword {
      h := true;
    }
  }

  /** `duplicateExports(ms, module)`. */
  method DuplicateExports(ms: MagicString, body: ModuleBody)
    modifies ms
    ensures ms.calls == old(ms.calls) + DuplicateExportCalls(body)
  {
    if !body.Block? {
      return;
    }
    var statements := body.statements;
    var k := 0;
    assert statements[..0] == [];
    while k < |statements|
      invariant 0 <= k <= |statements|
      invariant ms.calls == old(ms.calls) + BlockAliases(statements[..k])
    {
      assert statements[..k + 1][..k] == statements[..k];
      Js.ConcatAssoc(old(ms.calls), BlockAliases(statements[..k]), StatementAliases(statements[k]));
      StatementStep(ms, statements[k], ms.calls);
      k := k + 1;
    }
    assert statements[..k] == statements;
  }

  /** One iteration of `duplicateExports`'s loop: a named export clause gets its aliases. */
  method StatementStep(ms: MagicString, s: Stmt, ghost base: seq<Call>)
    modifies ms
    requires ms.calls == base
    ensures ms.calls == base + StatementAliases(s)
  {
    var node := s.node;
    if node.ExportDeclaration? && node.clause.Some? && node.clause.value.Named? {
      AddAliases(ms, node.clause.value.named.elements);
    } else {
      assert StatementAliases(s) == [];
    }
  }

  /** The inner loop of `duplicateExports` over one export clause. */
  method AddAliases(ms: MagicString, elements: seq<ExportSpecifier>)
    modifies ms
    ensures ms.calls == old(ms.calls) + AliasInsertions(elements)
  {
    var k := 0;
    assert elements[..0] == [];
    while k < |elements|
      invariant 0 <= k <= |elements|
      invariant ms.calls == old(ms.calls) + AliasInsertions(elements[..k])
    {
      assert elements[..k + 1][..k] == elements[..k];
      var decl := elements[k];
      if decl.propertyName.None? {
        ms.AppendLeft(decl.nameEnd, " as " + decl.name);
      }
      k := k + 1;
    }
    assert elements[..k] == elements;
  }

  /** The splitting of a variable statement at its commas. */
  method SplitVariable(ms: MagicString, list: seq<ListItem>, prefix: string, text: string)
    modifies ms
    requires ms.original == text
    ensures ms.calls == old(ms.calls) + Split(list, prefix, text).1
  {
    var commaPos := 0;
    var k := 0;
    assert list[..0] == [];
    while k < |list|
      invariant 0 <= k <= |list| && ms.original == text
      invariant commaPos == Split(list[..k], prefix, text).0
      invariant ms.calls == old(ms.calls) + Split(list[..k], prefix, text).1
    {
      assert list[..k + 1][..k] == list[..k];
      commaPos := SplitStep(ms, list[k], prefix, text, commaPos, old(ms.calls), Split(list[..k], prefix, text));
      k := k + 1;
    }
    assert list[..k] == list;
  }

  /** One child of the declaration list in the splitting loop, on the editor and `commaPos`. */
  method SplitStep(ms: MagicString, item: ListItem, prefix: string, text: string, commaPos: int,
                   ghost base: seq<Call>, ghost state: (int, seq<Call>)) returns (next: int)
    modifies ms
    requires ms.original == text && state.0 == commaPos && ms.calls == base + state.1
    ensures ms.original == text
    ensures next == SplitItem(state, item, prefix, text).0
    ensures ms.calls == base + SplitItem(state, item, prefix, text).1
  {
    next := commaPos;
    match item {
      case CommaToken(sp) =>
        next := sp.start;
        ms.Remove(next, sp.end);
      case DeclaratorItem(sp) =>
        if commaPos != 0 {
          ms.AppendLeft(commaPos, ";\n");
          var start := sp.fullStart;
          var slice := ms.Slice(start, sp.start);
          var whitespace := |slice| - |Js.TrimStart(slice)|;
          if whitespace != 0 {
            ms.Overwrite(start, start + whitespace, prefix);
          } else {
            ms.AppendLeft(start, prefix);
          }
        }
    }
  }

  /** The removal of the reference directives, returning the set of their file names. */
  method RemoveDirectives(ms: MagicString, ds: seq<Directive>, text: string) returns (names: seq<string>)
    modifies ms
    requires ms.original == text
    ensures names == DirectiveNames(ds)
    ensures ms.calls == old(ms.calls) + DirectiveCalls(ds, text)
  {
    names := [];
    var k := 0;
    assert ds[..0] == [];
    while k < |ds|
      invariant 0 <= k <= |ds|
      invariant names == DirectiveNames(ds[..k])
      invariant ms.calls == old(ms.calls) + DirectiveCalls(ds[..k], text)
    {
      assert ds[..k + 1][..k] == ds[..k];
      Js.ConcatAssoc(old(ms.calls), DirectiveCalls(ds[..k], text), [DirectiveRemoval(ds[k], text)]);
      names := DirectiveStep(ms, ds[k], text, names, ms.calls);
      k := k + 1;
    }
    assert ds[..k] == ds;
  }

  /** One directive in the loop of `removeDirectives`: note its file name and remove its line. */
  method DirectiveStep(ms: MagicString, d: Directive, text: string, names: seq<string>, ghost base: seq<Call>)
    returns (next: seq<string>)
    modifies ms
    requires ms.original == text && ms.calls == base
    ensures ms.original == text
    ensures next == Js.SetAdd(names, d.fileName)
    ensures ms.calls == base + [DirectiveRemoval(d, text)]
  {
    next := Js.SetAdd(names, d.fileName);
    var end := d.lineEnd;
    if ms.Slice(end, end + 1) == "\n" {
      end := end + 1;
    }
    ms.Remove(d.lineStart, end);
  }

  // ---------------------------------------------------------------- the preprocessor

  /** The state `preProcess` keeps while it works through one file. */
  class PreProcessor {
    /** The file's full text. */
    const text: string
    /** `new MagicString(text)`. */
    const ms: MagicString
    var declaredNames: seq<string>
    var exportedNames: seq<string>
    var defaultExport: string
    var inlineKeys: seq<string>
    var inlineImports: map<string, string>
    var rangeNames: seq<string>
    var nameRanges: map<string, seq<Range>>

    /** The fields and the editor's calls, as one value. */
    function State(): Bookkeeping
      reads this, ms
    {
      Bookkeeping(declaredNames, exportedNames, defaultExport, inlineKeys, inlineImports, rangeNames, nameRanges, ms.calls)
    }

    constructor (text: string)
      ensures this.text == text && ms.original == text && State() == Initial && fresh(ms)
    {
      this.text := text;
      ms := new MagicString(text);
      declaredNames := [];
      exportedNames := [];
      defaultExport := "";
      inlineKeys := [];
      inlineImports := map[];
      rangeNames := [];
      nameRanges := map[];
    }

    /** `uniqName(hint)`. */
    method ClaimName(hint: string) returns (name: string)
      modifies this
      ensures (State(), name) == UniqName(old(State()), hint)
    {
      name := hint;
      while name in declaredNames
        invariant UniqueName(declaredNames, name) == UniqueName(declaredNames, hint)
        decreases MaxLength(declaredNames) + 1 - |name|
      {
        name := "_" + name;
      }
      declaredNames := declaredNames + [name];
    }

    /** `createNamespaceImport(fileId)`. */
    method CreateNamespaceImport(fileId: string) returns (importName: string)
      modifies this
      ensures (State(), importName) == NamespaceImport(old(State()), fileId)
    {
      importName := if fileId in inlineImports then inlineImports[fileId] else "";
      if importName == "" {
        var known := fileId in inlineImports;
        importName := ClaimName(Sanitized(fileId));
        if !known {
          inlineKeys := inlineKeys + [fileId];
        }
        inlineImports := inlineImports[fileId := importName];
      }
    }

    /** `pushNamedNode(name, range)`; a listed name always has a range (see `Valid`). */
    method PushNamedNode(name: string, range: Range)
      modifies this
      ensures State() == PushNamed(old(State()), name, range)
    {
      if name in nameRanges && |nameRanges[name]| > 0 {
        var nodes := nameRanges[name];
        var last := nodes[|nodes| - 1];
        if last.1 == range.0 {
          nodes := nodes[..|nodes| - 1] + [(last.0, range.1)];
        } else {
          nodes := nodes + [range];
        }
        nameRanges := nameRanges[name := nodes];
      } else {
        if name !in nameRanges {
          rangeNames := rangeNames + [name];
        }
        nameRanges := nameRanges[name := [range]];
      }
    }

    /** Pass 1 on one statement. */
    method Pass1Statement(s: Stmt) returns (r: Result<()>)
      modifies this, ms
      requires ms.original == text
      ensures ms.original == text
      ensures match Pass1Step(old(State()), s, text)
        case Ok(b) => r == Ok(()) && State() == b
        case Err(e) => r == Err(e)
    {
      match s.node {
        case EmptyStatement =>
          ms.Remove(s.span.start, s.span.end);
        case Declaration(kind, name, _, _, globalAugmentation, body, _) =>
          Pass1Declaration(s, name, globalAugmentation);
          if kind == ModuleDecl {
            DuplicateExports(ms, body);
          }
          FixModifiers(ms, s.node, s.span.start);
        case VariableStatement(keyword, decls, list, _) =>
          r := Pass1Variable(s, keyword, decls, list);
          return;
        case _ =>
      }
      r := Ok(());
    }

    /** The names and the range pass 1 records for a declaration. */
    method Pass1Declaration(s: Stmt, name: Option<Name>, globalAugmentation: bool)
      modifies this
      ensures State() == if name.Some? then DeclareNamed(old(State()), s.node, name.value.text, text, s.span, globalAugmentation) else old(State())
    {
      if name.None? {
        return;
      }
      var n := name.value.text;
      declaredNames := Js.SetAdd(declaredNames, n);
      if IsExportDefault(s.node) {
        defaultExport := n;
      } else if IsExport(s.node) {
        exportedNames := Js.SetAdd(exportedNames, n);
      }
      if !globalAugmentation {
        PushNamedNode(n, (GetStart(text, s.span), GetEnd(text, s.span)));
      }
    }

    /** Pass 1 on a variable statement. */
    method Pass1Variable(s: Stmt, keyword: VarKeyword, decls: seq<VarDecl>, list: seq<ListItem>) returns (r: Result<()>)
      modifies this, ms
      requires ms.original == text
      requires s.node.VariableStatement? && s.node.varKeyword == keyword && s.node.declarations == decls && s.node.list == list
      ensures ms.original == text
      ensures match Pass1Step(old(State()), s, text)
        case Ok(b) => r == Ok(()) && State() == b
        case Err(e) => r == Err(e)
    {
      DeclareVariableNames(decls, IsExport(s.node));
      FixModifiers(ms, s.node, s.span.start);
      r := PushVariableRanges(s.span, decls);
      if r.Err? {
        return;
      }
      SplitVariable(ms, list, VarPrefix(keyword), text);
    }

    /** The ranges of a variable statement's declarators: one for the whole statement, or one per declarator. */
    method PushVariableRanges(span: Span, decls: seq<VarDecl>) returns (r: Result<()>)
      modifies this
      ensures match VariableRanges(old(State()), text, span, decls)
        case Ok(b) => r == Ok(()) && State() == b
        case Err(e) => r == Err(e)
    {
      if |decls| == 1 {
        if decls[0].name.isIdentifier {
          PushNamedNode(decls[0].name.text, (GetStart(text, span), GetEnd(text, span)));
        }
      } else {
        if |decls| == 0 {
          return Err(AbsentNode);
        }
        var first := decls[0];
        PushNamedNode(first.name.text, (GetStart(text, span), first.span.end));
        PushRestRanges(decls[1..]);
      }
      r := Ok(());
    }

    /** The loop collecting a variable statement's names. */
    method DeclareVariableNames(decls: seq<VarDecl>, isExport: bool)
      modifies this
      ensures State() == DeclareVariables(old(State()), decls, isExport)
    {
      var k := 0;
      assert decls[..0] == [];
      while k < |decls|
        invariant 0 <= k <= |decls|
        invariant State() == DeclareVariables(old(State()), decls[..k], isExport)
      {
        assert decls[..k + 1][..k] == decls[..k];
        var decl := decls[k];
        if decl.name.isIdentifier {
          declaredNames := Js.SetAdd(declaredNames, decl.name.text);
          if isExport {
            exportedNames := Js.SetAdd(exportedNames, decl.name.text);
          }
        }
        k := k + 1;
      }
      assert decls[..k] == decls;
    }

    /** The loop pushing the ranges of the declarators after the first. */
    method PushRestRanges(decls: seq<VarDecl>)
      modifies this
      ensures State() == RestRanges(old(State()), decls)
    {
      var k := 0;
      assert decls[..0] == [];
      while k < |decls|
        invariant 0 <= k <= |decls|
        invariant State() == RestRanges(old(State()), decls[..k])
      {
        assert decls[..k + 1][..k] == decls[..k];
        var decl := decls[k];
        if decl.name.isIdentifier {
          PushNamedNode(decl.name.text, (decl.span.fullStart, decl.span.end));
        }
        k := k + 1;
      }
      assert decls[..k] == decls;
    }

    /** `checkInlineImport(node)` over a statement's inline import types. */
    method CheckInlineImport(ts: seq<ImportType>) returns (r: Result<()>)
      modifies this, ms
      ensures match InlineImports(old(State()), ts)
        case Ok(b) => r == Ok(()) && State() == b
        case Err(e) => r == Err(e)
    {
      var k := 0;
      assert ts[..0] == [];
      while k < |ts|
        invariant 0 <= k <= |ts|
        invariant InlineImports(old(State()), ts[..k]) == Ok(State())
      {
        assert ts[..k + 1][..k] == ts[..k];
        var t := ts[k];
        if t.argument.OtherArgument? {
          InlineImportsPrefixFails(old(State()), ts, k + 1);
          return Err(UnsupportedSyntax(InlineImportMessage));
        }
        var fileId := t.argument.text;
        var start := t.importStart;
        var end := t.end;
        if t.qualifierStart.Some? {
          end := t.qualifierStart.value;
        }
        var importName := CreateNamespaceImport(fileId);
        ms.Overwrite(start, end, importName);
        k := k + 1;
      }
      assert ts[..k] == ts;
      r := Ok(());
    }

    /** Pass 2 on one statement. */
    method Pass2Statement(s: Stmt) returns (r: Result<()>)
      modifies this, ms
      requires ms.original == text
      ensures ms.original == text
      ensures match Pass2Step(old(State()), s, text)
        case Ok(b) => r == Ok(()) && State() == b
        case Err(e) => r == Err(e)
    {
      r := CheckInlineImport(s.importTypes);
      if r.Err? || !NamelessDefault(s.node) {
        return;
      }
      if defaultExport == "" {
        var name := ClaimName("export_default");
        defaultExport := name;
      }
      var token := s.node.keyword;
      if token.nextIsPunctuation {
        var addSpace := ms.Slice(token.end, token.nextStart) != " ";
        ms.AppendLeft(token.nextStart, (if addSpace then " " else "") + defaultExport);
      } else {
        ms.AppendRight(token.end, " " + defaultExport);
      }
    }

    /** The first loop of `preProcess`, over the file's top-level statements. */
    method RunPass1(ss: seq<Stmt>) returns (r: Result<()>)
      modifies this, ms
      requires ms.original == text
      ensures ms.original == text
      ensures match Pass1(old(State()), ss, text)
        case Ok(b) => r == Ok(()) && State() == b
        case Err(e) => r == Err(e)
    {
      ghost var start := State();
      var k := 0;
      assert ss[..0] == [];
      while k < |ss|
        invariant 0 <= k <= |ss|
        invariant ms.original == text
        invariant Pass1(start, ss[..k], text) == Ok(State())
      {
        assert ss[..k + 1][..k] == ss[..k];
        var step := Pass1Statement(ss[k]);
        if step.Err? {
          Pass1PrefixFails(start, ss, text, k + 1);
          return Err(step.error);
        }
        k := k + 1;
      }
      assert ss[..k] == ss;
      r := Ok(());
    }

    /** The second loop of `preProcess`, over the same statements. */
    method RunPass2(ss: seq<Stmt>) returns (r: Result<()>)
      modifies this, ms
      requires ms.original == text
      ensures ms.original == text
      ensures match Pass2(old(State()), ss, text)
        case Ok(b) => r == Ok(()) && State() == b
        case Err(e) => r == Err(e)
    {
      ghost var start := State();
      var k := 0;
      assert ss[..0] == [];
      while k < |ss|
        invariant 0 <= k <= |ss|
        invariant ms.original == text
        invariant Pass2(start, ss[..k], text) == Ok(State())
      {
        assert ss[..k + 1][..k] == ss[..k];
        var step := Pass2Statement(ss[k]);
        if step.Err? {
          Pass2PrefixFails(start, ss, text, k + 1);
          return Err(step.error);
        }
        k := k + 1;
      }
      assert ss[..k] == ss;
      r := Ok(());
    }

    /** The reordering: every range of a name but the last is moved to the start of the last. */
    method Reorder()
      modifies ms
      ensures ms.calls == old(ms.calls) + ReorderCalls(rangeNames, nameRanges)
    {
      var k := 0;
      assert rangeNames[..0] == [];
      while k < |rangeNames|
        invariant 0 <= k <= |rangeNames|
        invariant ms.calls == old(ms.calls) + ReorderCalls(rangeNames[..k], nameRanges)
      {
        assert rangeNames[..k + 1][..k] == rangeNames[..k];
        var name := rangeNames[k];
        if name in nameRanges {
          MoveRanges(ms, nameRanges[name]);
        }
        k := k + 1;
      }
      assert rangeNames[..k] == rangeNames;
    }

    /** The export statements appended and the inline imports prepended. */
    method RenderExports()
      modifies ms
      ensures ms.calls == old(ms.calls) + ExportAppends(defaultExport, exportedNames) + ImportPrepends(inlineKeys, inlineImports)
    {
      if defaultExport != "" {
        ms.Append("\nexport default " + defaultExport + ";\n");
      }
      if |exportedNames| > 0 {
        ms.Append("\nexport { " + Js.Join(exportedNames, ", ") + " };\n");
      }
      ghost var rendered := ms.calls;
      var k := 0;
      assert inlineKeys[..0] == [];
      while k < |inlineKeys|
        invariant 0 <= k <= |inlineKeys|
        invariant ms.calls == rendered + ImportPrepends(inlineKeys[..k], inlineImports)
      {
        assert inlineKeys[..k + 1][..k] == inlineKeys[..k];
        var fileId := inlineKeys[k];
        if fileId in inlineImports {
          ms.Prepend("import * as " + inlineImports[fileId] + " from \"" + fileId + "\";\n");
        }
        k := k + 1;
      }
      assert inlineKeys[..k] == inlineKeys;
    }
  }

  /** The moves for one name's ranges. */
  method MoveRanges(ms: MagicString, ranges: seq<Range>)
    modifies ms
    ensures ms.calls == old(ms.calls) + MovesFor(ranges)
  {
    if |ranges| == 0 {
      return;
    }
    var start := ranges[|ranges| - 1].0;
    var k := 0;
    while k < |ranges| - 1
      invariant 0 <= k <= |ranges| - 1
      invariant ms.calls == old(ms.calls) + MovesFor(ranges)[..k]
    {
      assert MovesFor(ranges)[..k + 1] == MovesFor(ranges)[..k] + [Move(ranges[k].0, ranges[k].1, start)];
      ms.Move(ranges[k].0, ranges[k].1, start);
      k := k + 1;
    }
    assert MovesFor(ranges)[..k] == MovesFor(ranges);
  }

  /** `preProcess`, with the file parsed and without a source map. */
  method PreProcessFile(file: SourceFile) returns (r: Result<Output>)
    ensures r == PreProcessed(file)
  {
    var p := new PreProcessor(file.text);
    var step := p.RunPass1(file.statements);
    if step.Err? {
      return Err(step.error);
    }
    ghost var afterPass1 := p.State();
    step := p.RunPass2(file.statements);
    if step.Err? {
      return Err(step.error);
    }
    p.Reorder();
    p.RenderExports();
    var typeReferences := RemoveDirectives(p.ms, file.typeReferenceDirectives, file.text);
    var fileReferences := RemoveDirectives(p.ms, file.referencedFiles, file.text);
    r := Ok(Output(p.ms.calls, typeReferences, fileReferences));
  }
}
