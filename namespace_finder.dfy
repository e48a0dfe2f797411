/**
 * `NamespaceFinder`: after bundling, turn what the bundler emitted for
 * `export * as ns` (a frozen object literal) into a TypeScript namespace,
 * and collect the other fixes the chunk needs (stray empty statements,
 * `.d.ts` import specifiers, redundant `X as X` elements), each as a range
 * and its replacement.
 */
module NamespaceFinder {
  import Js
  import opened Wrappers
  import opened Ast
  import opened Edits

  datatype Export = Export(exportedName: string, localName: string)

  datatype ItemType = ClassItem | FunctionItem | InterfaceItem | TypeItem | NamespaceItem | EnumItem | VarItem

  /** What `itemTypes` records for a declared name: its kind and, for classes, interfaces and types, its type parameters. */
  datatype Item = Item(itemType: ItemType, generics: Option<seq<TypeParam>>)

  /** A range to replace: a namespace to render when `name` is set, plus text to put after it. */
  datatype Namespace = Namespace(name: string, exports: seq<Export>, location: Location, textBeforeCodeAfter: Option<string>)

  /** The callee text that marks the bundler's namespace objects. */
  const FreezeCall := "/*#__PURE__*/Object.freeze"

  /** A record that only deletes its range. */
  function Deletion(start: int, end: int): Namespace
  {
    Namespace("", [], Location(start, end), None)
  }

  /** `s.replace(/<suffix>$/, by)`. */
  function ReplaceSuffix(s: string, suffix: string, replacement: string): string
  {
    if Js.EndsWith(s, suffix) then s[..|s| - |suffix|] + replacement else s
  }

  /** The specifier rewrite `.d.ts` to `.js`, `.d.cts` to `.cjs`, `.d.mts` to `.mjs`. */
  function JsSpecifier(text: string): string
  {
    ReplaceSuffix(ReplaceSuffix(ReplaceSuffix(text, ".d.ts", ".js"), ".d.cts", ".cjs"), ".d.mts", ".mjs")
  }

  /** Exactly one of the three suffixes is replaced: the one the specifier ends with. */
  lemma JsSpecifierSuffix(text: string)
    ensures Js.EndsWith(text, ".d.ts") ==> JsSpecifier(text) == text[..|text| - 5] + ".js"
    ensures Js.EndsWith(text, ".d.cts") ==> JsSpecifier(text) == text[..|text| - 6] + ".cjs"
    ensures Js.EndsWith(text, ".d.mts") ==> JsSpecifier(text) == text[..|text| - 6] + ".mjs"
    ensures !Js.EndsWithAny(text, [".d.ts", ".d.cts", ".d.mts"]) ==> JsSpecifier(text) == text
  {
    var suffixes := [".d.ts", ".d.cts", ".d.mts"];
    var n := |text|;
    if Js.EndsWith(text, ".d.ts") {
      assert Js.EndsWith(text, suffixes[0]);
      assert text[n - 5..][2] == text[n - 3];
      NotSuffix(text, ".d.cts", 3);
      NotSuffix(text, ".d.mts", 3);
      var r := text[..n - 5] + ".js";
      assert r[|r| - 3] == '.';
      NotSuffix(r, ".d.cts", 3);
      NotSuffix(r, ".d.mts", 3);
    } else if Js.EndsWith(text, ".d.cts") {
      assert Js.EndsWith(text, suffixes[1]);
      assert text[n - 6..][3] == text[n - 3];
      NotSuffix(text, ".d.mts", 3);
      assert ReplaceSuffix(text, ".d.ts", ".js") == text;
      var r := text[..n - 6] + ".cjs";
      assert ReplaceSuffix(text, ".d.cts", ".cjs") == r;
      assert r[|r| - 3] == 'c';
      NotSuffix(r, ".d.mts", 3);
    } else if Js.EndsWith(text, ".d.mts") {
      assert Js.EndsWith(text, suffixes[2]);
    } else {
      assert !Js.EndsWith(text, suffixes[0]);
      assert !Js.EndsWith(text, suffixes[1]);
      assert !Js.EndsWith(text, suffixes[2]);
    }
  }

  /** A text whose character differs from the suffix's at one place does not end with it. */
  lemma NotSuffix(s: string, suffix: string, j: int)
    requires 0 <= j < |suffix|
    requires |suffix| > |s| || s[|s| - |suffix| + j] != suffix[j]
    ensures !Js.EndsWith(s, suffix)
  {
    if |suffix| <= |s| {
      assert s[|s| - |suffix|..][j] == s[|s| - |suffix| + j];
    }
  }

  /** A relative specifier naming a declaration file. */
  predicate IsRelativeDts(text: string)
  {
    Js.StartsWith(text, ".") && Js.EndsWithAny(text, [".d.ts", ".d.cts", ".d.mts"])
  }

  /** The module specifier of an import or export declaration, if it has one. */
  function ModuleSpecifier(n: Node): Option<Specifier>
  {
    if n.ImportDeclaration? then Some(n.importSpecifier)
    else if n.ExportDeclaration? then n.exportSpecifier
    else None
  }

  /** The record for a `.d.ts` specifier of an import or export: the text between the quotes becomes the `.js` name. */
  function SpecifierRecords(n: Node): seq<Namespace>
  {
    var spec := ModuleSpecifier(n);
    if spec.Some? && spec.value.StringSpecifier? && IsRelativeDts(spec.value.text) then
      [Namespace("", [], Location(spec.value.span.start + 1, spec.value.span.end - 1), Some(JsSpecifier(spec.value.text)))]
    else []
  }

  /** A deletion from the end of the property name to the end of the name for each `X as X` element. */
  function RedundantAliases(es: seq<ExportSpecifier>): seq<Namespace>
    decreases |es|
  {
    if |es| == 0 then []
    else
      var e := es[|es| - 1];
      RedundantAliases(es[..|es| - 1])
        + (if e.propertyName.Some? && e.propertyName.value == e.name then [Deletion(e.propertyEnd, e.nameEnd)] else [])
  }

  /** The redundant-alias deletions of a module block's `export { … }` statements. */
  function RedundantInBlock(ss: seq<Stmt>): seq<Namespace>
    decreases |ss|
  {
    if |ss| == 0 then []
    else
      var n := ss[|ss| - 1].node;
      RedundantInBlock(ss[..|ss| - 1])
        + (if n.ExportDeclaration? && n.clause.Some? && n.clause.value.Named? then RedundantAliases(n.clause.value.named.elements) else [])
  }

  /** The `itemTypes` entry a statement writes; `name!` on a nameless class or function fails. */
  function ItemOf(n: Node): Result<Option<(string, Item)>>
  {
    match n
    case Declaration(kind, name, _, typeParams, _, _, _) =>
      (match kind
      case ModuleDecl => if name.Some? && name.value.isIdentifier then Ok(Some((name.value.text, Item(NamespaceItem, None)))) else Ok(None)
      case ClassDecl => NamedItem(name, Item(ClassItem, typeParams))
      case FunctionDecl => NamedItem(name, Item(FunctionItem, None))
      case InterfaceDecl => NamedItem(name, Item(InterfaceItem, typeParams))
      case TypeAliasDecl => NamedItem(name, Item(TypeItem, typeParams))
      case EnumDecl => NamedItem(name, Item(EnumItem, None)))
    case _ => Ok(None)
  }

  function NamedItem(name: Option<Name>, item: Item): Result<Option<(string, Item)>>
  {
    if name.None? then Err(AbsentNode) else Ok(Some((name.value.text, item)))
  }

  /**
   * The members of a frozen object literal: `__proto__` is skipped, every
   * other member must be `name: identifier` or `"name": identifier`.
   */
  function FrozenExports(ps: seq<Property>): Result<seq<Export>>
    decreases |ps|
  {
    if |ps| == 0 then Ok([])
    else
      var prev :- FrozenExports(ps[..|ps| - 1]);
      var p := ps[|ps| - 1];
      if !p.Assignment? || p.key.ComputedKey? || (p.key.text != "__proto__" && p.identifierValue.None?) then
        Err(UnsupportedSyntax("Expected a property assignment"))
      else if p.key.text == "__proto__" then Ok(prev)
      else Ok(prev + [Export(p.key.text, p.identifierValue.value)])
  }

  /** What one statement yields: records in the order they are produced, and the item type it records. */
  datatype StmtFindings = StmtFindings(records: seq<Namespace>, item: Option<(string, Item)>)

  /**
   * A variable statement with one declarator: a `var` item unless it is
   * initialised by a call; a namespace record when that call is the
   * bundler's `Object.freeze` of an object literal.
   */
  function VariableFindings(loc: Location, decls: seq<VarDecl>): Result<StmtFindings>
  {
    if |decls| != 1 then Ok(StmtFindings([], None))
    else
      var d := decls[0];
      match d.initializer
      case CallInit(callee, args) =>
        if !Js.Contains(callee, FreezeCall) then Ok(StmtFindings([], None))
        else if |args| == 0 then Err(AbsentNode)
        else if !args[0].ObjectLiteral? then Ok(StmtFindings([], None))
        else
          var exports :- FrozenExports(args[0].properties);
          Ok(StmtFindings([Namespace(d.name.text, exports, loc, None)], None))
      case _ => Ok(StmtFindings([], Some((d.name.text, Item(VarItem, None)))))
  }

  /** One statement of the loop of `findNamespaces`. */
  function StmtFind(s: Stmt): Result<StmtFindings>
  {
    var loc := Location(s.span.start, s.span.end);
    match s.node
    case EmptyStatement => Ok(StmtFindings([Deletion(loc.start, loc.end)], None))
    case VariableStatement(_, decls, _, _) => VariableFindings(loc, decls)
    case Declaration(kind, _, _, _, _, body, _) =>
      var redundant := if kind == ModuleDecl && body.Block? then RedundantInBlock(body.statements) else [];
      var item :- ItemOf(s.node);
      Ok(StmtFindings(redundant, item))
    case _ => Ok(StmtFindings(SpecifierRecords(s.node), None))
  }

  function WithItem(m: map<string, Item>, item: Option<(string, Item)>): map<string, Item>
  {
    if item.Some? then m[item.value.0 := item.value.1] else m
  }

  /** The records of all statements in production order, and `itemTypes`. */
  datatype Findings = Findings(produced: seq<Namespace>, items: map<string, Item>)

  function Found(ss: seq<Stmt>): Result<Findings>
    decreases |ss|
  {
    if |ss| == 0 then Ok(Findings([], map[]))
    else
      var prev :- Found(ss[..|ss| - 1]);
      var f :- StmtFind(ss[|ss| - 1]);
      Ok(Findings(prev.produced + f.records, WithItem(prev.items, f.item)))
  }

  /** A failing prefix makes the whole pass fail with the same error. */
  lemma {:induction false} FoundPrefixFails(ss: seq<Stmt>, k: nat)
    requires k <= |ss| && Found(ss[..k]).Err?
    ensures Found(ss) == Err(Found(ss[..k]).error)
    decreases |ss| - k
  {
    if k == |ss| {
      assert ss[..k] == ss;
    } else {
      assert ss[..k + 1][..k] == ss[..k];
      FoundPrefixFails(ss, k + 1);
    }
  }

  /** The ranges of a list of records. */
  function Locations(nss: seq<Namespace>): (r: seq<Location>)
    ensures |r| == |nss| && forall i :: 0 <= i < |nss| ==> r[i] == nss[i].location
  {
    seq(|nss|, i requires 0 <= i < |nss| => nss[i].location)
  }

  lemma LocationsAppend(a: seq<Namespace>, b: seq<Namespace>)
    ensures Locations(a + b) == Locations(a) + Locations(b)
  {
  }

  /** The `X as X` deletions of a well-formed clause lie in order inside it. */
  lemma {:induction false} AliasesIn(es: seq<ExportSpecifier>, from: int, to: int)
    requires ElementsParsed(es, from, to)
    ensures LocationsIn(Locations(RedundantAliases(es)), from, to)
    decreases |es|
  {
    if |es| > 0 {
      var e := es[|es| - 1];
      var prev := RedundantAliases(es[..|es| - 1]);
      AliasesIn(es[..|es| - 1], from, ElementFrom(e));
      if e.propertyName.Some? && e.propertyName.value == e.name {
        LocationsAppend(prev, [Deletion(e.propertyEnd, e.nameEnd)]);
        LocationsConcat(Locations(prev), [Location(e.propertyEnd, e.nameEnd)], from, ElementFrom(e), to);
      } else {
        LocationsWiden(Locations(prev), from, ElementFrom(e), from, to);
      }
    }
  }

  /** The deletions of a well-formed module block lie in order inside it. */
  lemma {:induction false} RedundantIn(ss: seq<Stmt>, from: int, to: int)
    requires StmtsParsed(ss, from, to)
    ensures LocationsIn(Locations(RedundantInBlock(ss)), from, to)
    decreases |ss|
  {
    if |ss| > 0 {
      var s := ss[|ss| - 1];
      var prev := RedundantInBlock(ss[..|ss| - 1]);
      RedundantIn(ss[..|ss| - 1], from, s.span.fullStart);
      var n := s.node;
      if n.ExportDeclaration? && n.clause.Some? && n.clause.value.Named? {
        var named := n.clause.value.named;
        AliasesIn(named.elements, named.span.start, named.span.end);
        var mine := RedundantAliases(named.elements);
        LocationsWiden(Locations(mine), named.span.start, named.span.end, s.span.fullStart, to);
        LocationsAppend(prev, mine);
        LocationsConcat(Locations(prev), Locations(mine), from, s.span.fullStart, to);
      } else {
        LocationsWiden(Locations(prev), from, s.span.fullStart, from, to);
      }
    }
  }

  /** A variable statement's record, if any, is the statement's own range. */
  lemma VariableFindingsAt(loc: Location, decls: seq<VarDecl>)
    requires VariableFindings(loc, decls).Ok?
    ensures VariableFindings(loc, decls).value.records == []
      || Locations(VariableFindings(loc, decls).value.records) == [loc]
  {
  }

  /** The records of a well-formed statement lie in order inside it. */
  lemma StmtRecordsIn(s: Stmt)
    requires StmtParsed(s) && s.span.start <= s.span.end && StmtFind(s).Ok?
    ensures LocationsIn(Locations(StmtFind(s).value.records), s.span.start, s.span.end)
  {
    var loc := Location(s.span.start, s.span.end);
    match s.node
    case EmptyStatement =>
      assert Locations(StmtFind(s).value.records) == [loc];
    case VariableStatement(_, decls, _, _) =>
      VariableFindingsAt(loc, decls);
    case Declaration(kind, _, _, _, _, body, _) =>
      if kind == ModuleDecl && body.Block? {
        RedundantIn(body.statements, s.span.start, s.span.end);
      }
    case _ =>
  }

  /**
   * For statements as a parser gives them, the records of the pass lie in
   * order inside the text, none overlapping a later one, in the order they
   * are produced.
   */
  lemma {:induction false} FoundIn(ss: seq<Stmt>, from: int, to: int)
    requires StmtsParsed(ss, from, to) && Found(ss).Ok?
    ensures LocationsIn(Locations(Found(ss).value.produced), from, to)
    decreases |ss|
  {
    if |ss| > 0 {
      var s := ss[|ss| - 1];
      var prev := Found(ss[..|ss| - 1]).value.produced;
      var mine := StmtFind(s).value.records;
      FoundIn(ss[..|ss| - 1], from, s.span.fullStart);
      StmtRecordsIn(s);
      LocationsWiden(Locations(mine), s.span.start, s.span.end, s.span.fullStart, to);
      LocationsAppend(prev, mine);
      LocationsConcat(Locations(prev), Locations(mine), from, s.span.fullStart, to);
    }
  }

  /**
   * For statements as a parser gives them, the list `findNamespaces` builds
   * runs backwards through the text: every record ends before the start of
   * each record ahead of it in the list, and all lie inside the text.
   */
  lemma FoundDescending(ss: seq<Stmt>, from: int, to: int)
    requires StmtsParsed(ss, from, to) && Found(ss).Ok?
    ensures var nss := Reverse(Found(ss).value.produced);
      && (forall i :: 0 <= i < |nss| ==> from <= nss[i].location.start <= nss[i].location.end <= to)
      && (forall i, j :: 0 <= i < j < |nss| ==> nss[j].location.end <= nss[i].location.start)
  {
    var p := Found(ss).value.produced;
    FoundIn(ss, from, to);
    var ls := Locations(p);
    forall i, j | 0 <= i < j < |p|
      ensures Reverse(p)[j].location.end <= Reverse(p)[i].location.start
    {
      assert ls[|p| - 1 - j].end <= ls[|p| - 1 - i].start;
    }
  }

  /**
   * `findNamespaces()`: every record is put at the front of the list, so the
   * list comes out in the reverse of the order the records were found.
   */
  method FindNamespaces(statements: seq<Stmt>) returns (r: Result<(seq<Namespace>, map<string, Item>)>)
    ensures Found(statements).Err? ==> r == Err(Found(statements).error)
    ensures Found(statements).Ok? ==>
      r == Ok((Reverse(Found(statements).value.produced), Found(statements).value.items))
  {
    var namespaces: seq<Namespace> := [];
    var itemTypes: map<string, Item> := map[];
    ghost var produced: seq<Namespace> := [];
    var k := 0;
    assert statements[..0] == [];
    while k < |statements|
      invariant 0 <= k <= |statements|
      invariant Found(statements[..k]) == Ok(Findings(produced, itemTypes))
      invariant namespaces == Reverse(produced)
    {
      assert statements[..k + 1][..k] == statements[..k];
      var f := FindInStatement(statements[k]);
      if f.Err? {
        FoundPrefixFails(statements, k + 1);
        return Err(f.error);
      }
      namespaces := Unshift(namespaces, f.value.records, produced);
      produced := produced + f.value.records;
      itemTypes := WithItem(itemTypes, f.value.item);
      k := k + 1;
    }
    assert statements[..k] == statements;
    r := Ok((namespaces, itemTypes));
  }

  /** `namespaces.unshift(record)` for each record in turn. */
  method Unshift(namespaces: seq<Namespace>, records: seq<Namespace>, ghost done: seq<Namespace>) returns (r: seq<Namespace>)
    requires namespaces == Reverse(done)
    ensures r == Reverse(done + records)
  {
    r := namespaces;
    var i := 0;
    while i < |records|
      invariant 0 <= i <= |records|
      invariant r == Reverse(done + records[..i])
    {
      ReverseSnoc(done + records[..i], records[i]);
      assert records[..i + 1] == records[..i] + [records[i]];
      Js.ConcatAssoc(done, records[..i], [records[i]]);
      r := [records[i]] + r;
      i := i + 1;
    }
    assert records[..i] == records;
  }

  /** The body of the statement loop, including its inner loops over module blocks and object members. */
  method FindInStatement(s: Stmt) returns (r: Result<StmtFindings>)
    ensures r == StmtFind(s)
  {
    var loc := Location(s.span.start, s.span.end);
    match s.node {
      case EmptyStatement =>
        return Ok(StmtFindings([Deletion(loc.start, loc.end)], None));
      case VariableStatement(_, decls, _, _) =>
        if |decls| != 1 {
          return Ok(StmtFindings([], None));
        }
        var d := decls[0];
        if !d.initializer.CallInit? {
          return Ok(StmtFindings([], Some((d.name.text, Item(VarItem, None)))));
        }
        if !Js.Contains(d.initializer.calleeText, FreezeCall) {
          return Ok(StmtFindings([], None));
        }
        if |d.initializer.arguments| == 0 {
          return Err(AbsentNode);
        }
        var obj := d.initializer.arguments[0];
        if !obj.ObjectLiteral? {
          return Ok(StmtFindings([], None));
        }
        var exports := CollectFrozen(obj.properties);
        if exports.Err? {
          return Err(exports.error);
        }
        return Ok(StmtFindings([Namespace(d.name.text, exports.value, loc, None)], None));
      case Declaration(kind, _, _, _, _, body, _) =>
        var records := [];
        if kind == ModuleDecl && body.Block? {
          records := RedundantRecords(body.statements);
        }
        var item := ItemOf(s.node);
        if item.Err? {
          return Err(item.error);
        }
        return Ok(StmtFindings(records, item.value));
      case _ =>
        return Ok(StmtFindings(SpecifierRecords(s.node), None));
    }
  }

  /** The loop over a module block's statements and their export elements. */
  method RedundantRecords(ss: seq<Stmt>) returns (rs: seq<Namespace>)
    ensures rs == RedundantInBlock(ss)
  {
    rs := [];
    var k := 0;
    while k < |ss|
      invariant 0 <= k <= |ss|
      invariant rs == RedundantInBlock(ss[..k])
    {
      assert ss[..k + 1][..k] == ss[..k];
      var n := ss[k].node;
      if n.ExportDeclaration? && n.clause.Some? && n.clause.value.Named? {
        var es := n.clause.value.named.elements;
        var i := 0;
        ghost var before := rs;
        while i < |es|
          invariant 0 <= i <= |es|
          invariant rs == before + RedundantAliases(es[..i])
        {
          assert es[..i + 1][..i] == es[..i];
          if es[i].propertyName.Some? && es[i].propertyName.value == es[i].name {
            rs := rs + [Deletion(es[i].propertyEnd, es[i].nameEnd)];
          }
          i := i + 1;
        }
        assert es[..i] == es;
      }
      k := k + 1;
    }
    assert ss[..k] == ss;
  }

  /** The loop over the frozen object's members. */
  method CollectFrozen(ps: seq<Property>) returns (r: Result<seq<Export>>)
    ensures r == FrozenExports(ps)
  {
    var exports: seq<Export> := [];
    var k := 0;
    while k < |ps|
      invariant 0 <= k <= |ps|
      invariant FrozenExports(ps[..k]) == Ok(exports)
    {
      assert ps[..k + 1][..k] == ps[..k];
      var p := ps[k];
      if !p.Assignment? || p.key.ComputedKey? || (p.key.text != "__proto__" && p.identifierValue.None?) {
        FrozenPrefixFails(ps, k + 1);
        return Err(UnsupportedSyntax("Expected a property assignment"));
      }
      if p.key.text != "__proto__" {
        exports := exports + [Export(p.key.text, p.identifierValue.value)];
      }
      k := k + 1;
    }
    assert ps[..k] == ps;
    r := Ok(exports);
  }

  lemma {:induction false} FrozenPrefixFails(ps: seq<Property>, k: nat)
    requires k <= |ps| && FrozenExports(ps[..k]).Err?
    ensures FrozenExports(ps) == Err(FrozenExports(ps[..k]).error)
    decreases |ps| - k
  {
    if k == |ps| {
      assert ps[..k] == ps;
    } else {
      assert ps[..k + 1][..k] == ps[..k];
      FrozenPrefixFails(ps, k + 1);
    }
  }

  /** `renderTypeParams`: the parameters in full and by name only, each in angle brackets; nothing for an absent or empty list. */
  function RenderTypeParams(tps: Option<seq<TypeParam>>): (r: (string, string))
  {
    if tps.None? || |tps.value| == 0 then ("", "")
    else
      var ps := tps.value;
      ("<" + Js.Join(seq(|ps|, i requires 0 <= i < |ps| => ps[i].text), ", ") + ">",
       "<" + Js.Join(seq(|ps|, i requires 0 <= i < |ps| => ps[i].name), ", ") + ">")
  }

  /**
   * No parameters render as nothing; otherwise both forms are bracketed,
   * and when no parameter has a constraint or default (its text is its
   * name) the two forms agree.
   */
  lemma TypeParamsForms(tps: Option<seq<TypeParam>>)
    ensures (tps.None? || |tps.value| == 0) <==> RenderTypeParams(tps) == ("", "")
    ensures tps.Some? && |tps.value| > 0 ==>
      Js.StartsWith(RenderTypeParams(tps).0, "<") && Js.EndsWith(RenderTypeParams(tps).0, ">")
      && Js.StartsWith(RenderTypeParams(tps).1, "<") && Js.EndsWith(RenderTypeParams(tps).1, ">")
    ensures tps.Some? && (forall i :: 0 <= i < |tps.value| ==> tps.value[i].text == tps.value[i].name) ==>
      RenderTypeParams(tps).0 == RenderTypeParams(tps).1
  {
    if tps.Some? && |tps.value| > 0 {
      var ps := tps.value;
      var a := Js.Join(seq(|ps|, i requires 0 <= i < |ps| => ps[i].text), ", ");
      var b := Js.Join(seq(|ps|, i requires 0 <= i < |ps| => ps[i].name), ", ");
      assert ("<" + a + ">")[0] == '<' && ("<" + b + ">")[0] == '<';
      assert ("<" + a + ">")[|"<" + a + ">"| - 1..] == ">";
      assert ("<" + b + ">")[|"<" + b + ">"| - 1..] == ">";
      if forall i :: 0 <= i < |ps| ==> ps[i].text == ps[i].name {
        assert seq(|ps|, i requires 0 <= i < |ps| => ps[i].text) == seq(|ps|, i requires 0 <= i < |ps| => ps[i].name);
      }
    }
  }

  /** The alias lines for one export: only for `exportedName == localName`, chosen by the local name's kind. */
  function AliasLines(nsName: string, e: Export, items: map<string, Item>): seq<string>
  {
    if e.exportedName != e.localName then []
    else
      var v := nsName + "_" + e.exportedName;
      var local := e.localName;
      var valueLine := "declare const " + v + ": typeof " + local + ";";
      if local !in items then [valueLine]
      else
        var item := items[local];
        var tp := RenderTypeParams(item.generics);
        var typeLine := "type " + v + tp.0 + " = " + local + tp.1 + ";";
        match item.itemType
        case NamespaceItem => ["import " + v + " = " + local + ";"]
        case InterfaceItem => [typeLine]
        case TypeItem => [typeLine]
        case EnumItem => [typeLine, valueLine]
        case ClassItem => [typeLine, valueLine]
        case _ => [valueLine]
  }

  function AllAliasLines(nsName: string, es: seq<Export>, items: map<string, Item>): seq<string>
    decreases |es|
  {
    if |es| == 0 then [] else AllAliasLines(nsName, es[..|es| - 1], items) + AliasLines(nsName, es[|es| - 1], items)
  }

  /** Renamed exports get no alias; a namespace gets an `import` alias, an interface or type only a `type` alias, an enum or class both, anything else a `declare const`. */
  lemma AliasKinds(nsName: string, e: Export, items: map<string, Item>)
    ensures e.exportedName != e.localName ==> AliasLines(nsName, e, items) == []
    ensures e.exportedName == e.localName ==>
      var kind := if e.localName in items then Some(items[e.localName].itemType) else None;
      var lines := AliasLines(nsName, e, items);
      (kind == Some(NamespaceItem) ==> |lines| == 1 && Js.StartsWith(lines[0], "import "))
      && (kind == Some(InterfaceItem) || kind == Some(TypeItem) ==> |lines| == 1 && Js.StartsWith(lines[0], "type "))
      && (kind == Some(EnumItem) || kind == Some(ClassItem) ==>
            |lines| == 2 && Js.StartsWith(lines[0], "type ") && Js.StartsWith(lines[1], "declare const "))
      && (kind.None? || kind == Some(FunctionItem) || kind == Some(VarItem) ==>
            |lines| == 1 && Js.StartsWith(lines[0], "declare const "))
  {
    if e.exportedName == e.localName {
      var v := nsName + "_" + e.exportedName;
      var local := e.localName;
      var valueLine := "declare const " + v + ": typeof " + local + ";";
      assert valueLine == "declare const " + (v + ": typeof " + local + ";");
      assert ("import " + v + " = " + local + ";") == "import " + (v + " = " + local + ";");
      if local in items {
        var tp := RenderTypeParams(items[local].generics);
        assert ("type " + v + tp.0 + " = " + local + tp.1 + ";") == "type " + (v + tp.0 + " = " + local + tp.1 + ";");
      }
    }
  }

  /** One line per export: `ns_name as name` when the names agree, otherwise `local as exported`. */
  function ExportLine(nsName: string, e: Export): string
  {
    if e.exportedName == e.localName then nsName + "_" + e.exportedName + " as " + e.exportedName
    else e.localName + " as " + e.exportedName
  }

  function ExportLines(nsName: string, es: seq<Export>): (r: seq<string>)
    ensures |r| == |es|
    ensures forall i :: 0 <= i < |es| ==> r[i] == "    " + ExportLine(nsName, es[i])
  {
    seq(|es|, i requires 0 <= i < |es| => "    " + ExportLine(nsName, es[i]))
  }

  /** `genNamespaceExport`: the template, trimmed. */
  function GenNamespaceExport(ns: Namespace): string
  {
    Js.Trim("\ndeclare namespace " + ns.name + " {\n  export {\n" + Js.Join(ExportLines(ns.name, ns.exports), ",\n") + ",\n  };\n}\n")
  }

  /** Trimming removes just the template's leading and trailing newline. */
  lemma GenNamespaceExportShape(ns: Namespace)
    ensures GenNamespaceExport(ns)
      == "declare namespace " + ns.name + " {\n  export {\n" + Js.Join(ExportLines(ns.name, ns.exports), ",\n") + ",\n  };\n}"
  {
    TemplateTrim(ns.name, Js.Join(ExportLines(ns.name, ns.exports), ",\n"));
  }

  /** The namespace template with its leading and trailing newline trimmed. */
  lemma TemplateTrim(name: string, body: string)
    ensures Js.Trim("\ndeclare namespace " + name + " {\n  export {\n" + body + ",\n  };\n}\n")
      == "declare namespace " + name + " {\n  export {\n" + body + ",\n  };\n}"
  {
    var core := "declare namespace " + name + " {\n  export {\n" + body + ",\n  };\n}";
    assert "\ndeclare namespace " + name + " {\n  export {\n" + body + ",\n  };\n}\n" == "\n" + core + "\n";
    assert core[0] == 'd' && core[|core| - 1] == '}';
    Js.TrimSurrounding(core);
  }

  /** The replacement for one record: the alias lines, then the namespace when the record has a name, then its trailing text. */
  function NamespaceCode(ns: Namespace, items: map<string, Item>): string
  {
    var aliases := AllAliasLines(ns.name, ns.exports, items);
    var head := if |aliases| > 0 then Js.Join(aliases, "\n") + "\n" else "";
    head + (if ns.name != "" then GenNamespaceExport(ns) else "")
      + (if ns.textBeforeCodeAfter.Some? then ns.textBeforeCodeAfter.value else "")
  }

  /** Each record with the replacement for its range. */
  function NamespaceCodes(nss: seq<Namespace>, items: map<string, Item>): (r: seq<(Location, string)>)
    ensures |r| == |nss|
    ensures forall i :: 0 <= i < |nss| ==> r[i] == (nss[i].location, NamespaceCode(nss[i], items))
  {
    seq(|nss|, i requires 0 <= i < |nss| => (nss[i].location, NamespaceCode(nss[i], items)))
  }

  /** The fixes come out in the reverse of the order their records were found. */
  lemma {:induction false} NamespaceCodesReversed(nss: seq<Namespace>, items: map<string, Item>)
    ensures NamespaceCodes(Reverse(nss), items) == Reverse(NamespaceCodes(nss, items))
  {
    var a := NamespaceCodes(Reverse(nss), items);
    var b := Reverse(NamespaceCodes(nss, items));
    forall i | 0 <= i < |nss|
      ensures a[i] == b[i]
    {
      var ns := Reverse(nss)[i];
      assert ns == nss[|nss| - 1 - i];
      assert a[i] == (ns.location, NamespaceCode(ns, items));
    }
  }

  /** A deletion record, as an empty statement or a redundant alias yields, is replaced by nothing. */
  lemma DeletionCode(start: int, end: int, items: map<string, Item>)
    ensures NamespaceCode(Deletion(start, end), items) == ""
  {
  }

  /** A specifier record replaces the text between the quotes by the `.js` name. */
  lemma SpecifierCode(s: Stmt, items: map<string, Item>)
    ensures |SpecifierRecords(s.node)| > 0 <==>
      var spec := ModuleSpecifier(s.node);
      spec.Some? && spec.value.StringSpecifier? && IsRelativeDts(spec.value.text)
    ensures |SpecifierRecords(s.node)| > 0 ==>
      var spec := ModuleSpecifier(s.node).value;
      var rec := SpecifierRecords(s.node)[0];
      && |SpecifierRecords(s.node)| == 1
      && rec.location == Location(spec.span.start + 1, spec.span.end - 1)
      && NamespaceCode(rec, items) == JsSpecifier(spec.text)
  {
  }

  /** The fixes of a chunk: the replacement for each record, latest found first. */
  function Fixes(statements: seq<Stmt>): Result<seq<(Location, string)>>
  {
    var found :- Found(statements);
    Ok(NamespaceCodes(Reverse(found.produced), found.items))
  }

  /** `fix()`: find the records, then render each one's replacement, in the order found. */
  method Fix(statements: seq<Stmt>) returns (r: Result<seq<(Location, string)>>)
    ensures Found(statements).Err? ==> r == Err(Found(statements).error)
    ensures Found(statements).Ok? ==>
      r == Ok(NamespaceCodes(Reverse(Found(statements).value.produced), Found(statements).value.items))
  {
    var found := FindNamespaces(statements);
    if found.Err? {
      return Err(found.error);
    }
    var (namespaces, itemTypes) := found.value;
    var namespaceCodes: seq<(Location, string)> := [];
    var k := 0;
    while k < |namespaces|
      invariant 0 <= k <= |namespaces|
      invariant namespaceCodes == NamespaceCodes(namespaces[..k], itemTypes)
    {
      var ns := namespaces[k];
      var namespaceCode := RenderNamespace(ns, itemTypes);
      assert namespaces[..k + 1] == namespaces[..k] + [ns];
      NamespaceCodesSnoc(namespaces[..k], ns, itemTypes);
      namespaceCodes := namespaceCodes + [(ns.location, namespaceCode)];
      k := k + 1;
    }
    assert namespaces[..k] == namespaces;
    r := Ok(namespaceCodes);
  }

  /** One more record adds its replacement at the end. */
  lemma NamespaceCodesSnoc(nss: seq<Namespace>, ns: Namespace, items: map<string, Item>)
    ensures NamespaceCodes(nss + [ns], items) == NamespaceCodes(nss, items) + [(ns.location, NamespaceCode(ns, items))]
  {
    var a := NamespaceCodes(nss + [ns], items);
    var b := NamespaceCodes(nss, items) + [(ns.location, NamespaceCode(ns, items))];
    forall i | 0 <= i < |a|
      ensures a[i] == b[i]
    {
      assert (nss + [ns])[i] == if i < |nss| then nss[i] else ns;
    }
  }

  /** The body of the loop of `fix()`: one record's replacement. */
  method RenderNamespace(ns: Namespace, itemTypes: map<string, Item>) returns (namespaceCode: string)
    ensures namespaceCode == NamespaceCode(ns, itemTypes)
  {
    var reexportCodes := ReexportCodes(ns, itemTypes);
    namespaceCode := if |reexportCodes| > 0 then Js.Join(reexportCodes, "\n") + "\n" else "";
    if ns.name != "" {
      namespaceCode := namespaceCode + GenNamespaceExport(ns);
    }
    namespaceCode := namespaceCode + if ns.textBeforeCodeAfter.Some? then ns.textBeforeCodeAfter.value else "";
  }

  /** The loop over a record's exports that pushes the alias lines. */
  method ReexportCodes(ns: Namespace, items: map<string, Item>) returns (codes: seq<string>)
    ensures codes == AllAliasLines(ns.name, ns.exports, items)
  {
    codes := [];
    var i := 0;
    while i < |ns.exports|
      invariant 0 <= i <= |ns.exports|
      invariant codes == AllAliasLines(ns.name, ns.exports[..i], items)
    {
      assert ns.exports[..i + 1][..i] == ns.exports[..i];
      codes := codes + AliasLines(ns.name, ns.exports[i], items);
      i := i + 1;
    }
    assert ns.exports[..i] == ns.exports;
  }
}
