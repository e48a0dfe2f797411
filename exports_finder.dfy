/**
 * `ExportsFinder`: find every local `export { … }` clause of the bundled
 * chunk, classify each element as a type or a value by the declarations in
 * scope, and render the clause again with `type` markers, sorted by
 * position.
 */
module ExportsFinder {
  import Js
  import opened Wrappers
  import opened Ast

  datatype Kind = TypeKind | ValueKind

  datatype NamedExport = NamedExport(localName: string, exportedName: string, kind: Kind)

  datatype ExportDecl = ExportDecl(location: Location, exports: seq<NamedExport>)

  /** What `getExportsAndLocals` gathers: the export clauses, the value names and the type names, each in visit order. */
  datatype Collected = Collected(rawExports: seq<NamedExports>, values: seq<string>, types: seq<string>)

  const Nothing := Collected([], [], [])

  function Plus(a: Collected, b: Collected): Collected
  {
    Collected(a.rawExports + b.rawExports, a.values + b.values, a.types + b.types)
  }

  function NameList(name: Option<Name>): seq<string>
  {
    if name.Some? then [name.value.text] else []
  }

  /** The identifier-named declarators of a variable statement. */
  function DeclaratorNames(ds: seq<VarDecl>): seq<string>
  {
    if |ds| == 0 then []
    else DeclaratorNames(ds[..|ds| - 1]) + (if ds[|ds| - 1].name.isIdentifier then [ds[|ds| - 1].name.text] else [])
  }

  /** What the statements `ss` contribute, in order. */
  function Collect(ss: seq<Stmt>): Collected
    decreases ss
  {
    if |ss| == 0 then Nothing
    else Plus(Collect(ss[..|ss| - 1]), OfStmt(ss[|ss| - 1]))
  }

  /**
   * One statement: imports are skipped, interfaces and type aliases are
   * types, classes, enums, functions and variables are values, a module is a
   * value (when named by an identifier) and is searched inside, and a local,
   * not type-only `export { … }` is an export clause.
   */
  function OfStmt(s: Stmt): Collected
    decreases s
  {
    match s.node
    case ImportDeclaration(_) => Nothing
    case Declaration(kind, name, _, _, _, body, _) =>
      if kind == InterfaceDecl || kind == TypeAliasDecl then Collected([], [], NameList(name))
      else if kind != ModuleDecl then Collected([], NameList(name), [])
      else
        var own := if name.Some? && name.value.isIdentifier then [name.value.text] else [];
        Plus(Collected([], own, []), OfBody(body))
    case VariableStatement(_, decls, _, _) => Collected([], DeclaratorNames(decls), [])
    case ExportDeclaration(specifier, isTypeOnly, clause) =>
      if specifier.Some? || isTypeOnly then Nothing
      else if clause.Some? && clause.value.Named? then Collected([clause.value.named], [], [])
      else Nothing
    case _ => Nothing
  }

  /** A module body: a block's statements, or the nested module declaration of `namespace A.B`. */
  function OfBody(b: ModuleBody): Collected
    decreases b
  {
    match b
    case NoBody => Nothing
    case Block(ss) => Collect(ss)
    case Nested(inner) => OfStmt(inner)
  }

  /** `getExportsAndLocals(statements)`: one pass over the statements, recursing into module bodies. */
  method GetExportsAndLocals(statements: seq<Stmt>) returns (c: Collected)
    ensures c == Collect(statements)
    decreases statements
  {
    var rawExports: seq<NamedExports> := [];
    var values: seq<string> := [];
    var types: seq<string> := [];
    var k := 0;
    while k < |statements|
      invariant 0 <= k <= |statements|
      invariant Collected(rawExports, values, types) == Collect(statements[..k])
    {
      assert statements[..k + 1][..k] == statements[..k];
      var one := CollectStatement(statements[k]);
      rawExports := rawExports + one.rawExports;
      values := values + one.values;
      types := types + one.types;
      k := k + 1;
    }
    assert statements[..k] == statements;
    c := Collected(rawExports, values, types);
  }

  /** One statement of the loop of `getExportsAndLocals`. */
  method CollectStatement(s: Stmt) returns (c: Collected)
    ensures c == OfStmt(s)
    decreases s, 0
  {
    match s.node {
      case Declaration(kind, name, _, _, _, body, _) =>
        if kind == ModuleDecl {
          var own := if name.Some? && name.value.isIdentifier then [name.value.text] else [];
          var sub: Collected;
          match body {
            case NoBody => sub := Nothing;
            case Block(ss) => sub := GetExportsAndLocals(ss);
            case Nested(inner) => sub := CollectStatement(inner);
          }
          c := Plus(Collected([], own, []), sub);
        } else {
          c := OfStmt(s);
        }
      case _ => c := OfStmt(s);
    }
  }

  /** An element's kind: a type exactly when a type of that name is declared and no value is. */
  function KindOf(localName: string, values: seq<string>, types: seq<string>): (k: Kind)
    ensures k == TypeKind <==> localName in types && localName !in values
  {
    if localName in types && localName !in values then TypeKind else ValueKind
  }

  /** An export element: the exported name is the element's name, the local name its property name when present. */
  function ElementOf(e: ExportSpecifier, values: seq<string>, types: seq<string>): (r: NamedExport)
    ensures r.exportedName == e.name
    ensures r.localName == if e.propertyName.Some? then e.propertyName.value else e.name
  {
    var local := if e.propertyName.Some? then e.propertyName.value else e.name;
    NamedExport(local, e.name, KindOf(local, values, types))
  }

  function DeclOf(n: NamedExports, values: seq<string>, types: seq<string>): (r: ExportDecl)
    ensures |r.exports| == |n.elements|
    ensures r.location == Location(n.span.start, n.span.end)
  {
    ExportDecl(Location(n.span.start, n.span.end),
      seq(|n.elements|, i requires 0 <= i < |n.elements| => ElementOf(n.elements[i], values, types)))
  }

  predicate SortedByStart(ds: seq<ExportDecl>)
  {
    forall i, j :: 0 <= i < j < |ds| ==> ds[i].location.start <= ds[j].location.start
  }

  /** Put `d` after every element that does not start later. */
  function Insert(d: ExportDecl, ds: seq<ExportDecl>): seq<ExportDecl>
    decreases |ds|
  {
    if |ds| == 0 then [d]
    else if ds[|ds| - 1].location.start <= d.location.start then ds + [d]
    else Insert(d, ds[..|ds| - 1]) + [ds[|ds| - 1]]
  }

  /** `sort((a, b) => a.location.start - b.location.start)`, which is stable. */
  function SortByStart(ds: seq<ExportDecl>): seq<ExportDecl>
    decreases |ds|
  {
    if |ds| == 0 then [] else Insert(ds[|ds| - 1], SortByStart(ds[..|ds| - 1]))
  }

  lemma {:induction false} InsertKeeps(d: ExportDecl, ds: seq<ExportDecl>)
    ensures multiset(Insert(d, ds)) == multiset(ds) + multiset{d}
    ensures |Insert(d, ds)| == |ds| + 1
    decreases |ds|
  {
    if |ds| > 0 && ds[|ds| - 1].location.start > d.location.start {
      var init := ds[..|ds| - 1];
      InsertKeeps(d, init);
      assert ds == init + [ds[|ds| - 1]];
    }
  }

  lemma {:induction false} InsertSorted(d: ExportDecl, ds: seq<ExportDecl>)
    requires SortedByStart(ds)
    ensures SortedByStart(Insert(d, ds))
    ensures forall i :: 0 <= i < |Insert(d, ds)| ==>
      Insert(d, ds)[i] == d || Insert(d, ds)[i] in ds
    decreases |ds|
  {
    if |ds| > 0 && ds[|ds| - 1].location.start > d.location.start {
      var init := ds[..|ds| - 1];
      var last := ds[|ds| - 1];
      InsertSorted(d, init);
      InsertKeeps(d, init);
      var r := Insert(d, init);
      forall i | 0 <= i < |r| ensures r[i].location.start <= last.location.start
      {
        if r[i] != d {
          var j :| 0 <= j < |init| && init[j] == r[i];
          assert ds[j] == init[j];
        }
      }
    }
  }

  /** The sort orders by start and only reorders: the result is a permutation of its input. */
  lemma SortByStartCorrect(ds: seq<ExportDecl>)
    ensures SortedByStart(SortByStart(ds))
    ensures multiset(SortByStart(ds)) == multiset(ds)
  {
    SortByStartSorted(ds);
    SortByStartPermutes(ds);
  }

  lemma {:induction false} SortByStartSorted(ds: seq<ExportDecl>)
    ensures SortedByStart(SortByStart(ds))
    decreases |ds|
  {
    if |ds| > 0 {
      SortByStartSorted(ds[..|ds| - 1]);
      InsertSorted(ds[|ds| - 1], SortByStart(ds[..|ds| - 1]));
    }
  }

  lemma {:induction false} SortByStartPermutes(ds: seq<ExportDecl>)
    ensures multiset(SortByStart(ds)) == multiset(ds)
    decreases |ds|
  {
    if |ds| > 0 {
      var init, x := ds[..|ds| - 1], ds[|ds| - 1];
      SortByStartPermutes(init);
      InsertKeeps(x, SortByStart(init));
      assert SortByStart(ds) == Insert(x, SortByStart(init));
      assert ds == init + [x];
      assert multiset(ds) == multiset(init) + multiset{x};
    }
  }

  /** `createNamedExport`: a `type ` marker unless elided, the local name, and ` as exported` when the names differ. */
  function CreateNamedExport(e: NamedExport, elideType: bool): (r: string)
    ensures !elideType && e.kind == TypeKind ==> Js.StartsWith(r, "type " + e.localName)
    ensures (elideType || e.kind == ValueKind) ==> Js.StartsWith(r, e.localName)
    ensures e.localName != e.exportedName ==> Js.EndsWith(r, " as " + e.exportedName)
    ensures e.localName == e.exportedName ==> Js.EndsWith(r, e.localName)
    ensures e.localName == e.exportedName ==> r == (if !elideType && e.kind == TypeKind then "type " else "") + e.localName
  {
    var marker := if !elideType && e.kind == TypeKind then "type " else "";
    var alias := if e.localName == e.exportedName then "" else " as " + e.exportedName;
    assert (marker + e.localName + alias)[..|marker + e.localName|] == marker + e.localName;
    assert (marker + e.localName + alias)[|marker + e.localName + alias| - |alias|..] == alias;
    marker + e.localName + alias
  }

  /** Every element is a type, and there is at least one. */
  predicate IsTypeOnly(es: seq<NamedExport>)
  {
    (forall i :: 0 <= i < |es| ==> es[i].kind == TypeKind) && |es| > 0
  }

  /** `getExportPart`: `type { … }` when every element is a type, otherwise `{ … }` with per-element markers. */
  function GetExportPart(es: seq<NamedExport>): string
  {
    var typeOnly := IsTypeOnly(es);
    (if typeOnly then "type " else "") + Braced(ClauseBody(es, typeOnly))
  }

  /** The elements of a clause, joined with `, `. */
  function ClauseBody(es: seq<NamedExport>, typeOnly: bool): string
  {
    Js.Join(seq(|es|, i requires 0 <= i < |es| => CreateNamedExport(es[i], typeOnly)), ", ")
  }

  /** The braces around the elements of a clause. */
  function Braced(body: string): string
  {
    "{ " + body + " }"
  }

  /** The clause starts with `type ` exactly when every element is a type and there is one; it always ends with ` }`. */
  lemma ExportPartMarker(es: seq<NamedExport>)
    ensures Js.StartsWith(GetExportPart(es), "type ") <==> IsTypeOnly(es)
    ensures Js.StartsWith(GetExportPart(es), "type { ") <==> IsTypeOnly(es)
    ensures Js.EndsWith(GetExportPart(es), " }")
  {
    var part := GetExportPart(es);
    var body := ClauseBody(es, IsTypeOnly(es));
    if IsTypeOnly(es) {
      TypeMarked(part, body);
    } else {
      Unmarked(part, body);
    }
  }

  /** A type-only clause starts with `type { ` and ends with ` }`. */
  lemma TypeMarked(part: string, body: string)
    requires part == "type " + Braced(body)
    ensures Js.StartsWith(part, "type ") && Js.StartsWith(part, "type { ") && Js.EndsWith(part, " }")
  {
    assert part == "type { " + (body + " }");
    assert part[..5] == "type ";
    assert part[..7] == "type { ";
    assert part == ("type { " + body) + " }";
  }

  /** Any other clause starts with `{` and ends with ` }`. */
  lemma Unmarked(part: string, body: string)
    requires part == Braced(body)
    ensures !Js.StartsWith(part, "type ") && !Js.StartsWith(part, "type { ") && Js.EndsWith(part, " }")
  {
    assert part[0] == '{';
    assert part == ("{ " + body) + " }";
  }

  /** An empty clause renders as `{  }`. */
  lemma ExportPartEmpty()
    ensures GetExportPart([]) == "{  }"
  {
    assert !IsTypeOnly([]);
    assert Js.Join([], ", ") == "";
  }

  /** The clauses as declarations, in the order they were collected. */
  function Decls(c: Collected): (r: seq<ExportDecl>)
    ensures |r| == |c.rawExports|
    ensures forall i :: 0 <= i < |r| ==> r[i] == DeclOf(c.rawExports[i], c.values, c.types)
  {
    seq(|c.rawExports|, i requires 0 <= i < |c.rawExports| => DeclOf(c.rawExports[i], c.values, c.types))
  }

  /** The edits `findExports` produces for what was collected: each clause's span with its rendering, sorted by start. */
  function ExportEdits(c: Collected): seq<(Location, string)>
  {
    var sorted := SortByStart(Decls(c));
    seq(|sorted|, i requires 0 <= i < |sorted| => (sorted[i].location, GetExportPart(sorted[i].exports)))
  }

  /** `findExports()`: collect, classify and render every export clause, in ascending order of start. */
  method FindExports(statements: seq<Stmt>) returns (r: seq<(Location, string)>)
    ensures r == ExportEdits(Collect(statements))
  {
    var c := GetExportsAndLocals(statements);
    r := ExportEdits(c);
  }

  /**
   * The edits come in ascending order of start and are the collected
   * clauses, reordered: each is a permutation of the declarations, rendered
   * by `getExportPart` at the clause's own span.
   */
  lemma ExportEditsSorted(c: Collected)
    ensures |ExportEdits(c)| == |c.rawExports|
    ensures forall i, j :: 0 <= i < j < |ExportEdits(c)| ==> ExportEdits(c)[i].0.start <= ExportEdits(c)[j].0.start
    ensures multiset(SortByStart(Decls(c))) == multiset(Decls(c))
    ensures forall i :: 0 <= i < |ExportEdits(c)| ==>
      ExportEdits(c)[i] == (SortByStart(Decls(c))[i].location, GetExportPart(SortByStart(Decls(c))[i].exports))
  {
    SortByStartCorrect(Decls(c));
    assert |multiset(SortByStart(Decls(c)))| == |multiset(Decls(c))|;
  }

  // ---------------------------------------------------------------- placement

  /** The ranges of a list of export clauses. */
  function ClauseLocations(rs: seq<NamedExports>): (r: seq<Location>)
    ensures |r| == |rs| && forall i :: 0 <= i < |rs| ==> r[i] == Location(rs[i].span.start, rs[i].span.end)
  {
    seq(|rs|, i requires 0 <= i < |rs| => Location(rs[i].span.start, rs[i].span.end))
  }

  lemma ClauseLocationsAppend(a: seq<NamedExports>, b: seq<NamedExports>)
    ensures ClauseLocations(a + b) == ClauseLocations(a) + ClauseLocations(b)
  {
  }

  /** The clauses collected from statements as a parser gives them lie in order inside the text. */
  lemma CollectIn(ss: seq<Stmt>, from: int, to: int)
    requires StmtsParsed(ss, from, to)
    ensures LocationsIn(ClauseLocations(Collect(ss).rawExports), from, to)
    decreases ss
  {
    if |ss| > 0 {
      var s := ss[|ss| - 1];
      var prev := Collect(ss[..|ss| - 1]).rawExports;
      var mine := OfStmt(s).rawExports;
      CollectIn(ss[..|ss| - 1], from, s.span.fullStart);
      OfStmtIn(s);
      LocationsWiden(ClauseLocations(mine), s.span.start, s.span.end, s.span.fullStart, to);
      ClauseLocationsAppend(prev, mine);
      LocationsConcat(ClauseLocations(prev), ClauseLocations(mine), from, s.span.fullStart, to);
    }
  }

  /** The clauses of a well-formed statement lie in order inside it. */
  lemma OfStmtIn(s: Stmt)
    requires StmtParsed(s) && s.span.start <= s.span.end
    ensures LocationsIn(ClauseLocations(OfStmt(s).rawExports), s.span.start, s.span.end)
    decreases s
  {
    match s.node
    case Declaration(kind, name, _, _, _, body, _) =>
      if kind == ModuleDecl {
        OfBodyIn(body, s.span);
        assert OfStmt(s).rawExports == [] + OfBody(body).rawExports;
      }
    case ExportDeclaration(specifier, isTypeOnly, clause) =>
    case _ =>
  }

  /** The clauses of a well-formed module body lie in order inside its declaration. */
  lemma OfBodyIn(b: ModuleBody, outer: Span)
    requires BodyParsed(b, outer) && outer.start <= outer.end
    ensures LocationsIn(ClauseLocations(OfBody(b).rawExports), outer.start, outer.end)
    decreases b
  {
    match b
    case NoBody =>
    case Block(ss) => CollectIn(ss, outer.start, outer.end);
    case Nested(inner) =>
      OfStmtIn(inner);
      LocationsWiden(ClauseLocations(OfStmt(inner).rawExports), inner.span.start, inner.span.end, outer.start, outer.end);
  }

  /** Sorting a list already in order of start changes nothing. */
  lemma {:induction false} SortByStartSame(ds: seq<ExportDecl>)
    requires SortedByStart(ds)
    ensures SortByStart(ds) == ds
    decreases |ds|
  {
    if |ds| > 0 {
      var init := ds[..|ds| - 1];
      SortByStartSame(init);
      assert init + [ds[|ds| - 1]] == ds;
    }
  }

  /**
   * For statements as a parser gives them, `findExports` leaves the clauses
   * in the order they were collected: the edits are the clauses' own ranges,
   * in order inside the text, none overlapping a later one.
   */
  lemma ExportEditsInOrder(ss: seq<Stmt>, from: int, to: int)
    requires StmtsParsed(ss, from, to)
    ensures var c := Collect(ss);
      && |ExportEdits(c)| == |c.rawExports|
      && (forall i :: 0 <= i < |c.rawExports| ==> ExportEdits(c)[i].0 == ClauseLocations(c.rawExports)[i])
      && LocationsIn(ClauseLocations(c.rawExports), from, to)
  {
    var c := Collect(ss);
    CollectIn(ss, from, to);
    var ls := ClauseLocations(c.rawExports);
    assert forall i :: 0 <= i < |ls| ==> Decls(c)[i].location == ls[i];
    SortByStartSame(Decls(c));
  }
}
