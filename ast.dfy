/**
 * The parts of a TypeScript syntax tree the plugin's passes look at. Each
 * statement carries its positions in the text it was parsed from and the
 * inline `import()` type nodes below it; declarations carry exactly the
 * tokens the passes query. Parsing itself is not modelled.
 */
module Ast {
  import opened Wrappers

  /** `getFullStart()`, `getStart()` and `getEnd()` of a node. */
  datatype Span = Span(fullStart: int, start: int, end: int)

  /** A `{ start, end }` range the post-bundle passes hand to the render stage. */
  datatype Location = Location(start: int, end: int)

  /** A declaration name: its text and whether it is a plain identifier (not a string literal or binding pattern). */
  datatype Name = Name(text: string, isIdentifier: bool)

  datatype ModifierKind = ExportKeyword | DefaultKeyword | DeclareKeyword | OtherModifier

  /** A modifier token with its start and end. */
  datatype Modifier = Modifier(kind: ModifierKind, start: int, end: int)

  /** A type parameter: its full text and its name. */
  datatype TypeParam = TypeParam(text: string, name: string)

  /** An export specifier `propertyName as name`, or just `name`, with the ends of both names. */
  datatype ExportSpecifier = ExportSpecifier(name: string, nameEnd: int, propertyName: Option<string>, propertyEnd: int)

  /** A `{ … }` export clause and its span. */
  datatype NamedExports = NamedExports(elements: seq<ExportSpecifier>, span: Span)

  datatype ExportClause = Named(named: NamedExports) | NamespaceExport

  /** A module specifier: a string literal (text without quotes, node span with quotes) or anything else. */
  datatype Specifier = StringSpecifier(text: string, span: Span) | OtherSpecifier

  datatype PropertyKey = IdentifierKey(text: string) | StringKey(text: string) | ComputedKey

  /** An object-literal member: `key: value` with the value's text when it is an identifier, or any other member. */
  datatype Property = Assignment(key: PropertyKey, identifierValue: Option<string>) | OtherProperty

  datatype Expr = ObjectLiteral(properties: seq<Property>) | OtherExpr

  /** A variable initializer: none, a call (the callee's full text and the arguments), or anything else. */
  datatype Initializer = NoInitializer | CallInit(calleeText: string, arguments: seq<Expr>) | OtherInit

  datatype VarKeyword = Let | Const | Var

  /** One declarator of a variable statement. */
  datatype VarDecl = VarDecl(name: Name, initializer: Initializer, span: Span)

  /** A child of a declaration list's syntax list: a comma token or a declarator, by span. */
  datatype ListItem = CommaToken(span: Span) | DeclaratorItem(span: Span)

  datatype DeclKind = EnumDecl | FunctionDecl | InterfaceDecl | ClassDecl | TypeAliasDecl | ModuleDecl

  /**
   * The `class` or `function` keyword of a declaration: its end, and the
   * token after it (its start, and whether it is punctuation).
   */
  datatype KeywordToken = KeywordToken(end: int, nextStart: int, nextIsPunctuation: bool)

  /** The argument of an `import(…)` type: a string literal with its text, or anything else. */
  datatype ImportArgument = StringArgument(text: string) | OtherArgument

  /**
   * An inline `import("…")` type: the start of its `import` keyword, its end,
   * and the start of a following `.` or `<` token when there is one.
   */
  datatype ImportType = ImportType(argument: ImportArgument, importStart: int, end: int, qualifierStart: Option<int>)

  /** A reference directive: its file name and the span of its line, without the line break. */
  datatype Directive = Directive(fileName: string, lineStart: int, lineEnd: int)

  /**
   * A statement: its span, the inline import types inside it in the order
   * the recursive check visits them (children before parents), and its kind.
   */
  datatype Stmt = Stmt(span: Span, importTypes: seq<ImportType>, node: Node)

  datatype ModuleBody = NoBody | Block(statements: seq<Stmt>) | Nested(inner: Stmt)

  datatype Node =
    | EmptyStatement
    | ImportDeclaration(importSpecifier: Specifier)
    | ExportDeclaration(exportSpecifier: Option<Specifier>, isTypeOnly: bool, clause: Option<ExportClause>)
    | Declaration(kind: DeclKind, name: Option<Name>, modifiers: seq<Modifier>, typeParams: Option<seq<TypeParam>>,
                  globalAugmentation: bool, body: ModuleBody, keyword: KeywordToken)
    | VariableStatement(varKeyword: VarKeyword, declarations: seq<VarDecl>, list: seq<ListItem>, varModifiers: seq<Modifier>)
    | OtherStatement

  /** The modifiers of a statement; only declarations and variable statements have any the passes look at. */
  function ModifiersOf(n: Node): seq<Modifier>
  {
    match n
    case Declaration(_, _, mods, _, _, _, _) => mods
    case VariableStatement(_, _, _, mods) => mods
    case _ => []
  }

  predicate HasModifier(n: Node, k: ModifierKind)
  {
    exists i :: 0 <= i < |ModifiersOf(n)| && ModifiersOf(n)[i].kind == k
  }

  /** `matchesModifier(node, ExportDefault)`: both `export` and `default`. */
  predicate IsExportDefault(n: Node)
  {
    HasModifier(n, ExportKeyword) && HasModifier(n, DefaultKeyword)
  }

  /** `matchesModifier(node, Export)`. */
  predicate IsExport(n: Node)
  {
    HasModifier(n, ExportKeyword)
  }

  // ---------------------------------------------------------------- well-formed parses

  /** Locations in order inside `[from, to]`, none overlapping a later one. */
  predicate LocationsIn(ls: seq<Location>, from: int, to: int)
  {
    && from <= to
    && (forall i :: 0 <= i < |ls| ==> from <= ls[i].start <= ls[i].end <= to)
    && (forall i, j :: 0 <= i < j < |ls| ==> ls[i].end <= ls[j].start)
  }

  /** Locations up to `mid` followed by locations from `mid` on stay in order. */
  lemma LocationsConcat(a: seq<Location>, b: seq<Location>, from: int, mid: int, to: int)
    requires LocationsIn(a, from, mid) && LocationsIn(b, mid, to)
    ensures LocationsIn(a + b, from, to)
  {
    forall i, j | 0 <= i < j < |a + b|
      ensures (a + b)[i].end <= (a + b)[j].start
    {
      if j < |a| {
        assert (a + b)[i] == a[i] && (a + b)[j] == a[j];
      } else if i < |a| {
        assert (a + b)[i] == a[i] && (a + b)[j] == b[j - |a|];
      } else {
        assert (a + b)[i] == b[i - |a|] && (a + b)[j] == b[j - |a|];
      }
    }
  }

  lemma LocationsWiden(ls: seq<Location>, from: int, to: int, from': int, to': int)
    requires LocationsIn(ls, from, to) && from' <= from && to <= to'
    ensures LocationsIn(ls, from', to')
  {
  }

  /** A string-literal specifier: its quotes lie inside the statement `outer`. */
  predicate SpecifierParsed(sp: Specifier, outer: Span)
  {
    sp.StringSpecifier? ==> outer.start <= sp.span.start && sp.span.start + 2 <= sp.span.end <= outer.end
  }

  /** Where an element of an export clause starts to matter: the end of its property name, if it has one. */
  function ElementFrom(e: ExportSpecifier): int
  {
    if e.propertyName.Some? then e.propertyEnd else e.nameEnd
  }

  /** The elements of a clause in order inside `[from, to]`, each name ending after its property name. */
  predicate ElementsParsed(es: seq<ExportSpecifier>, from: int, to: int)
    decreases |es|
  {
    if |es| == 0 then from <= to
    else
      var e := es[|es| - 1];
      ElementsParsed(es[..|es| - 1], from, ElementFrom(e)) && ElementFrom(e) <= e.nameEnd <= to
  }

  /** An export clause inside the statement `outer`, its elements inside the clause. */
  predicate ClauseParsed(n: NamedExports, outer: Span)
  {
    outer.start <= n.span.start <= n.span.end <= outer.end && ElementsParsed(n.elements, n.span.start, n.span.end)
  }

  /**
   * Statements as a parser gives them for the text `[from, to]`: in source
   * order, none overlapping the next, and every node inside its statement.
   */
  predicate StmtsParsed(ss: seq<Stmt>, from: int, to: int)
    decreases ss
  {
    if |ss| == 0 then from <= to
    else
      var s := ss[|ss| - 1];
      && StmtsParsed(ss[..|ss| - 1], from, s.span.fullStart)
      && s.span.fullStart <= s.span.start <= s.span.end <= to
      && StmtParsed(s)
  }

  /** The specifiers, clauses and module bodies of a statement lie inside it. */
  predicate StmtParsed(s: Stmt)
    decreases s
  {
    match s.node
    case ImportDeclaration(sp) => SpecifierParsed(sp, s.span)
    case ExportDeclaration(sp, _, clause) =>
      && (sp.Some? ==> SpecifierParsed(sp.value, s.span))
      && (clause.Some? && clause.value.Named? ==> ClauseParsed(clause.value.named, s.span))
    case Declaration(_, _, _, _, _, body, _) => BodyParsed(body, s.span)
    case _ => true
  }

  /** A module body inside its declaration `outer`. */
  predicate BodyParsed(b: ModuleBody, outer: Span)
    decreases b
  {
    match b
    case NoBody => true
    case Block(ss) => StmtsParsed(ss, outer.start, outer.end)
    case Nested(inner) =>
      && outer.start <= inner.span.fullStart <= inner.span.start <= inner.span.end <= outer.end
      && StmtParsed(inner)
  }
}
