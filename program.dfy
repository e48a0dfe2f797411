/**
 * Config and program selection. A TypeScript program is built for each run
 * of inputs that resolve to the same config directory; the parsed config of
 * every directory between an input and its `tsconfig.json` is cached; a
 * module is looked up in the first program that holds it.
 *
 * The TypeScript compiler is a parameter: finding and reading a config file,
 * testing a `paths` key against an input, checking that a file exists and
 * building a program from its root names are the functions of a `Host`.
 */
module Program {
  import Js
  import opened Wrappers

  // ---------------------------------------------------------------- compiler options

  /** A compiler option's value. */
  datatype OptionValue = Flag(b: bool) | Number(n: int) | Text(s: string)

  /** Compiler options by name. */
  type Options = map<string, OptionValue>

  /** `DEFAULT_OPTIONS`; `target` is `ts.ScriptTarget.ESNext`, the number 99. */
  const DefaultOptions: Options := map[
    "declaration" := Flag(true),
    "noEmit" := Flag(false),
    "emitDeclarationOnly" := Flag(true),
    "noEmitOnError" := Flag(true),
    "checkJs" := Flag(false),
    "declarationMap" := Flag(true),
    "skipLibCheck" := Flag(true),
    "preserveSymlinks" := Flag(true),
    "target" := Number(99)]

  /** `{ ...a, ...b }`: every option of `b`, and those of `a` that `b` does not set. */
  function Spread(a: Options, b: Options): (r: Options)
    ensures forall k :: k in r <==> k in a || k in b
    ensures forall k :: k in b ==> r[k] == b[k]
    ensures forall k :: k in a && k !in b ==> r[k] == a[k]
  {
    a + b
  }

  /** JavaScript truthiness of an option. */
  predicate Truthy(v: OptionValue)
  {
    match v
    case Flag(b) => b
    case Number(n) => n != 0
    case Text(s) => s != ""
  }

  /**
   * The options a program gets: the config's where it sets them, else the
   * caller's overrides, else the defaults.
   */
  lemma OptionsPrecedence(overrides: Options, config: Options, k: string)
    ensures var merged := Spread(Spread(DefaultOptions, overrides), config);
      && (k in config ==> k in merged && merged[k] == config[k])
      && (k !in config && k in overrides ==> k in merged && merged[k] == overrides[k])
      && (k !in config && k !in overrides ==> (k in merged <==> k in DefaultOptions) && (k in DefaultOptions ==> merged[k] == DefaultOptions[k]))
  {
  }

  // ---------------------------------------------------------------- paths

  /**
   * Where the scan of `path.dirname` stops: the last `/` that has a non-`/`
   * character after it, scanning down from `i` to index 1; `-1` when there
   * is none. `matchedSlash` holds while only slashes have been seen.
   */
  function DirEnd(p: string, i: int, matchedSlash: bool): (r: int)
    requires i < |p|
    ensures r == -1 || (1 <= r <= i && p[r] == '/' && (r == i ==> !matchedSlash))
    decreases i
  {
    if i < 1 then -1
    else if p[i] == '/' then (if !matchedSlash then i else DirEnd(p, i - 1, true))
    else DirEnd(p, i - 1, false)
  }

  /** POSIX `path.dirname(p)`. */
  function Dirname(p: string): (r: string)
    ensures r == "." || r == "/" || r == "//" || (|r| < |p| && r == p[..|r|])
    ensures r == p || DirMeasure(r) < DirMeasure(p)
  {
    if |p| == 0 then "."
    else
      var end := DirEnd(p, |p| - 1, true);
      var hasRoot := p[0] == '/';
      if end == -1 then (if hasRoot then "/" else ".")
      else if hasRoot && end == 1 then "//"
      else p[..end]
  }

  /** What walking up the directories shrinks: `.` is the end, every other path counts its length. */
  function DirMeasure(p: string): nat
  {
    if p == "." then 0 else |p| + 1
  }

  /** The `n`-th ancestor directory. */
  function Up(p: string, n: nat): string
    decreases n
  {
    if n == 0 then p else Up(Dirname(p), n - 1)
  }

  /** `path.resolve(cwd, p)` without normalisation: an absolute path stays, a relative one is put under `cwd`. */
  function Resolve(cwd: string, p: string): string
  {
    if Js.StartsWith(p, "/") then p else cwd + "/" + p
  }

  /** A walk up the directories never grows the measure, and once it leaves a directory it never returns to it. */
  lemma {:induction false} UpShrinks(p: string, n: nat)
    ensures DirMeasure(Up(p, n)) <= DirMeasure(p)
    ensures n > 0 && Dirname(p) != p ==> DirMeasure(Up(p, n)) < DirMeasure(p)
    decreases n
  {
    if n > 0 {
      UpShrinks(Dirname(p), n - 1);
    }
  }

  /** The walk stays at a directory that is its own parent. */
  lemma {:induction false} UpFixed(p: string, n: nat)
    requires Dirname(p) == p
    ensures Up(p, n) == p
    decreases n
  {
    if n > 0 {
      UpFixed(p, n - 1);
    }
  }

  // ---------------------------------------------------------------- the config cache

  /** What `ts.parseJsonConfigFileContent` yields that the plugin reads. */
  datatype ParsedConfig = ParsedConfig(
    fileNames: seq<string>,
    projectReferences: seq<string>,   // the paths of `projectReferences`, `[]` when absent
    options: Options,
    pathKeys: seq<string>,            // the keys of `options.paths`
    errorCount: nat)

  /** The walk of `cacheConfig` from `p`, which is already set: up to `to` or the root, stopping at a cached directory. */
  function Filled(m: map<string, ParsedConfig>, p: string, to: string, c: ParsedConfig): map<string, ParsedConfig>
    decreases DirMeasure(p)
  {
    if p == to || p == Dirname(p) then m
    else
      var q := Dirname(p);
      if q in m then m else Filled(m[q := c], q, to, c)
  }

  /** `cacheConfig([from, to], c)` on the cache `m`. */
  function CacheFilled(m: map<string, ParsedConfig>, from: string, to: string, c: ParsedConfig): map<string, ParsedConfig>
  {
    Filled(m[from := c], from, to, c)
  }

  /** Every entry of `r` that `m` lacks is for `c` and an ancestor of `p`. */
  ghost predicate AddedAbove(m: map<string, ParsedConfig>, r: map<string, ParsedConfig>, p: string, c: ParsedConfig)
  {
    forall k :: k in r && k !in m ==> r[k] == c && exists n :: 1 <= n && Up(p, n) == k
  }

  /**
   * The walk adds entries only for ancestors of its start, all for the
   * config being cached, and leaves every entry already there as it was.
   */
  lemma {:induction false} FilledKeeps(m: map<string, ParsedConfig>, p: string, to: string, c: ParsedConfig)
    ensures forall k :: k in m ==> k in Filled(m, p, to, c) && Filled(m, p, to, c)[k] == m[k]
    ensures AddedAbove(m, Filled(m, p, to, c), p, c)
    decreases DirMeasure(p)
  {
    if !(p == to || p == Dirname(p)) {
      var q := Dirname(p);
      if q !in m {
        var m1 := m[q := c];
        FilledKeeps(m1, q, to, c);
        var r := Filled(m, p, to, c);
        assert r == Filled(m1, q, to, c);
        forall k | k in m
          ensures k in r && r[k] == m[k]
        {
          assert k in m1 && m1[k] == m[k];
        }
        forall k | k in r && k !in m
          ensures r[k] == c && exists n :: 1 <= n && Up(p, n) == k
        {
          if k == q {
            assert Up(p, 1) == q;
          } else {
            assert k !in m1;
            var n :| 1 <= n && Up(q, n) == k;
            assert Up(p, n + 1) == k;
          }
        }
        assert AddedAbove(m, r, p, c);
      }
    }
  }

  /**
   * `cacheConfig` sets `from`, adds only ancestors of `from` and only for the
   * config being cached, and leaves every other entry as it was; in
   * particular the first cached ancestor it stops at is unchanged.
   */
  lemma CacheFilledEffect(m: map<string, ParsedConfig>, from: string, to: string, c: ParsedConfig)
    ensures var r := CacheFilled(m, from, to, c);
      && from in r && r[from] == c
      && (forall k :: k in m && k != from ==> k in r && r[k] == m[k])
      && AddedAbove(m[from := c], r, from, c)
  {
    FilledKeeps(m[from := c], from, to, c);
  }

  /** An override config is cached only under its own path. */
  lemma CacheFilledOwnPath(m: map<string, ParsedConfig>, p: string, c: ParsedConfig)
    ensures CacheFilled(m, p, p, c) == m[p := c]
  {
  }

  /**
   * When no directory above `from`, up to the `n`-th ancestor `to`, was
   * cached, every one of them, `to` included, is cached for the config.
   */
  lemma {:induction false} FilledReaches(m: map<string, ParsedConfig>, p: string, to: string, c: ParsedConfig, n: nat)
    requires p in m && m[p] == c && Up(p, n) == to
    requires forall i :: 1 <= i <= n ==> Up(p, i) !in m
    ensures forall i :: 0 <= i <= n ==> Up(p, i) in Filled(m, p, to, c) && Filled(m, p, to, c)[Up(p, i)] == c
    decreases n
  {
    var r := Filled(m, p, to, c);
    FilledKeeps(m, p, to, c);
    if n == 0 {
      assert Up(p, 0) == p;
    } else if p == Dirname(p) {
      assert Up(p, 1) == p by { UpFixed(p, 1); }
      assert false;
    } else if p == to {
      UpShrinks(p, n);
      assert false;
    } else {
      var q := Dirname(p);
      assert Up(p, 1) == q;
      var m1 := m[q := c];
      assert r == Filled(m1, q, to, c);
      if Dirname(q) == q {
        forall i | 1 <= i <= n
          ensures Up(p, i) == q
        {
          assert Up(p, i) == Up(q, i - 1);
          UpFixed(q, i - 1);
        }
      } else {
        forall i | 1 <= i <= n - 1
          ensures Up(q, i) !in m1
        {
          assert Up(p, i + 1) == Up(q, i);
          UpShrinks(q, i);
        }
        FilledReaches(m1, q, to, c, n - 1);
        forall i | 1 <= i <= n
          ensures Up(p, i) in r && r[Up(p, i)] == c
        {
          assert Up(p, i) == Up(q, i - 1);
        }
      }
    }
  }

  /** `cacheConfig` reaches `to` when no directory on the way up was cached. */
  lemma CacheFilledReaches(m: map<string, ParsedConfig>, from: string, to: string, c: ParsedConfig, n: nat)
    requires Up(from, n) == to
    requires forall i :: 1 <= i <= n ==> Up(from, i) !in m
    ensures forall i :: 0 <= i <= n ==> Up(from, i) in CacheFilled(m, from, to, c) && CacheFilled(m, from, to, c)[Up(from, i)] == c
  {
    var m1 := m[from := c];
    if Dirname(from) == from {
      forall i | 0 <= i <= n
        ensures Up(from, i) == from
      {
        UpFixed(from, i);
      }
    } else {
      forall i | 1 <= i <= n
        ensures Up(from, i) !in m1
      {
        UpShrinks(from, i);
      }
      FilledReaches(m1, from, to, c, n);
    }
  }

  // ---------------------------------------------------------------- candidate files

  /** `DTS_EXTENSIONS_REGEXP`, `/\.d\.([cm])?tsx?$/`, as the suffixes it accepts. */
  const DtsSuffixes := [".d.ts", ".d.cts", ".d.mts", ".d.tsx", ".d.ctsx", ".d.mtsx"]
  /** `/\.[cm]?tsx?$/`. */
  const TsSuffixes := [".ts", ".cts", ".mts", ".tsx", ".ctsx", ".mtsx"]
  /** `/\.[cm]?jsx?$/`. */
  const JsSuffixes := [".js", ".cjs", ".mjs", ".jsx", ".cjsx", ".mjsx"]

  /** A declaration file name. */
  predicate IsDts(name: string)
  {
    Js.EndsWithAny(name, DtsSuffixes)
  }

  /** Each suffix with `prefix` in front. */
  function Prefixed(prefix: string, suffixes: seq<string>): (r: seq<string>)
    ensures |r| == |suffixes| && forall i :: 0 <= i < |r| ==> r[i] == prefix + suffixes[i]
  {
    seq(|suffixes|, i requires 0 <= i < |suffixes| => prefix + suffixes[i])
  }

  /** Each suffix appended to `s`. */
  function Suffixed(s: string, suffixes: seq<string>): (r: seq<string>)
    ensures |r| == |suffixes| && forall i :: 0 <= i < |r| ==> r[i] == s + suffixes[i]
  {
    seq(|suffixes|, i requires 0 <= i < |suffixes| => s + suffixes[i])
  }

  /** The index of the first suffix `s` ends with, or the number of suffixes when it ends with none. */
  function FirstSuffix(s: string, suffixes: seq<string>): (k: nat)
    ensures k <= |suffixes|
    ensures k < |suffixes| ==> Js.EndsWith(s, suffixes[k])
    ensures k == |suffixes| <==> !Js.EndsWithAny(s, suffixes)
    decreases |suffixes|
  {
    if |suffixes| == 0 then 0
    else if Js.EndsWith(s, suffixes[0]) then 0
    else
      var k := FirstSuffix(s, suffixes[1..]);
      assert forall j :: 1 <= j < |suffixes| ==> suffixes[j] == suffixes[1..][j - 1];
      assert k < |suffixes[1..]| ==> suffixes[1..][k] == suffixes[k + 1];
      k + 1
  }

  /**
   * `input.replace(/\.[cm]?jsx?$/, "")`: the input without the JavaScript
   * suffix it ends with (at most one of them fits, since each starts at the
   * last `.`).
   */
  function JsStem(input: string): (r: string)
    ensures Js.EndsWithAny(input, JsSuffixes) ==> exists k :: 0 <= k < |JsSuffixes| && r + JsSuffixes[k] == input
    ensures !Js.EndsWithAny(input, JsSuffixes) ==> r == input
  {
    var k := FirstSuffix(input, JsSuffixes);
    if k < |JsSuffixes| then
      var suffix := JsSuffixes[k];
      Js.StripSuffix(input, suffix);
      input[..|input| - |suffix|]
    else input
  }

  /** The variants of a JavaScript input's stem: TypeScript sources and declaration files. */
  const StemVariants := [".ts", ".tsx", ".cts", ".ctsx", ".mts", ".mtsx", ".d.ts", ".d.cts", ".d.mts"]
  /** The JavaScript variants of any other input. */
  const JsVariants := [".js", ".jsx", ".cjs", ".cjsx", ".mjs", ".mjsx"]

  /** The first candidates: the input, then its index files and TypeScript variants. */
  function MaybeHead(input: string): (r: seq<string>)
    ensures |r| > 0 && r[0] == input
  {
    var tsIndex := Suffixed("/index", TsSuffixes);
    var jsIndex := Suffixed("/index", JsSuffixes);
    [input]
      + (if !Js.EndsWithAny(input, tsIndex) then Suffixed(input, ["/index.ts", "/index.cts", "/index.mts", "/index.tsx"]) else [])
      + (if !Js.EndsWithAny(input, jsIndex) then Suffixed(input, ["/index.js", "/index.cjs", "/index.mjs", "/index.jsx"]) else [])
      + (if !Js.EndsWith(input, "/index.d.ts") then [input + "/index.d.ts"] else [])
      + (if !Js.EndsWithAny(input, TsSuffixes) then Suffixed(input, [".ts", ".tsx", ".cts", ".ctsx", ".mts", ".mtsx"]) else [])
  }

  /** The variants of the stem of a JavaScript input, or the JavaScript variants of any other. */
  function MaybeMid(input: string): (r: seq<string>)
    ensures Js.EndsWithAny(input, JsSuffixes) ==> forall i :: 0 <= i < |StemVariants| ==> JsStem(input) + StemVariants[i] in r
    ensures !Js.EndsWithAny(input, JsSuffixes) ==> forall i :: 0 <= i < |JsVariants| ==> input + JsVariants[i] in r
  {
    if Js.EndsWithAny(input, JsSuffixes) then Suffixed(JsStem(input), StemVariants)
    else Suffixed(input, JsVariants)
  }

  /**
   * The file names that may stand for `input`: `maybeInputs`. The input
   * comes first; a JavaScript input adds its stem's TypeScript and
   * declaration variants, any other input its own JavaScript variants.
   */
  function MaybeInputs(input: string): (r: seq<string>)
    ensures |r| > 0 && r[0] == input
    ensures Js.EndsWithAny(input, JsSuffixes) ==> forall i :: 0 <= i < |StemVariants| ==> JsStem(input) + StemVariants[i] in r
    ensures !Js.EndsWithAny(input, JsSuffixes) ==> forall i :: 0 <= i < |JsVariants| ==> input + JsVariants[i] in r
    ensures !Js.EndsWith(input, ".d.ts") ==> input + ".d.ts" in r
  {
    var head := MaybeHead(input);
    var mid := MaybeMid(input);
    var tail := if !Js.EndsWith(input, ".d.ts") then [input + ".d.ts"] else [];
    var r := head + mid + tail;
    assert forall x :: x in mid ==> x in r;
    assert forall x :: x in tail ==> x in r;
    r
  }

  /** `isInclude`: some file of the config is among the candidates for the input. */
  predicate Included(fileNames: seq<string>, input: string)
  {
    exists i :: 0 <= i < |fileNames| && fileNames[i] in MaybeInputs(input)
  }

  /** The declaration files among the config's files, in order. */
  function DtsFiles(names: seq<string>): (r: seq<string>)
    ensures forall x :: x in r <==> x in names && IsDts(x)
    ensures |r| <= |names|
    decreases |names|
  {
    if |names| == 0 then []
    else
      var init := DtsFiles(names[..|names| - 1]);
      assert forall x :: x in names <==> x in names[..|names| - 1] || x == names[|names| - 1];
      init + (if IsDts(names[|names| - 1]) then [names[|names| - 1]] else [])
  }

  /** What `getCompilerOptions` returns. */
  datatype CompilerResult = CompilerResult(
    dtsFiles: seq<string>,
    dirName: string,
    compilerOptions: Options,
    projectReferences: Option<seq<string>>)

  /**
   * The outcome for a found config: when the input is included, or forced
   * (a `paths` key matches it, or JavaScript is allowed and it is a `.js`
   * file), the config's declaration files and the merged options, or only
   * the caller's options when the config has errors; otherwise nothing, and
   * the project references are tried.
   */
  function Decide(input: string, compilerOptions: Options, config: ParsedConfig, dirName: string,
                  pathKeyMatches: (string, string) -> bool): (r: Option<CompilerResult>)
    ensures r.Some? <==>
      Included(config.fileNames, input)
      || (exists k :: 0 <= k < |config.pathKeys| && pathKeyMatches(config.pathKeys[k], input))
      || (var merged := Spread(compilerOptions, config.options);
          "allowJs" in merged && Truthy(merged["allowJs"]) && Js.EndsWith(input, ".js"))
    ensures r.Some? ==> forall x :: x in r.value.dtsFiles <==> x in config.fileNames && IsDts(x)
    ensures r.Some? ==> r.value.dirName == dirName
    ensures r.Some? && config.errorCount == 0 ==> r.value.compilerOptions == Spread(compilerOptions, config.options) && r.value.projectReferences == Some(config.projectReferences)
    ensures r.Some? && config.errorCount > 0 ==> r.value.compilerOptions == compilerOptions && r.value.projectReferences.None?
  {
    var merged := Spread(compilerOptions, config.options);
    var forceReturn :=
      (exists k :: 0 <= k < |config.pathKeys| && pathKeyMatches(config.pathKeys[k], input))
      || ("allowJs" in merged && Truthy(merged["allowJs"]) && Js.EndsWith(input, ".js"));
    if Included(config.fileNames, input) || forceReturn then
      var dts := DtsFiles(config.fileNames);
      if config.errorCount > 0 then Some(CompilerResult(dts, dirName, compilerOptions, None))
      else Some(CompilerResult(dts, dirName, merged, Some(config.projectReferences)))
    else None
  }

  /** The cache key: the override config path when one is given, otherwise the input's directory. */
  function CacheKey(input: string, overrideConfigPath: Option<string>): (r: string)
    ensures overrideConfigPath.Some? && overrideConfigPath.value != "" ==> r == overrideConfigPath.value
    ensures overrideConfigPath.None? || overrideConfigPath.value == "" ==> r == Dirname(input)
  {
    if overrideConfigPath.Some? && overrideConfigPath.value != "" then overrideConfigPath.value else Dirname(input)
  }

  // ---------------------------------------------------------------- programs

  /** The arguments of one `ts.createProgram` call: root names are the inputs, then the declaration files. */
  datatype ProgramSpec = ProgramSpec(
    inputs: seq<string>,
    dtsFiles: seq<string>,
    options: Options,
    projectReferences: Option<seq<string>>)

  /** A source file of a program. */
  datatype SourceInfo = SourceInfo(fullText: string, fromExternalLibrary: bool)

  /** The parsed command line of a resolved project reference. */
  datatype CommandLine = CommandLine(fileNames: seq<string>, options: Options, projectReferences: Option<seq<string>>)

  /** A resolved project reference: its config file's name and, when it parsed, its command line. */
  datatype ResolvedReference = ResolvedReference(configFileName: string, commandLine: Option<CommandLine>)

  /** A built program, seen through the queries the plugin makes. */
  datatype Program = Program(
    spec: ProgramSpec,
    sourceFiles: map<string, SourceInfo>,
    references: seq<Option<ResolvedReference>>)

  /** `getRootFileNames()`. */
  function RootNames(p: Program): seq<string>
  {
    p.spec.inputs + p.spec.dtsFiles
  }

  /** The program has the file, and not from an external library. */
  predicate Holds(p: Program, fileName: string)
  {
    fileName in p.sourceFiles && !p.sourceFiles[fileName].fromExternalLibrary
  }

  /** The test `programs.find` applies: an entry must be a root, any other module a file of the program's own. */
  predicate Picks(p: Program, fileName: string, isEntry: bool)
  {
    if isEntry then fileName in RootNames(p) else Holds(p, fileName)
  }

  /** `programs.find(...)`: the index of the first program that passes the test. */
  function FirstPick(programs: seq<Program>, fileName: string, isEntry: bool): (r: Option<nat>)
    ensures r.Some? ==>
      && r.value < |programs| && Picks(programs[r.value], fileName, isEntry)
      && forall i :: 0 <= i < r.value ==> !Picks(programs[i], fileName, isEntry)
    ensures r.None? ==> forall i :: 0 <= i < |programs| ==> !Picks(programs[i], fileName, isEntry)
    decreases |programs|
  {
    if |programs| == 0 then None
    else if Picks(programs[0], fileName, isEntry) then Some(0)
    else
      var rest := FirstPick(programs[1..], fileName, isEntry);
      if rest.Some? then Some(rest.value + 1) else None
  }

  /** Everything the plugin asks of the TypeScript compiler and the file system. */
  datatype Host = Host(
    cwd: string,
    findConfigFile: string -> Option<string>,
    readConfig: string -> Option<ParsedConfig>,
    pathKeyMatches: (string, string) -> bool,
    fileExists: string -> bool,
    build: ProgramSpec -> Program)

  /** The state of `createPrograms`'s loop after some inputs. */
  datatype Grouping = Grouping(
    programs: seq<ProgramSpec>,
    inputs: seq<string>,
    dirName: string,
    compilerOptions: Options,
    projectReferences: Option<seq<string>>,
    dtsFiles: seq<string>)

  /** Every name of `xs` added to the set `s`, in order. */
  function AddAll(s: seq<string>, xs: seq<string>): (r: seq<string>)
    ensures Js.NoDup(s) ==> Js.NoDup(r)
    ensures forall y :: y in r <==> y in s || y in xs
    decreases |xs|
  {
    if |xs| == 0 then s
    else
      var init := xs[..|xs| - 1];
      assert forall y :: y in xs <==> y in init || y == xs[|xs| - 1];
      Js.SetAdd(AddAll(s, init), xs[|xs| - 1])
  }

  /**
   * The loop of `createPrograms` over the resolved inputs and what
   * `getCompilerOptions` gave for each: an input whose directory differs
   * from the current group's closes the group as a program. The new group
   * takes the input's directory and options but keeps the project references
   * of the first group.
   */
  function Group(rs: seq<(string, CompilerResult)>): Grouping
    decreases |rs|
  {
    if |rs| == 0 then Grouping([], [], "", map[], Some([]), [])
    else GroupNext(Group(rs[..|rs| - 1]), rs[|rs| - 1].0, rs[|rs| - 1].1)
  }

  /** One resolved input added to the groups. */
  function GroupNext(g: Grouping, main: string, options: CompilerResult): Grouping
  {
    var dts := AddAll(g.dtsFiles, options.dtsFiles);
    if |g.inputs| == 0 then
      g.(inputs := [main], dirName := options.dirName, compilerOptions := options.compilerOptions,
         projectReferences := options.projectReferences, dtsFiles := dts)
    else if options.dirName == g.dirName then
      g.(inputs := g.inputs + [main], dtsFiles := dts)
    else
      g.(programs := g.programs + [ProgramSpec(g.inputs, dts, g.compilerOptions, g.projectReferences)],
         inputs := [main], dirName := options.dirName, compilerOptions := options.compilerOptions, dtsFiles := dts)
  }

  /** The programs `createPrograms` creates: the closed groups, then the last one. */
  function Programs(rs: seq<(string, CompilerResult)>): seq<ProgramSpec>
  {
    var g := Group(rs);
    g.programs + (if |g.inputs| > 0 then [ProgramSpec(g.inputs, g.dtsFiles, g.compilerOptions, g.projectReferences)] else [])
  }

  /** The lists, concatenated. */
  function Flatten<T>(xss: seq<seq<T>>): seq<T>
    decreases |xss|
  {
    if |xss| == 0 then [] else Flatten(xss[..|xss| - 1]) + xss[|xss| - 1]
  }

  /** The runs of consecutive items with the same key (the second component), built item by item. */
  function Runs(xs: seq<(string, string)>): (r: seq<seq<(string, string)>>)
    ensures |r| > 0 <==> |xs| > 0
    ensures forall j :: 0 <= j < |r| ==> |r[j]| > 0
    decreases |xs|
  {
    if |xs| == 0 then []
    else
      var init := xs[..|xs| - 1];
      var rs := Runs(init);
      var x := xs[|xs| - 1];
      if |init| > 0 && init[|init| - 1].1 == x.1 then rs[..|rs| - 1] + [rs[|rs| - 1] + [x]]
      else rs + [[x]]
  }

  /** Concatenated, the runs give the items back. */
  lemma {:induction false} RunsFlatten(xs: seq<(string, string)>)
    ensures Flatten(Runs(xs)) == xs
    decreases |xs|
  {
    if |xs| > 0 {
      var init := xs[..|xs| - 1];
      RunsFlatten(init);
      var rs := Runs(init);
      var x := xs[|xs| - 1];
      assert xs == init + [x];
      if |init| > 0 && init[|init| - 1].1 == x.1 {
        RunsExtend(rs, x);
      } else {
        assert (rs + [[x]])[..|rs|] == rs;
      }
    }
  }

  /** All items of a run have the key of its first item. */
  predicate SameKey(run: seq<(string, string)>)
  {
    forall k :: 0 <= k < |run| ==> run[k].1 == run[0].1
  }

  /** A run stays uniform when an item with the key of its last item is added. */
  lemma SameKeySnoc(run: seq<(string, string)>, x: (string, string))
    requires |run| > 0 && SameKey(run) && run[|run| - 1].1 == x.1
    ensures SameKey(run + [x])
  {
    var r := run + [x];
    forall k | 0 <= k < |r|
      ensures r[k].1 == r[0].1
    {
      if k < |run| {
        assert r[k] == run[k];
      }
    }
  }

  /** All items of a run share its key, and the last run ends with the last item. */
  lemma {:induction false} RunsShape(xs: seq<(string, string)>)
    ensures var r := Runs(xs);
      && (forall j :: 0 <= j < |r| ==> SameKey(r[j]))
      && (|xs| > 0 ==> r[|r| - 1][|r[|r| - 1]| - 1] == xs[|xs| - 1])
    decreases |xs|
  {
    if |xs| > 0 {
      var init := xs[..|xs| - 1];
      RunsShape(init);
      var rs := Runs(init);
      var x := xs[|xs| - 1];
      if |init| > 0 && init[|init| - 1].1 == x.1 {
        JoinRunShape(rs, x, Runs(xs));
      } else {
        NewRunShape(rs, x, Runs(xs));
      }
    }
  }

  /** Adding an item to the last run keeps every run uniform when the item has that run's key. */
  lemma JoinRunShape(rs: seq<seq<(string, string)>>, x: (string, string), r: seq<seq<(string, string)>>)
    requires |rs| > 0 && |rs[|rs| - 1]| > 0
    requires forall j :: 0 <= j < |rs| ==> SameKey(rs[j])
    requires rs[|rs| - 1][|rs[|rs| - 1]| - 1].1 == x.1
    requires r == rs[..|rs| - 1] + [rs[|rs| - 1] + [x]]
    ensures (forall j :: 0 <= j < |r| ==> SameKey(r[j])) && r[|r| - 1][|r[|r| - 1]| - 1] == x
  {
    var last := rs[|rs| - 1];
    SameKeySnoc(last, x);
    forall j | 0 <= j < |r|
      ensures SameKey(r[j])
    {
      if j < |rs| - 1 {
        assert r[j] == rs[j];
      }
    }
    assert r[|r| - 1] == last + [x];
  }

  /** A new run of one item keeps every run uniform. */
  lemma NewRunShape(rs: seq<seq<(string, string)>>, x: (string, string), r: seq<seq<(string, string)>>)
    requires forall j :: 0 <= j < |rs| ==> SameKey(rs[j])
    requires r == rs + [[x]]
    ensures (forall j :: 0 <= j < |r| ==> SameKey(r[j])) && r[|r| - 1][|r[|r| - 1]| - 1] == x
  {
    forall j | 0 <= j < |r|
      ensures SameKey(r[j])
    {
      if j < |rs| {
        assert r[j] == rs[j];
      }
    }
  }

  /** Neighbouring runs have different keys. */
  predicate Maximal(r: seq<seq<(string, string)>>)
    requires forall j :: 0 <= j < |r| ==> |r[j]| > 0
  {
    forall j :: 0 < j < |r| ==> r[j - 1][0].1 != r[j][0].1
  }

  /** The runs are maximal: neighbouring runs have different keys. */
  lemma {:induction false} RunsMaximal(xs: seq<(string, string)>)
    ensures Maximal(Runs(xs))
    decreases |xs|
  {
    if |xs| > 0 {
      var init := xs[..|xs| - 1];
      RunsMaximal(init);
      RunsShape(init);
      var rs := Runs(init);
      var x := xs[|xs| - 1];
      if |init| > 0 && init[|init| - 1].1 == x.1 {
        assert Runs(xs) == rs[..|rs| - 1] + [rs[|rs| - 1] + [x]];
        MaximalExtend(rs, x);
      } else {
        assert Runs(xs) == rs + [[x]];
        if |init| > 0 {
          var last := rs[|rs| - 1];
          assert last[|last| - 1].1 == last[0].1;
        }
        MaximalNew(rs, x);
      }
    }
  }

  /** Growing the last run keeps the runs maximal. */
  lemma MaximalExtend(rs: seq<seq<(string, string)>>, x: (string, string))
    requires |rs| > 0 && forall j :: 0 <= j < |rs| ==> |rs[j]| > 0
    requires Maximal(rs)
    ensures Maximal(rs[..|rs| - 1] + [rs[|rs| - 1] + [x]])
  {
    var r := rs[..|rs| - 1] + [rs[|rs| - 1] + [x]];
    assert forall j :: 0 <= j < |rs| - 1 ==> r[j] == rs[j];
    assert r[|r| - 1][0] == rs[|rs| - 1][0];
  }

  /** A new run whose key differs from the last run's keeps the runs maximal. */
  lemma MaximalNew(rs: seq<seq<(string, string)>>, x: (string, string))
    requires forall j :: 0 <= j < |rs| ==> |rs[j]| > 0
    requires Maximal(rs)
    requires |rs| > 0 ==> rs[|rs| - 1][0].1 != x.1
    ensures Maximal(rs + [[x]])
  {
    var r := rs + [[x]];
    assert forall j :: 0 <= j < |rs| ==> r[j] == rs[j];
  }

  /** Extending the last run extends the concatenation. */
  lemma RunsExtend(rs: seq<seq<(string, string)>>, x: (string, string))
    requires |rs| > 0
    ensures Flatten(rs[..|rs| - 1] + [rs[|rs| - 1] + [x]]) == Flatten(rs) + [x]
  {
    var r := rs[..|rs| - 1] + [rs[|rs| - 1] + [x]];
    assert r[..|r| - 1] == rs[..|rs| - 1];
    Js.ConcatAssoc(Flatten(rs[..|rs| - 1]), rs[|rs| - 1], [x]);
  }

  /** The inputs of the resolved list, each with the directory it resolved to. */
  function Labels(rs: seq<(string, CompilerResult)>): (r: seq<(string, string)>)
    ensures |r| == |rs| && forall i :: 0 <= i < |rs| ==> r[i] == (rs[i].0, rs[i].1.dirName)
  {
    seq(|rs|, i requires 0 <= i < |rs| => (rs[i].0, rs[i].1.dirName))
  }

  /** The first components. */
  function Firsts(xs: seq<(string, string)>): (r: seq<string>)
    ensures |r| == |xs| && forall i :: 0 <= i < |xs| ==> r[i] == xs[i].0
  {
    seq(|xs|, i requires 0 <= i < |xs| => xs[i].0)
  }

  /** While the loop runs, the closed programs are all runs but the last, and the open group is the last run, of the last input's directory. */
  predicate GroupMatchesRuns(rs: seq<(string, CompilerResult)>)
  {
    var g := Group(rs);
    var runs := Runs(Labels(rs));
    if |rs| == 0 then |g.inputs| == 0 && |runs| == 0
    else
      && |runs| > 0 && |g.inputs| > 0 && g.dirName == rs[|rs| - 1].1.dirName
      && |g.programs| == |runs| - 1
      && (forall j :: 0 <= j < |g.programs| ==> g.programs[j].inputs == Firsts(runs[j]))
      && g.inputs == Firsts(runs[|runs| - 1])
  }

  lemma {:induction false} GroupIsRuns(rs: seq<(string, CompilerResult)>)
    ensures GroupMatchesRuns(rs)
    decreases |rs|
  {
    if |rs| > 0 {
      GroupIsRuns(rs[..|rs| - 1]);
      GroupStep(rs);
    }
  }

  /** One input more keeps the groups matching the runs. */
  lemma GroupStep(rs: seq<(string, CompilerResult)>)
    requires |rs| > 0 && GroupMatchesRuns(rs[..|rs| - 1])
    ensures GroupMatchesRuns(rs)
  {
    var init := rs[..|rs| - 1];
    var (main, options) := rs[|rs| - 1];
    var g0 := Group(init);
    var labels := Labels(rs);
    assert labels[..|rs| - 1] == Labels(init);
    var runs0 := Runs(Labels(init));
    var runs := Runs(labels);
    var g := Group(rs);
    if |init| > 0 && init[|init| - 1].1.dirName == options.dirName {
      assert runs == runs0[..|runs0| - 1] + [runs0[|runs0| - 1] + [(main, options.dirName)]];
      assert g.inputs == g0.inputs + [main];
      assert g.programs == g0.programs;
      assert Firsts(runs0[|runs0| - 1] + [(main, options.dirName)]) == Firsts(runs0[|runs0| - 1]) + [main];
    } else if |init| > 0 {
      assert runs == runs0 + [[(main, options.dirName)]];
      assert g.programs == g0.programs + [ProgramSpec(g0.inputs, g.dtsFiles, g0.compilerOptions, g0.projectReferences)];
    }
  }

  /**
   * `createPrograms` makes one program per maximal run of consecutive inputs
   * that resolve to the same directory, in input order.
   */
  lemma ProgramsAreRuns(rs: seq<(string, CompilerResult)>)
    ensures var ps := Programs(rs); var runs := Runs(Labels(rs));
      |ps| == |runs| && forall j :: 0 <= j < |ps| ==> ps[j].inputs == Firsts(runs[j])
  {
    GroupIsRuns(rs);
  }

  /** The inputs `createPrograms` resolves: all but the declaration files, made absolute, in order. */
  function Sources(cwd: string, input: seq<string>): seq<string>
    decreases |input|
  {
    if |input| == 0 then []
    else
      var last := input[|input| - 1];
      Sources(cwd, input[..|input| - 1]) + (if IsDts(last) then [] else [Resolve(cwd, last)])
  }

  /** The inputs of the resolved list. */
  function Mains(rs: seq<(string, CompilerResult)>): seq<string>
  {
    seq(|rs|, i requires 0 <= i < |rs| => rs[i].0)
  }

  /** The scan of a program's project references: a parsed one's program, built once per config file, replaces the choice when it holds the file. */
  function RefScan(cache: map<string, Program>, refs: seq<Option<ResolvedReference>>, build: ProgramSpec -> Program, fileName: string): (map<string, Program>, Option<Program>)
    decreases |refs|
  {
    if |refs| == 0 then (cache, None)
    else
      var (m, found) := RefScan(cache, refs[..|refs| - 1], build, fileName);
      var ref := refs[|refs| - 1];
      if ref.None? || ref.value.commandLine.None? then (m, found)
      else
        var cl := ref.value.commandLine.value;
        var key := ref.value.configFileName;
        var program := if key in m then m[key] else build(ProgramSpec(cl.fileNames, [], cl.options, cl.projectReferences));
        (m[key := program], if Holds(program, fileName) then Some(program) else found)
  }

  /**
   * A program the scan chooses holds the file as a file of its own; a
   * reference program built before is reused, and every program cached
   * stays cached.
   */
  lemma {:induction false} RefScanChoice(cache: map<string, Program>, refs: seq<Option<ResolvedReference>>, build: ProgramSpec -> Program, fileName: string)
    ensures var (m, found) := RefScan(cache, refs, build, fileName);
      && (found.Some? ==> Holds(found.value, fileName))
      && (forall k :: k in cache ==> k in m && m[k] == cache[k])
    decreases |refs|
  {
    if |refs| > 0 {
      RefScanChoice(cache, refs[..|refs| - 1], build, fileName);
    }
  }

  /** What `getModule` returns: the code, and the source file and program when one has the module. */
  datatype ResolvedModule = ResolvedModule(code: Option<string>, source: Option<SourceInfo>, program: Option<Program>)

  /** `program.getSourceFile(fileName)`. */
  function SourceOf(p: Program, fileName: string): Option<SourceInfo>
  {
    if fileName in p.sourceFiles then Some(p.sourceFiles[fileName]) else None
  }

  /** The module as found in `p`: `source?.getFullText()`, the source and the program. */
  function Found(p: Program, fileName: string): ResolvedModule
  {
    var source := SourceOf(p, fileName);
    ResolvedModule(if source.Some? then Some(source.value.fullText) else None, source, Some(p))
  }

  /** `DtsPluginContext`: the entries, the programs made so far and the resolved options. */
  class Context {
    const entries: seq<string>
    var programs: seq<Program>
    const compilerOptions: Options
    const tsconfig: Option<string>

    constructor (entries: seq<string>, programs: seq<Program>, compilerOptions: Options, tsconfig: Option<string>)
      ensures this.entries == entries && this.programs == programs
      ensures this.compilerOptions == compilerOptions && this.tsconfig == tsconfig
    {
      this.entries := entries;
      this.programs := programs;
      this.compilerOptions := compilerOptions;
      this.tsconfig := tsconfig;
    }
  }

  /** The body of `createPrograms`'s loop once an input's options are known. */
  method AddInput(programs: seq<ProgramSpec>, inputs: seq<string>, dirName: string, compilerOptions: Options,
                  projectReferences: Option<seq<string>>, dtsFiles: seq<string>, main: string, options: CompilerResult)
    returns (programs': seq<ProgramSpec>, inputs': seq<string>, dirName': string, compilerOptions': Options,
             projectReferences': Option<seq<string>>, dtsFiles': seq<string>)
    ensures Grouping(programs', inputs', dirName', compilerOptions', projectReferences', dtsFiles')
      == GroupNext(Grouping(programs, inputs, dirName, compilerOptions, projectReferences, dtsFiles), main, options)
  {
    programs', inputs', dirName', compilerOptions', projectReferences' := programs, inputs, dirName, compilerOptions, projectReferences;
    dtsFiles' := AddAll(dtsFiles, options.dtsFiles);
    if |inputs| == 0 {
      inputs' := [main];
      dirName' := options.dirName;
      compilerOptions' := options.compilerOptions;
      projectReferences' := options.projectReferences;
    } else if options.dirName == dirName {
      inputs' := inputs + [main];
    } else {
      programs' := programs + [ProgramSpec(inputs, dtsFiles', compilerOptions, projectReferences)];
      inputs' := [main];
      dirName' := options.dirName;
      compilerOptions' := options.compilerOptions;
    }
  }

  /** The module-level caches `configByPath` and `refPrograms`, with the host they query. */
  class Session {
    const host: Host
    /** How deep the project-reference recursion may go before the stack runs out. */
    const depth: nat
    var configByPath: map<string, ParsedConfig>
    var refPrograms: map<string, Program>

    constructor (host: Host, depth: nat)
      ensures this.host == host && this.depth == depth && configByPath == map[] && refPrograms == map[]
    {
      this.host := host;
      this.depth := depth;
      configByPath := map[];
      refPrograms := map[];
    }

    /** The decision for a cached config: the directory stays the input's own. */
    function Hit(input: string, overrideOptions: Options, config: ParsedConfig): Option<CompilerResult>
    {
      Decide(input, Spread(DefaultOptions, overrideOptions), config, Dirname(input), host.pathKeyMatches)
    }

    /** The config file a cache miss looks up: the override path made absolute, else the nearest config found from the input's directory. */
    function ConfigPath(input: string, overrideConfigPath: Option<string>): Option<string>
    {
      if overrideConfigPath.Some? && overrideConfigPath.value != "" then Some(Resolve(host.cwd, overrideConfigPath.value))
      else host.findConfigFile(Dirname(input))
    }

    /** The cache after a miss read `config` from `configPath`: an override config under its own path only, else every directory from the input's up to the config's. */
    function Cached(m: map<string, ParsedConfig>, input: string, overrideConfigPath: Option<string>, configPath: string, config: ParsedConfig): map<string, ParsedConfig>
    {
      if overrideConfigPath.Some? && overrideConfigPath.value != "" then CacheFilled(m, overrideConfigPath.value, overrideConfigPath.value, config)
      else CacheFilled(m, Dirname(input), Dirname(configPath), config)
    }

    /** `cacheConfig([fromPath, toPath], config)`. */
    method CacheConfig(fromPath: string, toPath: string, config: ParsedConfig)
      modifies this
      ensures configByPath == CacheFilled(old(configByPath), fromPath, toPath, config)
      ensures refPrograms == old(refPrograms)
    {
      configByPath := configByPath[fromPath := config];
      var p := fromPath;
      while p != toPath && p != Dirname(p)
        invariant CacheFilled(old(configByPath), fromPath, toPath, config) == Filled(configByPath, p, toPath, config)
        invariant refPrograms == old(refPrograms)
        decreases DirMeasure(p)
      {
        p := Dirname(p);
        if p in configByPath {
          return;
        }
        configByPath := configByPath[p := config];
      }
    }

    /**
     * `getCompilerOptions(input, overrideOptions, overrideConfigPath)`. A
     * cached config for the cache key is used as it is; otherwise the config
     * file is looked up, read and cached. The outcome is the decision for
     * that config, else the first project reference whose attempt does not
     * throw, else the error that the module is not included.
     */
    method GetCompilerOptions(input: string, overrideOptions: Options, overrideConfigPath: Option<string>, fuel: nat)
      returns (r: Result<CompilerResult>)
      modifies this
      ensures fuel == 0 ==> r == Err(DepthExhausted)
      ensures fuel > 0 && r.Err? ==> r.error == NotIncluded(input, CacheKey(input, overrideConfigPath))
      ensures var key := CacheKey(input, overrideConfigPath);
        fuel > 0 && key in old(configByPath) && Hit(input, overrideOptions, old(configByPath)[key]).Some? ==>
          r == Ok(Hit(input, overrideOptions, old(configByPath)[key]).value) && configByPath == old(configByPath)
      ensures var key := CacheKey(input, overrideConfigPath); var cp := ConfigPath(input, overrideConfigPath);
        fuel > 0 && key !in old(configByPath) && (cp.None? || cp.value == "") ==>
          r == Ok(CompilerResult([], Dirname(input), Spread(DefaultOptions, overrideOptions), None)) && configByPath == old(configByPath)
      ensures var key := CacheKey(input, overrideConfigPath); var cp := ConfigPath(input, overrideConfigPath);
        fuel > 0 && key !in old(configByPath) && cp.Some? && cp.value != "" && host.readConfig(cp.value).None? ==>
          r == Ok(CompilerResult([], Dirname(cp.value), Spread(DefaultOptions, overrideOptions), None)) && configByPath == old(configByPath)
      ensures var key := CacheKey(input, overrideConfigPath); var cp := ConfigPath(input, overrideConfigPath);
        fuel > 0 && key !in old(configByPath) && cp.Some? && cp.value != "" && host.readConfig(cp.value).Some? ==>
          var config := host.readConfig(cp.value).value;
          var decision := Decide(input, Spread(DefaultOptions, overrideOptions), config, Dirname(cp.value), host.pathKeyMatches);
          decision.Some? ==> r == Ok(decision.value) && configByPath == Cached(old(configByPath), input, overrideConfigPath, cp.value, config)
      ensures refPrograms == old(refPrograms)
      decreases fuel
    {
      if fuel == 0 {
        return Err(DepthExhausted);
      }
      var compilerOptions := Spread(DefaultOptions, overrideOptions);
      var dirName := Dirname(input);
      var given := overrideConfigPath.Some? && overrideConfigPath.value != "";
      var cacheKey := CacheKey(input, overrideConfigPath);
      if cacheKey !in configByPath {
        var configPath := if given then Some(Resolve(host.cwd, overrideConfigPath.value)) else host.findConfigFile(dirName);
        if configPath.None? || configPath.value == "" {
          return Ok(CompilerResult([], dirName, compilerOptions, None));
        }
        var inputDirName := dirName;
        dirName := Dirname(configPath.value);
        var parsed := host.readConfig(configPath.value);
        if parsed.None? {
          return Ok(CompilerResult([], dirName, compilerOptions, None));
        }
        if given {
          CacheConfig(overrideConfigPath.value, overrideConfigPath.value, parsed.value);
          CacheFilledEffect(old(configByPath), overrideConfigPath.value, overrideConfigPath.value, parsed.value);
        } else {
          CacheConfig(inputDirName, dirName, parsed.value);
          CacheFilledEffect(old(configByPath), inputDirName, dirName, parsed.value);
        }
      }
      var config := configByPath[cacheKey];
      var decision := Decide(input, compilerOptions, config, dirName, host.pathKeyMatches);
      if decision.Some? {
        return Ok(decision.value);
      }
      var refs := config.projectReferences;
      var k := 0;
      while k < |refs|
        invariant 0 <= k <= |refs|
        invariant refPrograms == old(refPrograms)
      {
        var attempt := GetCompilerOptions(input, overrideOptions, Some(refs[k]), fuel - 1);
        if attempt.Ok? {
          return attempt;
        }
        k := k + 1;
      }
      return Err(NotIncluded(input, cacheKey));
    }

    /**
     * `createPrograms(input, overrideOptions, tsconfig)`: `resolved` lists the
     * inputs it resolved, with what `getCompilerOptions` gave for each.
     */
    method CreatePrograms(input: seq<string>, overrideOptions: Options, tsconfig: Option<string>)
      returns (r: Result<seq<ProgramSpec>>, ghost resolved: seq<(string, CompilerResult)>)
      modifies this
      ensures r.Ok? ==> Mains(resolved) == Sources(host.cwd, input) && r.value == Programs(resolved)
      ensures r.Err? ==> r.error == DepthExhausted || r.error.NotIncluded?
      ensures refPrograms == old(refPrograms)
    {
      var programs: seq<ProgramSpec> := [];
      var dtsFiles: seq<string> := [];
      var inputs: seq<string> := [];
      var dirName := "";
      var compilerOptions: Options := map[];
      var projectReferences: Option<seq<string>> := Some([]);
      resolved := [];
      var k := 0;
      assert input[..0] == [];
      while k < |input|
        invariant 0 <= k <= |input|
        invariant Mains(resolved) == Sources(host.cwd, input[..k])
        invariant Group(resolved) == Grouping(programs, inputs, dirName, compilerOptions, projectReferences, dtsFiles)
        invariant refPrograms == old(refPrograms)
      {
        assert input[..k + 1][..k] == input[..k];
        var main := input[k];
        if !IsDts(main) {
          main := Resolve(host.cwd, main);
          var options := OptionsFor(main, overrideOptions, tsconfig);
          if options.Err? {
            return Err(options.error), resolved;
          }
          assert (resolved + [(main, options.value)])[..|resolved|] == resolved;
          resolved := resolved + [(main, options.value)];
          programs, inputs, dirName, compilerOptions, projectReferences, dtsFiles :=
            AddInput(programs, inputs, dirName, compilerOptions, projectReferences, dtsFiles, main, options.value);
        }
        k := k + 1;
      }
      assert input[..k] == input;
      if |inputs| > 0 {
        programs := programs + [ProgramSpec(inputs, dtsFiles, compilerOptions, projectReferences)];
      }
      r := Ok(programs);
    }

    /**
     * `getCompilerOptions` at the session's depth: it fails only when the
     * depth runs out or the module is not included, and its result is the
     * cached decision, the caller's options alone, or the config's decision,
     * as `GetCompilerOptions` states.
     */
    method OptionsFor(main: string, overrideOptions: Options, tsconfig: Option<string>) returns (r: Result<CompilerResult>)
      modifies this
      ensures r.Err? ==> r.error == DepthExhausted || r.error.NotIncluded?
      ensures depth > 0 && r.Err? ==> r.error == NotIncluded(main, CacheKey(main, tsconfig))
      ensures var key := CacheKey(main, tsconfig);
        depth > 0 && key in old(configByPath) && Hit(main, overrideOptions, old(configByPath)[key]).Some? ==>
          r == Ok(Hit(main, overrideOptions, old(configByPath)[key]).value) && configByPath == old(configByPath)
      ensures var key := CacheKey(main, tsconfig); var cp := ConfigPath(main, tsconfig);
        depth > 0 && key !in old(configByPath) && (cp.None? || cp.value == "") ==>
          r == Ok(CompilerResult([], Dirname(main), Spread(DefaultOptions, overrideOptions), None)) && configByPath == old(configByPath)
      ensures var key := CacheKey(main, tsconfig); var cp := ConfigPath(main, tsconfig);
        depth > 0 && key !in old(configByPath) && cp.Some? && cp.value != "" && host.readConfig(cp.value).None? ==>
          r == Ok(CompilerResult([], Dirname(cp.value), Spread(DefaultOptions, overrideOptions), None)) && configByPath == old(configByPath)
      ensures var key := CacheKey(main, tsconfig); var cp := ConfigPath(main, tsconfig);
        depth > 0 && key !in old(configByPath) && cp.Some? && cp.value != "" && host.readConfig(cp.value).Some? ==>
          var config := host.readConfig(cp.value).value;
          var decision := Decide(main, Spread(DefaultOptions, overrideOptions), config, Dirname(cp.value), host.pathKeyMatches);
          decision.Some? ==> r == Ok(decision.value) && configByPath == Cached(old(configByPath), main, tsconfig, cp.value, config)
      ensures refPrograms == old(refPrograms)
    {
      r := GetCompilerOptions(main, overrideOptions, tsconfig, depth);
    }

    /** `createProgram(fileName, overrideOptions, tsconfig)`. */
    method CreateProgram(fileName: string, overrideOptions: Options, tsconfig: Option<string>) returns (r: Result<Program>)
      modifies this
      ensures r.Ok? ==> exists o: CompilerResult :: r.value == host.build(ProgramSpec([fileName], o.dtsFiles, o.compilerOptions, o.projectReferences))
      ensures r.Err? ==> r.error == DepthExhausted || r.error.NotIncluded?
      ensures refPrograms == old(refPrograms)
    {
      var options :- GetCompilerOptions(fileName, overrideOptions, tsconfig, depth);
      r := Ok(host.build(ProgramSpec([fileName], options.dtsFiles, options.compilerOptions, options.projectReferences)));
    }

    /** The scan of the chosen program's project references in `getModule`. */
    method ScanReferences(refs: seq<Option<ResolvedReference>>, fileName: string) returns (found: Option<Program>)
      modifies this
      ensures (refPrograms, found) == RefScan(old(refPrograms), refs, host.build, fileName)
      ensures configByPath == old(configByPath)
    {
      found := None;
      var k := 0;
      assert refs[..0] == [];
      while k < |refs|
        invariant 0 <= k <= |refs|
        invariant (refPrograms, found) == RefScan(old(refPrograms), refs[..k], host.build, fileName)
        invariant configByPath == old(configByPath)
      {
        assert refs[..k + 1][..k] == refs[..k];
        var ref := refs[k];
        if ref.Some? && ref.value.commandLine.Some? {
          var cl := ref.value.commandLine.value;
          var key := ref.value.configFileName;
          var program := if key in refPrograms then refPrograms[key] else host.build(ProgramSpec(cl.fileNames, [], cl.options, cl.projectReferences));
          refPrograms := refPrograms[key := program];
          if Holds(program, fileName) {
            found := Some(program);
          }
        }
        k := k + 1;
      }
      assert refs[..k] == refs;
    }

    /**
     * `getModule(ctx, fileName, code)`: with no programs, a declaration file
     * is its own code; otherwise the first program that picks the module, or
     * the last of its reference programs holding it; otherwise a new program
     * for a file on disk, added to the context's programs; otherwise nothing.
     */
    method GetModule(ctx: Context, fileName: string, code: string) returns (r: Result<Option<ResolvedModule>>)
      modifies this, ctx
      ensures |old(ctx.programs)| == 0 && IsDts(fileName) ==>
        r == Ok(Some(ResolvedModule(Some(code), None, None)))
        && ctx.programs == old(ctx.programs) && refPrograms == old(refPrograms) && configByPath == old(configByPath)
      ensures !(|old(ctx.programs)| == 0 && IsDts(fileName)) ==>
        match FirstPick(old(ctx.programs), fileName, fileName in ctx.entries)
        case Some(i) =>
          var scan := RefScan(old(refPrograms), old(ctx.programs)[i].references, host.build, fileName);
          r == Ok(Some(Found(if scan.1.Some? then scan.1.value else old(ctx.programs)[i], fileName)))
          && refPrograms == scan.0 && ctx.programs == old(ctx.programs) && configByPath == old(configByPath)
        case None =>
          refPrograms == old(refPrograms)
          && (!host.fileExists(fileName) ==> r == Ok(None) && ctx.programs == old(ctx.programs) && configByPath == old(configByPath))
          && (host.fileExists(fileName) && r.Ok? ==>
                exists o: CompilerResult ::
                  var p := host.build(ProgramSpec([fileName], o.dtsFiles, o.compilerOptions, o.projectReferences));
                  r == Ok(Some(Found(p, fileName))) && ctx.programs == old(ctx.programs) + [p])
          && (r.Err? ==> ctx.programs == old(ctx.programs) && (r.error == DepthExhausted || r.error.NotIncluded?))
    {
      if |ctx.programs| == 0 && IsDts(fileName) {
        return Ok(Some(ResolvedModule(Some(code), None, None)));
      }
      var isEntry := fileName in ctx.entries;
      var pick := FirstPick(ctx.programs, fileName, isEntry);
      if pick.Some? {
        var existing := ctx.programs[pick.value];
        var replaced := ScanReferences(existing.references, fileName);
        if replaced.Some? {
          existing := replaced.value;
        }
        return Ok(Some(Found(existing, fileName)));
      } else if host.fileExists(fileName) {
        var newProgram :- CreateProgram(fileName, ctx.compilerOptions, ctx.tsconfig);
        ctx.programs := ctx.programs + [newProgram];
        return Ok(Some(Found(newProgram, fileName)));
      } else {
        return Ok(None);
      }
    }
  }
}
