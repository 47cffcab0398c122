/** The earlier project iteration (src/project.rs): its own language, unit
    type and compiler codecs, the unit record with mandatory directories,
    `init`, `add_unit`, and the per-unit build preparation.

    This file predates src/config/: the language is spelled `cpp` rather
    than `c++`, source discovery does not descend into sub-directories, and
    the language and compiler are optional fields that the build insists on.
    `cfg!(target_os = "windows")` is the parameter `windows`.
 */
module LegacyProject {
  import opened Results
  import opened Text
  import opened Paths
  import opened FileTree
  import opened Schema
  import Languages
  import Compilers
  import ConfigDefaults
  import UnitConfig
  import ProjectConfig

  const LEGACY_CPP_STR: string := "cpp"

  /** `Into<String>` for `CopperProjectLanguage`. */
  function LanguageToString(l: Languages.Language): string {
    match l
    case C => "c"
    case Cpp => LEGACY_CPP_STR
  }

  /** `TryFrom<String>` for `CopperProjectLanguage`: lower-cased, not
      trimmed. */
  function ParseLanguage(s: string): Result<Languages.Language> {
    var t := Lower(s);
    if t == "c" then Ok(Languages.C)
    else if t == LEGACY_CPP_STR then Ok(Languages.Cpp)
    else Err(EnumParseError(s))
  }

  /** The legacy language parser accepts exactly the printed spellings up to
      ASCII case, and round-trips them. */
  lemma ParseLanguageSpec(s: string, l: Languages.Language)
    ensures ParseLanguage(s) == Ok(l) <==> EqualsIgnoringCase(s, LanguageToString(l))
    ensures ParseLanguage(s).Err? ==> ParseLanguage(s) == Err(EnumParseError(s))
    ensures ParseLanguage(LanguageToString(l)) == Ok(l)
  {
    var w := LanguageToString(l);
    if EqualsIgnoringCase(s, w) {
      assert Lower(s) == w;
    }
    assert Lower(w) == w;
  }

  /** The two iterations spell C++ differently, so neither reads the other's
      C++ project file: `cpp` is only legacy, `c++` only current. */
  lemma CppSpellingsDisagree()
    ensures ParseLanguage(Languages.ToString(Languages.Cpp)).Err?
    ensures Languages.Parse(LanguageToString(Languages.Cpp)).Err?
    ensures ParseLanguage(Languages.ToString(Languages.C)) == Ok(Languages.C)
    ensures Languages.Parse(LanguageToString(Languages.C)) == Ok(Languages.C)
  {
    assert Lower("cpp") == "cpp";
    TrimOfBare("cpp");
    assert Languages.Parse("cpp").Err?;
    assert Lower("c++") == "c++";
    assert ParseLanguage("c++").Err?;
    assert Lower("c") == "c";
    assert ParseLanguage("c") == Ok(Languages.C);
    Languages.RoundTrip(Languages.C);
  }

  /** `all_extensions`. */
  function AllExtensions(l: Languages.Language): seq<string> {
    match l
    case C => ["c", "h"]
    case Cpp => ["c", "cpp", "h", "hpp"]
  }

  /** `source_extensions`. */
  function SourceExtensions(l: Languages.Language): seq<string> {
    match l
    case C => ["c"]
    case Cpp => ["c", "cpp"]
  }

  /** `header_extensions`. */
  function HeaderExtensions(l: Languages.Language): seq<string> {
    match l
    case C => ["h"]
    case Cpp => ["h", "hpp"]
  }

  /** The extensions split into sources then headers, with no extension in
      both; the source list is the one the current iteration filters by. */
  lemma ExtensionsPartition(l: Languages.Language)
    ensures AllExtensions(l) == SourceExtensions(l) + HeaderExtensions(l)
    ensures forall e :: e in SourceExtensions(l) ==> e !in HeaderExtensions(l)
    ensures SourceExtensions(l) == Languages.Extensions(l)
  {
  }

  /** The compiler codec of this file is character for character the one
      duplicated in src/config/project.rs, `ProjectConfig.StrictParseCompiler`. */
  function ParseCompiler(s: string): Result<Compilers.Compiler> {
    ProjectConfig.StrictParseCompiler(s)
  }

  /** The legacy compiler codec round-trips every compiler, and what it
      accepts is the printed spelling up to ASCII case. */
  lemma CompilerCodec(s: string, c: Compilers.Compiler)
    ensures ParseCompiler(Compilers.ToString(c)) == Ok(c)
    ensures ParseCompiler(s).Ok? ==> Compilers.ToString(ParseCompiler(s).value) == Lower(s)
    ensures ParseCompiler(s).Err? ==> ParseCompiler(s) == Err(EnumParseError(s))
  {
    ProjectConfig.StrictRoundTrip(Languages.C, c);
  }

  /** `TryFrom<String>` for this file's `UnitType`: the same spellings as in
      src/config/unit.rs, but failures are `EnumParseError`. */
  function ParseUnitType(s: string): Result<UnitType> {
    var t := Lower(s);
    if t == UnitConfig.BINARY_STR then Ok(Binary)
    else if t == UnitConfig.STATIC_LIBRARY_STR then Ok(StaticLibrary)
    else Err(EnumParseError(s))
  }

  /** Both iterations' unit-type parsers accept the same inputs with the same
      result and differ only in the error variant. */
  lemma UnitTypeParsersAgree(s: string, t: UnitType)
    ensures ParseUnitType(UnitConfig.UnitTypeToString(t)) == Ok(t)
    ensures ParseUnitType(s).Ok? <==> UnitConfig.ParseUnitType(s).Ok?
    ensures ParseUnitType(s).Ok? ==> ParseUnitType(s) == UnitConfig.ParseUnitType(s)
    ensures ParseUnitType(s).Err? ==>
      ParseUnitType(s) == Err(EnumParseError(s)) && UnitConfig.ParseUnitType(s) == Err(InvalidUnitType(s))
  {
    UnitConfig.UnitTypeRoundTrip(t);
  }

  /** This file's `CopperUnit`: both directories are mandatory. */
  datatype LegacyUnit = LegacyUnit(name: string, kind: UnitType, source: Path,
                                   outputDirectory: Path, intermediateDirectory: Path)

  /** This file's `CopperProject`; language and compiler may be unset. */
  datatype LegacyProject = LegacyProject(
    name: string,
    language: Option<Languages.Language>,
    compiler: Option<Compilers.Compiler>,
    units: seq<LegacyUnit>,
    defaultBuildDirectory: Path,
    location: Path)

  /** `CopperProject::init`: no language, no compiler, no units. */
  function Init(name: string, directory: Path): (p: LegacyProject)
    ensures p.name == name && p.location == directory
    ensures p.language.None? && p.compiler.None? && p.units == []
    ensures p.defaultBuildDirectory == ConfigDefaults.BuildDirectory()
  {
    LegacyProject(name, None, None, [], ["build"], directory)
  }

  /** `add_unit`: appends one unit under the build directory's `bin`/`lib`
      and `obj`, as the current iteration does. */
  function AddUnit(p: LegacyProject, name: string, kind: UnitType, source: Path): (p': LegacyProject)
    ensures |p'.units| == |p.units| + 1 && p'.units[..|p.units|] == p.units
    ensures p'.units[|p.units|].name == name && p'.units[|p.units|].kind == kind
    ensures p'.units[|p.units|].source == source
    ensures p'.(units := p.units) == p
  {
    var dir := ProjectConfig.TypeDirectory(kind);
    p.(units := p.units + [LegacyUnit(name, kind, source, p.defaultBuildDirectory + dir,
                                      p.defaultBuildDirectory + ["obj"])])
  }

  /** Both iterations lay out an added unit's directories identically. */
  lemma AddUnitIterationsAgree(p: LegacyProject, q: Project, name: string, kind: UnitType, source: Path)
    requires p.defaultBuildDirectory == q.defaultBuildDirectory
    ensures var u := AddUnit(p, name, kind, source).units[|p.units|];
      var v := ProjectConfig.AddUnit(q, name, kind, source).units[|q.units|];
      && v.outputDirectory == Some(u.outputDirectory)
      && v.intermediateDirectory == Some(u.intermediateDirectory)
      && u.outputDirectory == p.defaultBuildDirectory + (if kind == Binary then ["bin"] else ["lib"])
  {
  }

  /** Source discovery of this iteration: the direct entries of the unit
      directory whose name carries a source extension, in listing order.
      Sub-directories are not entered, and an entry is not checked to be a
      file. */
  function SourceFiles(entries: seq<Node>, dir: Path, exts: seq<string>): (r: seq<Path>)
    ensures |r| <= |entries|
    ensures forall q :: q in r <==>
      exists k :: 0 <= k < |entries| && q == dir + [entries[k].name] && UnitConfig.Accepts(entries[k].name, exts)
  {
    if |entries| == 0 then []
    else
      var rest := SourceFiles(entries[1..], dir, exts);
      assert forall k :: 1 <= k < |entries| ==> entries[k] == entries[1..][k - 1];
      (if UnitConfig.Accepts(entries[0].name, exts) then [dir + [entries[0].name]] else []) + rest
  }

  /** Discovery keeps the listing order: the sources of `a + b` are those of
      `a` followed by those of `b`. */
  lemma {:induction false} SourceFilesOfJoin(a: seq<Node>, b: seq<Node>, dir: Path, exts: seq<string>)
    ensures SourceFiles(a + b, dir, exts) == SourceFiles(a, dir, exts) + SourceFiles(b, dir, exts)
    decreases |a|
  {
    if |a| == 0 {
      assert a + b == b;
    } else {
      var head := if UnitConfig.Accepts(a[0].name, exts) then [dir + [a[0].name]] else [];
      assert (a + b)[0] == a[0];
      assert (a + b)[1..] == a[1..] + b;
      assert SourceFiles(a, dir, exts) == head + SourceFiles(a[1..], dir, exts);
      assert SourceFiles(a + b, dir, exts) == head + SourceFiles(a[1..] + b, dir, exts);
      SourceFilesOfJoin(a[1..], b, dir, exts);
    }
  }

  /** The iterations disagree on a directory whose name looks like a source:
      this one lists it, the current one looks inside it. */
  lemma DirectoryNamedLikeSource()
    ensures var d := Dir("src", [Dir("a.c", [])]);
      && SourceFiles(d.children, ["src"], SourceExtensions(Languages.C)) == [["src", "a.c"]]
      && UnitConfig.SourceFiles(d, ["src"], Languages.Extensions(Languages.C)) == []
  {
    assert Extension("a.c") == Some("c") by {
      ExtensionOfJoin("a", "c");
    }
    var d := Dir("src", [Dir("a.c", [])]);
    assert UnitConfig.CollectFrom(d.children[0], ["src", "a.c"], ["c"], 0) == [];
    assert UnitConfig.VisitEntry(d.children[0], ["src"], ["c"]) == [];
    assert UnitConfig.CollectFrom(d, ["src"], ["c"], 1) == [];
    assert UnitConfig.CollectFrom(d, ["src"], ["c"], 0) == [];
    assert Languages.Extensions(Languages.C) == ["c"];
    assert UnitConfig.Accepts("a.c", ["c"]);
    assert d.children[1..] == [];
    assert SourceFiles([], ["src"], ["c"]) == [];
    assert ["src"] + ["a.c"] == ["src", "a.c"];
    assert SourceFiles(d.children, ["src"], ["c"]) == [["src", "a.c"]];
  }

  /** The unit's output file: its name in the output directory, with `.exe`
      for a binary on Windows and `.lib` for a static library. */
  function OutputFile(p: LegacyProject, u: LegacyUnit, windows: bool): Path {
    var dir := p.location + u.outputDirectory;
    match u.kind
    case Binary => dir + [if windows then SetExtension(u.name, "exe") else u.name]
    case StaticLibrary => dir + [SetExtension(u.name, "lib")]
  }

  /** The output file lies in the unit's output directory and carries the
      platform's extension (none for a binary off Windows). */
  lemma OutputFileExtension(p: LegacyProject, u: LegacyUnit, windows: bool)
    requires u.name != "" && u.name != "." && u.name != ".."
    ensures var f := OutputFile(p, u, windows);
      && |f| == |p.location + u.outputDirectory| + 1
      && f[..|f| - 1] == p.location + u.outputDirectory
      && (u.kind == StaticLibrary ==> Extension(f[|f| - 1]) == Some("lib"))
      && (u.kind == Binary && windows ==> Extension(f[|f| - 1]) == Some("exe"))
      && (u.kind == Binary && !windows ==> f[|f| - 1] == u.name)
  {
    ExtensionAfterSet(u.name, "lib");
    ExtensionAfterSet(u.name, "exe");
    var f := OutputFile(p, u, windows);
    assert f[..|f| - 1] == p.location + u.outputDirectory;
  }

  /** What `CopperUnit::build` hands to the compiler back end. */
  datatype Prepared = Prepared(
    name: string,
    kind: UnitType,
    sourceFiles: seq<Path>,
    outputDirectory: Path,
    intermediateDirectory: Path,
    outputFile: Path,
    compiler: Compilers.Compiler)

  /** `CopperUnit::build` up to the hand-over to the compiler: the unit
      directory must be readable, then the language set, then the compiler
      set and implemented (only GCC is). An empty source list is not an
      error here, and a static library is prepared like a binary. */
  function PrepareUnit(p: LegacyProject, u: LegacyUnit, fs: Node, windows: bool): (r: Result<Prepared>)
    ensures DirectoryAt(fs, p.location + u.source).None? <==> r == Err(SourceDirectoryUnreadable(p.location + u.source))
    ensures r == Err(MissingConfigError("language")) <==>
      DirectoryAt(fs, p.location + u.source).Some? && p.language.None?
    ensures r == Err(MissingConfigError("compiler")) <==>
      DirectoryAt(fs, p.location + u.source).Some? && p.language.Some? && p.compiler.None?
    ensures r.Err? && r.error.Unimplemented? <==>
      DirectoryAt(fs, p.location + u.source).Some? && p.language.Some? && p.compiler.Some? && p.compiler.value != Compilers.Gcc
    ensures r.Ok? <==>
      DirectoryAt(fs, p.location + u.source).Some? && p.language.Some? && p.compiler == Some(Compilers.Gcc)
    ensures r.Ok? ==> r.value.compiler == Compilers.Gcc
    ensures r.Ok? ==> r.value.name == u.name && r.value.kind == u.kind
    ensures r.Ok? ==>
      r.value.sourceFiles == SourceFiles(DirectoryAt(fs, p.location + u.source).value.children, p.location + u.source, SourceExtensions(p.language.value))
    ensures r.Ok? ==> r.value.outputDirectory == p.location + u.outputDirectory
    ensures r.Ok? ==> r.value.intermediateDirectory == p.location + u.intermediateDirectory
    ensures r.Ok? ==> r.value.outputFile == OutputFile(p, u, windows)
  {
    var unitPath := p.location + u.source;
    match DirectoryAt(fs, unitPath)
    case None => Err(SourceDirectoryUnreadable(unitPath))
    case Some(d) =>
      match p.language
      case None => Err(MissingConfigError("language"))
      case Some(l) =>
        var sources := SourceFiles(d.children, unitPath, SourceExtensions(l));
        match p.compiler
        case None => Err(MissingConfigError("compiler"))
        case Some(c) =>
          if c != Compilers.Gcc then Err(Unimplemented("compiler " + Compilers.ToString(c)))
          else Ok(Prepared(u.name, u.kind, sources, p.location + u.outputDirectory,
                           p.location + u.intermediateDirectory, OutputFile(p, u, windows), c))
  }

  /** Runs `prepare` on every unit in order; the first failure ends the run. */
  function PrepareEach(units: seq<LegacyUnit>, prepare: LegacyUnit -> Result<Prepared>): (r: Result<seq<Prepared>>)
    ensures r.Ok? <==> forall k :: 0 <= k < |units| ==> prepare(units[k]).Ok?
    ensures r.Ok? ==> |r.value| == |units|
    ensures r.Ok? ==> forall k :: 0 <= k < |units| ==> r.value[k] == prepare(units[k]).value
    ensures r.Err? ==>
      exists k :: (&& 0 <= k < |units| && prepare(units[k]).Err? && r.error == prepare(units[k]).error
                   && forall j :: 0 <= j < k ==> prepare(units[j]).Ok?)
    decreases |units|
  {
    if |units| == 0 then Ok([])
    else
      match prepare(units[0])
      case Err(e) => Err(e)
      case Ok(first) =>
        var rest := PrepareEach(units[1..], prepare);
        assert forall k :: 1 <= k < |units| ==> units[k] == units[1..][k - 1];
        if rest.Err? then
          var k :| && 0 <= k < |units[1..]| && prepare(units[1..][k]).Err?
                   && rest.error == prepare(units[1..][k]).error
                   && forall j :: 0 <= j < k ==> prepare(units[1..][j]).Ok?;
          assert forall j :: 0 <= j < k + 1 ==> prepare(units[j]).Ok?;
          Err(rest.error)
        else Ok([first] + rest.value)
  }

  /** `CopperProject::build`: every unit of the project in order; the first
      failure ends the run. */
  function PrepareAll(p: LegacyProject, fs: Node, windows: bool): (r: Result<seq<Prepared>>)
    ensures r.Ok? <==> forall k :: 0 <= k < |p.units| ==> PrepareUnit(p, p.units[k], fs, windows).Ok?
    ensures r.Ok? ==> |r.value| == |p.units|
    ensures r.Ok? ==> forall k :: 0 <= k < |p.units| ==> r.value[k] == PrepareUnit(p, p.units[k], fs, windows).value
    ensures r.Err? ==>
      exists k :: (&& 0 <= k < |p.units| && PrepareUnit(p, p.units[k], fs, windows).Err?
                   && r.error == PrepareUnit(p, p.units[k], fs, windows).error
                   && forall j :: 0 <= j < k ==> PrepareUnit(p, p.units[j], fs, windows).Ok?)
  {
    PrepareEach(p.units, u => PrepareUnit(p, u, fs, windows))
  }
}
