/** Unit configuration (src/config/unit.rs): the unit-type codec, unit
    construction, and the resolution of a unit's target information
    (`get_compile_options`) against its project and the file system. */
module UnitConfig {
  import opened Results
  import opened Text
  import opened Paths
  import opened FileTree
  import opened Schema
  import Languages
  import opened CompilerApi

  const BINARY_STR: string := "binary"
  const STATIC_LIBRARY_STR: string := "static-library"

  /** `Into<String>` for `UnitType`. */
  function UnitTypeToString(t: UnitType): string {
    match t
    case Binary => BINARY_STR
    case StaticLibrary => STATIC_LIBRARY_STR
  }

  /** `Display` for `UnitType`. */
  function UnitTypeDisplay(t: UnitType): string {
    match t
    case Binary => "binary"
    case StaticLibrary => "static-library"
  }

  /** `get_strings`. */
  function UnitTypeStrings(): seq<string> {
    [BINARY_STR, STATIC_LIBRARY_STR]
  }

  /** `TryFrom<String>` for `UnitType`: lower-cased (not trimmed); the error
      carries the raw input. */
  function ParseUnitType(s: string): Result<UnitType> {
    var t := Lower(s);
    if t == BINARY_STR then Ok(Binary)
    else if t == STATIC_LIBRARY_STR then Ok(StaticLibrary)
    else Err(InvalidUnitType(s))
  }

  /** The unit-type parser accepts a spelling exactly when it equals the
      printed form up to ASCII case (surrounding white space is not
      accepted); otherwise `InvalidUnitType` carries the input. */
  lemma ParseUnitTypeSpec(s: string, t: UnitType)
    ensures ParseUnitType(s) == Ok(t) <==> EqualsIgnoringCase(s, UnitTypeToString(t))
    ensures ParseUnitType(s).Err? ==> ParseUnitType(s) == Err(InvalidUnitType(s))
  {
    var w := UnitTypeToString(t);
    if EqualsIgnoringCase(s, w) {
      assert Lower(s) == w;
    }
  }

  /** Printing then parsing gives back the unit type, and `Display` agrees
      with `Into<String>`. */
  lemma UnitTypeRoundTrip(t: UnitType)
    ensures ParseUnitType(UnitTypeToString(t)) == Ok(t)
    ensures UnitTypeDisplay(t) == UnitTypeToString(t)
  {
    var w := UnitTypeToString(t);
    assert Lower(w) == w;
  }

  /** Padding is not trimmed by this parser, unlike the language parser. */
  lemma UnitTypePaddingRejected()
    ensures ParseUnitType(" binary") == Err(InvalidUnitType(" binary"))
    ensures ParseUnitType("BINARY") == Ok(Binary)
  {
    assert Lower("BINARY") == "binary";
    assert |Lower(" binary")| == 7;
  }

  /** `CopperUnit::new`: both directories are stored as explicit overrides;
      every other argument is stored as given. */
  function NewUnit(name: string, kind: UnitType, source: Path, output: Path, intermediate: Path,
                   includes: Option<seq<Path>>, args: Option<string>): (u: Unit)
    ensures u.outputDirectory == Some(output) && u.intermediateDirectory == Some(intermediate)
    ensures u.name == name && u.kind == kind && u.source == source
    ensures u.includePaths == includes && u.additionalCompilerArgs == args
  {
    Unit(name, kind, source, Some(output), Some(intermediate), includes, args)
  }

  /** `generate_output_directory`: the project's build directory joined with
      its binary or library directory, by unit type. */
  function GenerateOutputDirectory(p: Project, kind: UnitType): Path {
    match kind
    case Binary => p.defaultBuildDirectory + p.defaultBinaryDirectory
    case StaticLibrary => p.defaultBuildDirectory + p.defaultLibraryDirectory
  }

  /** `generate_intermediate_directory`: build directory joined with the
      object directory, whatever the unit type. */
  function GenerateIntermediateDirectory(p: Project): Path {
    p.defaultBuildDirectory + p.defaultObjectDirectory
  }

  /** The unit's output directory under the project root: the override
      when set, else the derived directory. */
  function ResolvedOutputDirectory(p: Project, u: Unit): (d: Path)
    ensures u.outputDirectory.Some? ==> d == p.location + u.outputDirectory.value
    ensures u.outputDirectory.None? && u.kind == Binary ==>
      d == p.location + p.defaultBuildDirectory + p.defaultBinaryDirectory
    ensures u.outputDirectory.None? && u.kind == StaticLibrary ==>
      d == p.location + p.defaultBuildDirectory + p.defaultLibraryDirectory
  {
    p.location + u.outputDirectory.GetOr(GenerateOutputDirectory(p, u.kind))
  }

  /** The unit's intermediate directory under the project root: the
      override when set, else the derived one, regardless of unit type. */
  function ResolvedIntermediateDirectory(p: Project, u: Unit): (d: Path)
    ensures u.intermediateDirectory.Some? ==> d == p.location + u.intermediateDirectory.value
    ensures u.intermediateDirectory.None? ==>
      d == p.location + p.defaultBuildDirectory + p.defaultObjectDirectory
  {
    p.location + u.intermediateDirectory.GetOr(GenerateIntermediateDirectory(p))
  }

  /** Without overrides, the derived directories depend only on the project
      defaults and the unit type: units of one type share them, and the
      intermediate directory is shared by every unit. */
  lemma DerivedDirectoriesShared(p: Project, u: Unit, v: Unit)
    requires u.outputDirectory.None? && v.outputDirectory.None?
    requires u.intermediateDirectory.None? && v.intermediateDirectory.None?
    ensures u.kind == v.kind ==> ResolvedOutputDirectory(p, u) == ResolvedOutputDirectory(p, v)
    ensures ResolvedIntermediateDirectory(p, u) == ResolvedIntermediateDirectory(p, v)
    ensures u.kind != v.kind && p.defaultBinaryDirectory != p.defaultLibraryDirectory ==>
      ResolvedOutputDirectory(p, u) != ResolvedOutputDirectory(p, v)
  {
    if u.kind != v.kind && p.defaultBinaryDirectory != p.defaultLibraryDirectory {
      var pre := p.location + p.defaultBuildDirectory;
      var a, b := ResolvedOutputDirectory(p, u), ResolvedOutputDirectory(p, v);
      assert a[|pre|..] != b[|pre|..];
    }
  }

  /** Each path joined under `root`, in order. */
  function JoinAll(root: Path, paths: seq<Path>): (r: seq<Path>)
    ensures |r| == |paths|
    ensures forall k :: 0 <= k < |paths| ==> r[k] == root + paths[k]
  {
    if |paths| == 0 then [] else [root + paths[0]] + JoinAll(root, paths[1..])
  }

  /** Lines 111-129 of `get_compile_options`: the global include paths
      followed by the unit's, each joined under the project root; `None`
      when the combined list is empty. */
  function ResolveIncludePaths(p: Project, u: Unit): (r: Option<seq<Path>>)
    ensures r.None? <==> |p.globalIncludePaths.GetOr([])| + |u.includePaths.GetOr([])| == 0
    ensures r.Some? ==>
      |r.value| == |p.globalIncludePaths.GetOr([])| + |u.includePaths.GetOr([])|
    ensures r.Some? ==> forall k :: 0 <= k < |p.globalIncludePaths.GetOr([])| ==>
      r.value[k] == p.location + p.globalIncludePaths.GetOr([])[k]
    ensures r.Some? ==> forall k :: 0 <= k < |u.includePaths.GetOr([])| ==>
      r.value[|p.globalIncludePaths.GetOr([])| + k] == p.location + u.includePaths.GetOr([])[k]
  {
    var paths := JoinAll(p.location, p.globalIncludePaths.GetOr([])) + JoinAll(p.location, u.includePaths.GetOr([]));
    if |paths| == 0 then None else Some(paths)
  }

  /** `extensions.contains(path.extension())`: the file name has an
      extension and it is one of the language's. */
  predicate Accepts(name: string, exts: seq<string>) {
    match Extension(name)
    case None => false
    case Some(e) => e in exts
  }

  /** The matching files of one entry of directory `dir`: the entry itself
      when it is an accepted file, everything found below it when it is a
      directory. */
  function VisitEntry(c: Node, dir: Path, exts: seq<string>): seq<Path>
    decreases c, if c.Dir? then |c.children| + 1 else 0
  {
    match c
    case File(name) => if Accepts(name, exts) then [dir + [name]] else []
    case Dir(name, children) => CollectFrom(c, dir + [name], exts, 0)
  }

  /** `get_source_files` from entry `i` of directory `d` (at path `dir`) on,
      in listing order. */
  function CollectFrom(d: Node, dir: Path, exts: seq<string>, i: nat): seq<Path>
    requires d.Dir? && i <= |d.children|
    decreases d, |d.children| - i
  {
    if i == |d.children| then []
    else VisitEntry(d.children[i], dir, exts) + CollectFrom(d, dir, exts, i + 1)
  }

  /** The source files of the directory `d` located at `dir`. */
  function SourceFiles(d: Node, dir: Path, exts: seq<string>): seq<Path>
    requires d.Dir?
  {
    CollectFrom(d, dir, exts, 0)
  }

  /** The reference meaning of source discovery: a file found at or below
      entry `c` whose name carries an accepted extension. */
  ghost predicate Discovered(c: Node, dir: Path, exts: seq<string>, q: Path) {
    FileAtOrBelow(c, dir, q) && |q| > 0 && Accepts(q[|q| - 1], exts)
  }

  lemma {:induction false} VisitEntrySpec(c: Node, dir: Path, exts: seq<string>, q: Path)
    ensures q in VisitEntry(c, dir, exts) <==> Discovered(c, dir, exts, q)
    decreases c, if c.Dir? then |c.children| + 1 else 0
  {
    match c
    case File(name) =>
    case Dir(name, children) =>
      CollectFromSpec(c, dir + [name], exts, 0, q);
      if Discovered(c, dir, exts, q) {
        var k :| 0 <= k < |children| && FileAtOrBelow(children[k], dir + [name], q);
        assert Discovered(children[k], dir + [name], exts, q);
      }
  }

  lemma {:induction false} CollectFromSpec(d: Node, dir: Path, exts: seq<string>, i: nat, q: Path)
    requires d.Dir? && i <= |d.children|
    ensures q in CollectFrom(d, dir, exts, i) <==>
      exists k :: i <= k < |d.children| && Discovered(d.children[k], dir, exts, q)
    decreases d, |d.children| - i
  {
    if i < |d.children| {
      VisitEntrySpec(d.children[i], dir, exts, q);
      CollectFromSpec(d, dir, exts, i + 1, q);
    }
  }

  /** Source discovery returns exactly the files anywhere below the
      directory whose extension is one of the language's, all under the
      directory's path. */
  lemma SourceFilesSpec(d: Node, dir: Path, exts: seq<string>, q: Path)
    requires d.Dir?
    ensures q in SourceFiles(d, dir, exts) <==>
      exists k :: 0 <= k < |d.children| && Discovered(d.children[k], dir, exts, q)
    ensures q in SourceFiles(d, dir, exts) ==> |q| > |dir| && q[..|dir|] == dir
  {
    CollectFromSpec(d, dir, exts, 0, q);
    if q in SourceFiles(d, dir, exts) {
      var k :| 0 <= k < |d.children| && Discovered(d.children[k], dir, exts, q);
      FileAtOrBelowIsUnder(d.children[k], dir, q);
    }
  }

  /** `get_compile_options`: discover the sources, reject an empty list,
      resolve the directories, then hit `todo!()` for a static library, else
      return the options with the resolved include paths. The directory
      creation of line 85 is not modelled. */
  function GetCompileOptions(p: Project, u: Unit, fs: Node): (r: Result<CompileOptions>)
    ensures DirectoryAt(fs, p.location + u.source).None? <==> r == Err(SourceDirectoryUnreadable(p.location + u.source))
    ensures r == Err(NoSourceFiles) <==>
      DirectoryAt(fs, p.location + u.source).Some?
        && SourceFiles(DirectoryAt(fs, p.location + u.source).value, p.location + u.source, Languages.Extensions(p.language)) == []
    ensures r.Err? && r.error.Unimplemented? <==>
      DirectoryAt(fs, p.location + u.source).Some? && u.kind == StaticLibrary
        && SourceFiles(DirectoryAt(fs, p.location + u.source).value, p.location + u.source, Languages.Extensions(p.language)) != []
    ensures r.Ok? <==>
      DirectoryAt(fs, p.location + u.source).Some? && u.kind == Binary
        && SourceFiles(DirectoryAt(fs, p.location + u.source).value, p.location + u.source, Languages.Extensions(p.language)) != []
    ensures r.Ok? ==> r.value.targetType == Binary && r.value.targetName == u.name
    ensures r.Ok? ==> r.value.targetLanguage == p.language && |r.value.sourceFiles| > 0
    ensures r.Ok? ==>
      r.value.sourceFiles == SourceFiles(DirectoryAt(fs, p.location + u.source).value, p.location + u.source, Languages.Extensions(p.language))
    ensures r.Ok? ==> r.value.outputDirectory == ResolvedOutputDirectory(p, u)
    ensures r.Ok? ==> r.value.intermediateDirectory == ResolvedIntermediateDirectory(p, u)
    ensures r.Ok? ==> r.value.includePaths == ResolveIncludePaths(p, u)
  {
    var unitPath := p.location + u.source;
    match DirectoryAt(fs, unitPath)
    case None => Err(SourceDirectoryUnreadable(unitPath))
    case Some(d) =>
      var sources := SourceFiles(d, unitPath, Languages.Extensions(p.language));
      if |sources| == 0 then Err(NoSourceFiles)
      else
        var output := ResolvedOutputDirectory(p, u);
        var intermediate := ResolvedIntermediateDirectory(p, u);
        if u.kind == StaticLibrary then Err(Unimplemented("static library output file"))
        else
          var options := NewCompileOptions(u.name, u.kind, p.language, sources, output, intermediate);
          match ResolveIncludePaths(p, u)
          case None => Ok(options)
          case Some(paths) => Ok(WithIncludePaths(options, paths))
  }

  /** Every source file of successful target information is a file below the
      unit's directory carrying one of the language's extensions, and every
      such file is listed. */
  lemma CompileOptionsSources(p: Project, u: Unit, fs: Node, q: Path)
    requires GetCompileOptions(p, u, fs).Ok?
    ensures q in GetCompileOptions(p, u, fs).value.sourceFiles <==>
      exists k :: 0 <= k < |DirectoryAt(fs, p.location + u.source).value.children|
        && Discovered(DirectoryAt(fs, p.location + u.source).value.children[k], p.location + u.source,
                      Languages.Extensions(p.language), q)
  {
    SourceFilesSpec(DirectoryAt(fs, p.location + u.source).value, p.location + u.source, Languages.Extensions(p.language), q);
  }

  /** A C unit takes exactly the files with extension `c`, a C++ unit those
      with `c` or `cpp`; a name without an extension is never taken. */
  lemma AcceptsByLanguage(name: string)
    ensures Accepts(name, Languages.Extensions(Languages.C)) <==> Extension(name) == Some("c")
    ensures Accepts(name, Languages.Extensions(Languages.Cpp)) <==>
      Extension(name) == Some("c") || Extension(name) == Some("cpp")
    ensures Extension(name).None? ==>
      !Accepts(name, Languages.Extensions(Languages.C)) && !Accepts(name, Languages.Extensions(Languages.Cpp))
  {
  }

  /** Examples: `main.c`, `main.cpp`, a header and a `Makefile`. */
  lemma LanguageFilters()
    ensures Accepts("main.c", Languages.Extensions(Languages.C))
    ensures !Accepts("main.cpp", Languages.Extensions(Languages.C))
    ensures Accepts("main.cpp", Languages.Extensions(Languages.Cpp))
    ensures !Accepts("main.h", Languages.Extensions(Languages.Cpp))
    ensures !Accepts("Makefile", Languages.Extensions(Languages.Cpp))
  {
    ExtensionOfJoin("main", "c");
    assert "main.c" == "main" + "." + "c";
    ExtensionOfJoin("main", "cpp");
    assert "main.cpp" == "main" + "." + "cpp";
    ExtensionOfJoin("main", "h");
    assert "main.h" == "main" + "." + "h";
    assert LastDot("Makefile").None?;
  }
}
