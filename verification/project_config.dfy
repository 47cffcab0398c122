/** Project configuration (src/config/project.rs): initialisation, adding a
    unit, build orchestration, and the file's own (stricter) copies of the
    language and compiler codecs.

    Writing and reading the project file (`init`'s file output, `import`,
    `save`) are storage only; `init` is modelled up to the value it writes.
 */
module ProjectConfig {
  import opened Results
  import opened Text
  import opened Paths
  import opened Schema
  import Languages
  import Compilers
  import ConfigDefaults
  import opened UnitConfig

  /** The default compiler chosen by `init`: MSVC on Windows, otherwise GCC
      for C and G++ for C++. */
  function DefaultCompiler(language: Languages.Language, windows: bool): (c: Compilers.Compiler)
    ensures windows ==> c == Compilers.Msvc
    ensures !windows && language == Languages.C ==> c == Compilers.Gcc
    ensures !windows && language == Languages.Cpp ==> c == Compilers.Gpp
  {
    if windows then Compilers.Msvc
    else match language
      case C => Compilers.Gcc
      case Cpp => Compilers.Gpp
  }

  /** What `init` writes, and where. */
  datatype Initialised = Initialised(project: Project, file: Path)

  /** The example unit `init` generates. */
  function ExampleUnit(): Unit {
    NewUnit("example", Binary, ["src"], ["build", "bin"], ["build", "obj"], None, None)
  }

  /** `init`: a project with the default compiler, the default build
      directory and, on request, one example unit and an include path
      (`location/../include`). It fails when the project file already exists
      (`File::create_new`). Directory creation and serialisation are not
      modelled. */
  function Init(location: Path, name: string, language: Languages.Language, example: bool,
                windows: bool, existing: set<Path>): (r: Result<Initialised>)
    ensures r.Err? <==> location + [ConfigDefaults.PROJECT_FILE_NAME] in existing
    ensures r.Err? ==> r.error == AlreadyExists(location + ["copper.toml"])
    ensures r.Ok? ==> r.value.file == location + ["copper.toml"]
    ensures r.Ok? ==> r.value.project.name == name && r.value.project.language == language
    ensures r.Ok? ==> r.value.project.location == location
    ensures r.Ok? ==> r.value.project.compiler == DefaultCompiler(language, windows)
    ensures r.Ok? ==> r.value.project.defaultBuildDirectory == ["build"]
    ensures r.Ok? && example ==> r.value.project.units == [ExampleUnit()]
    ensures r.Ok? && example ==> r.value.project.globalIncludePaths == Some([location + ["..", "include"]])
    ensures r.Ok? && !example ==> r.value.project.units == [] && r.value.project.globalIncludePaths.None?
  {
    var file := location + [ConfigDefaults.PROJECT_FILE_NAME];
    if file in existing then Err(AlreadyExists(file))
    else
      var includes := if example then Some([location + ["..", "include"]]) else None;
      var units := if example then [ExampleUnit()] else [];
      Ok(Initialised(
        Project(name, language, DefaultCompiler(language, windows), includes, units,
                ConfigDefaults.BuildDirectory(), ConfigDefaults.BinaryDirectory(),
                ConfigDefaults.LibraryDirectory(), ConfigDefaults.ObjectDirectory(), location),
        file))
  }

  /** The example unit is a binary called `example` with sources in `src`,
      and its explicit directories are exactly the ones the project's
      defaults would derive for it. */
  lemma ExampleUnitMatchesDefaults(location: Path, name: string, language: Languages.Language,
                                   windows: bool, existing: set<Path>)
    requires Init(location, name, language, true, windows, existing).Ok?
    ensures var p := Init(location, name, language, true, windows, existing).value.project;
      && |p.units| == 1 && p.units[0].name == "example" && p.units[0].kind == Binary
      && p.units[0].source == ["src"]
      && ResolvedOutputDirectory(p, p.units[0]) == ResolvedOutputDirectory(p, p.units[0].(outputDirectory := None))
      && ResolvedIntermediateDirectory(p, p.units[0]) == ResolvedIntermediateDirectory(p, p.units[0].(intermediateDirectory := None))
      && ResolvedOutputDirectory(p, p.units[0]) == location + ["build", "bin"]
  {
  }

  /** The directory `add_unit` gives a unit of this type: `bin/` or `lib/`. */
  function TypeDirectory(kind: UnitType): Path {
    match kind
    case Binary => ["bin"]
    case StaticLibrary => ["lib"]
  }

  /** `add_unit`: appends one unit, never checking for a duplicate name. */
  function AddUnit(p: Project, name: string, kind: UnitType, source: Path): (p': Project)
    ensures |p'.units| == |p.units| + 1
    ensures p'.units[..|p.units|] == p.units
    ensures p'.units[|p.units|] ==
      Unit(name, kind, source, Some(p.defaultBuildDirectory + TypeDirectory(kind)),
           Some(p.defaultBuildDirectory + ["obj"]), None, None)
    ensures p'.(units := p.units) == p
  {
    p.(units := p.units + [NewUnit(name, kind, source, p.defaultBuildDirectory + TypeDirectory(kind),
                                   p.defaultBuildDirectory + ["obj"], None, None)])
  }

  /** With the default bin/lib/obj layout, the explicit directories `add_unit`
      stores agree with the ones `get_compile_options` would derive. */
  lemma AddUnitAgreesWithDerived(p: Project, name: string, kind: UnitType, source: Path)
    requires p.defaultBinaryDirectory == ConfigDefaults.BinaryDirectory()
    requires p.defaultLibraryDirectory == ConfigDefaults.LibraryDirectory()
    requires p.defaultObjectDirectory == ConfigDefaults.ObjectDirectory()
    ensures var p' := AddUnit(p, name, kind, source);
      var u := p'.units[|p.units|];
      && ResolvedOutputDirectory(p', u) == ResolvedOutputDirectory(p', u.(outputDirectory := None))
      && ResolvedIntermediateDirectory(p', u) == ResolvedIntermediateDirectory(p', u.(intermediateDirectory := None))
  {
  }

  /** The first unit with the given name. */
  function FindUnit(units: seq<Unit>, name: string): (r: Option<Unit>)
    ensures r.Some? ==> r.value.name == name
    ensures r.Some? ==>
      exists k :: (0 <= k < |units| && units[k] == r.value
                   && forall j :: 0 <= j < k ==> units[j].name != name)
    ensures r.None? <==> forall k :: 0 <= k < |units| ==> units[k].name != name
  {
    if |units| == 0 then None
    else if units[0].name == name then Some(units[0])
    else
      var r := FindUnit(units[1..], name);
      assert forall k :: 1 <= k < |units| ==> units[k] == units[1..][k - 1];
      r
  }

  /** Since duplicates are accepted, adding a unit whose name is taken leaves
      the new unit unreachable by name: lookups still find the older one. */
  lemma DuplicateUnitShadowed(p: Project, name: string, kind: UnitType, source: Path)
    requires FindUnit(p.units, name).Some?
    ensures FindUnit(AddUnit(p, name, kind, source).units, name) == FindUnit(p.units, name)
    ensures |AddUnit(p, name, kind, source).units| == |p.units| + 1
  {
    var us := AddUnit(p, name, kind, source).units;
    FindUnitPrefix(p.units, us, name);
  }

  lemma {:induction false} FindUnitPrefix(units: seq<Unit>, longer: seq<Unit>, name: string)
    requires |units| <= |longer| && longer[..|units|] == units
    requires FindUnit(units, name).Some?
    ensures FindUnit(longer, name) == FindUnit(units, name)
    decreases |units|
  {
    if units[0].name != name {
      assert longer[1..][..|units[1..]|] == units[1..];
      FindUnitPrefix(units[1..], longer[1..], name);
    }
  }

  /** The result of a build request, with the units whose build was started,
      in order. */
  datatype BuildRun = BuildRun(outcome: Outcome, built: seq<Unit>)

  /** Building every unit (`try_for_each`): in list order, stopping at the
      first unit whose build fails. */
  function BuildAll(units: seq<Unit>, buildUnit: Unit -> Outcome): (r: BuildRun)
    ensures r.outcome.Pass? <==> forall k :: 0 <= k < |units| ==> buildUnit(units[k]).Pass?
    ensures r.outcome.Pass? ==> r.built == units
    ensures r.outcome.Fail? ==>
      && 0 < |r.built| <= |units| && r.built == units[..|r.built|]
      && r.outcome == buildUnit(r.built[|r.built| - 1])
      && forall k :: 0 <= k < |r.built| - 1 ==> buildUnit(units[k]).Pass?
    decreases |units|
  {
    if |units| == 0 then BuildRun(Pass, [])
    else
      var o := buildUnit(units[0]);
      if o.Fail? then BuildRun(o, [units[0]])
      else
        var rest := BuildAll(units[1..], buildUnit);
        assert forall k :: 1 <= k < |units| ==> units[k] == units[1..][k - 1];
        BuildRun(rest.outcome, [units[0]] + rest.built)
  }

  /** The `k`-th requested name names a unit, and that unit builds. */
  ghost predicate Built(units: seq<Unit>, names: seq<string>, buildUnit: Unit -> Outcome, k: int)
    requires 0 <= k < |names|
  {
    FindUnit(units, names[k]).Some? && buildUnit(FindUnit(units, names[k]).value).Pass?
  }

  /** The first `n` requested names all name a unit that builds. */
  ghost predicate AllBuilt(units: seq<Unit>, names: seq<string>, buildUnit: Unit -> Outcome, n: int)
    requires n <= |names|
  {
    forall k :: 0 <= k < n ==> Built(units, names, buildUnit, k)
  }

  /** `built[k]` is the unit the `k`-th requested name resolves to. */
  ghost predicate ResolvedTo(units: seq<Unit>, names: seq<string>, built: seq<Unit>)
    requires |built| <= |names|
  {
    forall k :: 0 <= k < |built| ==> FindUnit(units, names[k]) == Some(built[k])
  }

  /** How a failed request stopped: at an unknown name, with every earlier
      one built, or at the failing build of the last unit started. */
  ghost predicate StoppedAt(units: seq<Unit>, names: seq<string>, buildUnit: Unit -> Outcome, r: BuildRun)
    requires |r.built| <= |names|
  {
    || (&& |r.built| < |names|
        && FindUnit(units, names[|r.built|]).None?
        && r.outcome == Fail(UnitError(names[|r.built|]))
        && AllBuilt(units, names, buildUnit, |r.built|))
    || (&& 0 < |r.built|
        && r.outcome == buildUnit(r.built[|r.built| - 1])
        && AllBuilt(units, names, buildUnit, |r.built| - 1))
  }

  lemma AllBuiltShift(units: seq<Unit>, names: seq<string>, buildUnit: Unit -> Outcome, n: int)
    requires 0 < n <= |names|
    ensures AllBuilt(units, names, buildUnit, n) <==>
      Built(units, names, buildUnit, 0) && AllBuilt(units, names[1..], buildUnit, n - 1)
  {
    if Built(units, names, buildUnit, 0) && AllBuilt(units, names[1..], buildUnit, n - 1) {
      forall k | 0 < k < n ensures Built(units, names, buildUnit, k) {
        assert Built(units, names[1..], buildUnit, k - 1);
      }
    }
    if AllBuilt(units, names, buildUnit, n) {
      forall k | 0 <= k < n - 1 ensures Built(units, names[1..], buildUnit, k) {
        assert Built(units, names, buildUnit, k + 1);
      }
    }
  }

  /** Building the named units: each name in order is looked up (first match)
      and its unit built; an unknown name is a `UnitError` and a failing
      build stops the request. Its meaning is stated by `BuildNamedSpec`. */
  function BuildNamed(units: seq<Unit>, names: seq<string>, buildUnit: Unit -> Outcome): (r: BuildRun)
    ensures |r.built| <= |names|
    ensures r.outcome.Pass? ==> |r.built| == |names|
    decreases |names|
  {
    if |names| == 0 then BuildRun(Pass, [])
    else match FindUnit(units, names[0])
      case None => BuildRun(Fail(UnitError(names[0])), [])
      case Some(u) =>
        var o := buildUnit(u);
        if o.Fail? then BuildRun(o, [u])
        else
          var rest := BuildNamed(units, names[1..], buildUnit);
          BuildRun(rest.outcome, [u] + rest.built)
  }

  /** The request succeeds exactly when every name resolves and every unit
      builds. */
  lemma {:induction false} BuildNamedPasses(units: seq<Unit>, names: seq<string>, buildUnit: Unit -> Outcome)
    ensures BuildNamed(units, names, buildUnit).outcome.Pass? <==> AllBuilt(units, names, buildUnit, |names|)
    decreases |names|
  {
    if |names| > 0 {
      if FindUnit(units, names[0]).None? || buildUnit(FindUnit(units, names[0]).value).Fail? {
        assert !Built(units, names, buildUnit, 0);
      } else {
        BuildNamedPasses(units, names[1..], buildUnit);
        AllBuiltShift(units, names, buildUnit, |names|);
      }
    }
  }

  /** The units started are the ones the names resolve to, in request order. */
  lemma {:induction false} BuildNamedResolves(units: seq<Unit>, names: seq<string>, buildUnit: Unit -> Outcome)
    ensures ResolvedTo(units, names, BuildNamed(units, names, buildUnit).built)
    decreases |names|
  {
    if |names| > 0 && FindUnit(units, names[0]).Some? && buildUnit(FindUnit(units, names[0]).value).Pass? {
      var r := BuildNamed(units, names, buildUnit);
      BuildNamedResolves(units, names[1..], buildUnit);
      forall k | 0 < k < |r.built| ensures FindUnit(units, names[k]) == Some(r.built[k]) {
        assert names[k] == names[1..][k - 1];
      }
    }
  }

  /** A failure stops at the first unknown name or failing build, with every
      earlier name built, so no later name is processed. */
  lemma {:induction false} BuildNamedStops(units: seq<Unit>, names: seq<string>, buildUnit: Unit -> Outcome)
    ensures var r := BuildNamed(units, names, buildUnit);
      r.outcome.Fail? ==> StoppedAt(units, names, buildUnit, r)
    decreases |names|
  {
    var r := BuildNamed(units, names, buildUnit);
    if |names| > 0 && FindUnit(units, names[0]).Some? && buildUnit(FindUnit(units, names[0]).value).Pass? {
      var rest := BuildNamed(units, names[1..], buildUnit);
      BuildNamedStops(units, names[1..], buildUnit);
      if r.outcome.Fail? {
        var m := |rest.built|;
        if m < |names| - 1 && rest.outcome == Fail(UnitError(names[1..][m]))
           && FindUnit(units, names[1..][m]).None? && AllBuilt(units, names[1..], buildUnit, m) {
          AllBuiltShift(units, names, buildUnit, m + 1);
        } else {
          AllBuiltShift(units, names, buildUnit, m);
        }
      }
    }
  }

  /** `build`: the named units when names are given, otherwise every unit. */
  function Build(p: Project, names: Option<seq<string>>, buildUnit: Unit -> Outcome): (r: BuildRun)
    ensures names.None? ==> (r.outcome.Pass? <==> forall k :: 0 <= k < |p.units| ==> buildUnit(p.units[k]).Pass?)
    ensures names.Some? ==> (r.outcome.Pass? <==> AllBuilt(p.units, names.value, buildUnit, |names.value|))
  {
    BuildNamedPasses(p.units, names.GetOr([]), buildUnit);
    match names
    case None => BuildAll(p.units, buildUnit)
    case Some(ns) => BuildNamed(p.units, ns, buildUnit)
  }

  /** An unknown name aborts the request at that name: every earlier name is
      built, the error names it, and no later name is processed. */
  lemma UnknownNameStops(p: Project, names: seq<string>, buildUnit: Unit -> Outcome, k: nat)
    requires k < |names| && FindUnit(p.units, names[k]).None?
    requires AllBuilt(p.units, names, buildUnit, k)
    ensures Build(p, Some(names), buildUnit).outcome == Fail(UnitError(names[k]))
    ensures |Build(p, Some(names), buildUnit).built| == k
  {
    UnknownNameStopsNamed(p.units, names, buildUnit, k);
  }

  lemma {:induction false} UnknownNameStopsNamed(units: seq<Unit>, names: seq<string>, buildUnit: Unit -> Outcome, k: nat)
    requires k < |names| && FindUnit(units, names[k]).None?
    requires AllBuilt(units, names, buildUnit, k)
    ensures BuildNamed(units, names, buildUnit).outcome == Fail(UnitError(names[k]))
    ensures |BuildNamed(units, names, buildUnit).built| == k
    decreases k
  {
    if k > 0 {
      assert Built(units, names, buildUnit, 0);
      forall j | 0 <= j < k - 1
        ensures Built(units, names[1..], buildUnit, j)
      {
        assert Built(units, names, buildUnit, j + 1);
      }
      UnknownNameStopsNamed(units, names[1..], buildUnit, k - 1);
    }
  }

  /** A project without units builds successfully when no names are given:
      there is no error for an empty build. */
  lemma EmptyProjectBuilds(p: Project, buildUnit: Unit -> Outcome)
    requires p.units == []
    ensures Build(p, None, buildUnit) == BuildRun(Pass, [])
  {
  }

  /** The language codec duplicated in this file: lower-cased but not
      trimmed. */
  function StrictParseLanguage(s: string): Result<Languages.Language> {
    var t := Lower(s);
    if t == "c" then Ok(Languages.C)
    else if t == "c++" then Ok(Languages.Cpp)
    else Err(EnumParseError(s))
  }

  /** The compiler codec duplicated in this file: lower-cased, not trimmed,
      and without the `gpp` / `cl` aliases. */
  function StrictParseCompiler(s: string): Result<Compilers.Compiler> {
    var t := Lower(s);
    if t == "gcc" then Ok(Compilers.Gcc)
    else if t == "g++" then Ok(Compilers.Gpp)
    else if t == "clang" then Ok(Compilers.Clang)
    else if t == "msvc" then Ok(Compilers.Msvc)
    else Err(EnumParseError(s))
  }

  /** Whatever the stricter codecs accept, the trimming, alias-aware codecs
      accept with the same value; both round-trip the canonical spellings. */
  lemma StrictAgreesWithLenient(s: string)
    ensures StrictParseLanguage(s).Ok? ==> Languages.Parse(s) == StrictParseLanguage(s)
    ensures StrictParseCompiler(s).Ok? ==> Compilers.Parse(s) == StrictParseCompiler(s)
  {
    if StrictParseLanguage(s).Ok? || StrictParseCompiler(s).Ok? {
      LowerIsOwnTrim(s);
    }
  }

  /** An input the strict codecs accept is a canonical word once lower-cased,
      and such a word has no white space to trim. */
  lemma LowerIsOwnTrim(s: string)
    requires StrictParseLanguage(s).Ok? || StrictParseCompiler(s).Ok?
    ensures Trim(Lower(s)) == Lower(s)
  {
    assert s[0..|s|] == s;
    SpelledTrims(s, Lower(s), 0, |s|);
  }

  lemma StrictRoundTrip(l: Languages.Language, c: Compilers.Compiler)
    ensures StrictParseLanguage(Languages.ToString(l)) == Ok(l)
    ensures StrictParseCompiler(Compilers.ToString(c)) == Ok(c)
  {
    assert Lower(Languages.ToString(l)) == Languages.ToString(l);
    assert Lower(Compilers.ToString(c)) == Compilers.ToString(c);
  }

  /** The converse fails: aliases and padding are only understood by the
      codecs of src/config/compiler.rs and src/config/language.rs. */
  lemma StrictRejectsAliases()
    ensures StrictParseCompiler("gpp").Err? && Compilers.Parse("gpp").Ok?
    ensures StrictParseLanguage(" c").Err? && Languages.Parse(" c") == Ok(Languages.C)
  {
    assert Lower("gpp") == "gpp";
    TrimOfBare("gpp");
    assert Compilers.Parse("gpp") == Ok(Compilers.Gpp);
    assert Lower(" c") == " c";
    assert " c" == " " + "c";
    LeadingWhitespaceOf(" ", "c");
    assert Trim(" c") == "c";
  }
}
