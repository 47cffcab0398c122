# Copper build-configuration core in Dafny

Copper is a command-line tool that keeps a C/C++ project's configuration
(`copper.toml`: the project language, the compiler, and a list of build
units) and drives the compiler over it. This project models its decision
logic as pure Dafny functions and methods and proves properties about them.
The modelled logic is:

- the configuration enums (language, compiler, unit type) and their
  case-insensitive string codecs;
- the default directory layout;
- unit construction and `add_unit`, and `init`'s default compiler and
  example unit;
- how a unit's target information is resolved (`get_compile_options`):
  its directories, include paths and recursive source discovery;
- build orchestration over named units, or over every unit;
- the compiler command builder, which assembles the argument vector and
  checks files against what exists;
- the GCC flag table;
- executable lookup over `PATH`;
- the earlier project iteration in `src/project.rs`.

Modelling choices:

- A path is a sequence of components and a relative `join` is
  concatenation. A literal such as `"bin/"` is the single component `bin`.
- The file system is modelled in two ways. Existence checks use a set of
  paths that exist. Directory listings (`read_dir`) use an abstract
  directory tree (`FileTree.Node`).
- `PATH` is a parameter: `None` when unset, otherwise its directories in
  order. `cfg!(windows)` is the parameter `windows`.
- `panic!`, `expect`, `todo!()`, `unimplemented!()` and `process::exit`
  become `Err`/`Fail` values carrying a `Results.Error`.
- `build` calls a `CopperUnit::build` of the configuration iteration, and
  that method is not part of this model. The build orchestration therefore
  takes the per-unit build as a function parameter `Unit -> Outcome`.
- Lower-casing and trimming are ASCII-only (module `Text`).
  `SpellsLoosely(s, w)` is the reference meaning of "`s` is `w` up to case
  and surrounding white space", and the parsers are proved against it.
- The project record (`Schema.Project`) holds the union of the fields that
  src/config/project.rs declares and the fields src/config/unit.rs reads:
  the global include paths and the default binary, library and object
  directories.
- Where two iterations of the same code disagree, each gets its own
  function, and a lemma states how they differ. For example, legacy `cpp`
  versus current `c++`, and flat versus recursive source discovery.

## Model

| member | source | states |
|---|---|---|
| Text.TrimLowerSpells | src/config/language.rs:40 | `trim(to_lowercase(s))` equals a canonical word exactly when `s` is that word up to ASCII case, padded only by white space |
| Languages.ParseSpec | src/config/language.rs:36-46 | parsing yields `l` iff the input loosely spells `l`'s name ("c" / "c++"); it fails iff it spells neither; the error is `EnumParseError` carrying the raw input |
| Languages.RoundTrip | src/config/language.rs:48-55 | parsing the printed form of any language gives that language back |
| Languages.ParseNormalises | src/config/language.rs:40-44 | a successful parse prints back as the trimmed, lower-cased input; parse-after-print is a fixed point |
| Languages.DisplayIsToString | src/config/language.rs:57-65 | `Display` and `Into<String>` agree on every language |
| Languages.ExtensionsNested | src/config/language.rs:26-33 | every C source extension is a C++ one; only C++ accepts `cpp` |
| Languages.StrVariantsComplete | src/config/language.rs:21-23 | the two listed spellings cover both languages and parse to distinct languages |
| Compilers.ParseInSpellings | src/config/compiler.rs:37-45 | parsing yields a compiler exactly when the lower-cased, trimmed input is its canonical spelling or one of its aliases (`gpp`, `cl`) |
| Compilers.ParseSpec | src/config/compiler.rs:37-45 | parsing yields `c` iff the input loosely spells one of `c`'s spellings (`gcc`; `g++`/`gpp`; `clang`; `msvc`/`cl`); otherwise `EnumParseError` with the raw input |
| Compilers.RoundTrip | src/config/compiler.rs:48-57 | parse(print(c)) = c for all four compilers |
| Compilers.ParseNormalises | src/config/compiler.rs:40-42 | the normalised input is one of the result's spellings; the result prints as its canonical (first) spelling; re-parsing the print is a fixed point |
| Compilers.AliasGppExample | src/config/compiler.rs:40 | `gpp` parses to G++ and prints as `g++` |
| Compilers.AliasClExample | src/config/compiler.rs:42 | ` CL ` parses to MSVC (case and padding ignored) and prints as `msvc` |
| Compilers.UnknownExample | src/config/compiler.rs:43 | `msvc++` is rejected with `EnumParseError("msvc++")` |
| Compilers.ExecutableNameVsSpelling | src/config/compiler.rs:24-31 | the executable name equals the configuration spelling iff the compiler is not MSVC, whose program is the alias `cl` |
| Compilers.StrVariantsComplete | src/config/compiler.rs:20-22 | four pairwise-distinct spellings that together cover the canonical spelling of every compiler |
| Compilers.StrVariantsParse | src/config/compiler.rs:20-22 | the listed spellings parse, in order, to GCC, G++, Clang and MSVC, one compiler each |
| ConfigDefaults.EqualsRecognisesOnlyItsDefault | src/config/mod.rs:43-48 | each `equals` predicate accepts its own default and rejects every other default |
| ConfigDefaults.EqualsRejectsOthers | src/config/mod.rs:43-48 | an `equals` predicate is false on any path other than its default |
| ConfigDefaults.DefaultValues | src/config/mod.rs:15-32 | the defaults are `.`, `build`, `bin`, `lib`, `obj`, `src`, each one component; the project file is `copper.toml` |
| UnitConfig.ParseUnitTypeSpec | src/config/unit.rs:201-211 | the unit type parses iff the input equals `binary` / `static-library` up to ASCII case (no trimming); otherwise `InvalidUnitType` carrying the input |
| UnitConfig.UnitTypeRoundTrip | src/config/unit.rs:191-220 | printing then parsing gives the unit type back; `Display` agrees with `Into<String>` |
| UnitConfig.UnitTypePaddingRejected | src/config/unit.rs:205 | ` binary` is rejected while `BINARY` is accepted |
| UnitConfig.NewUnit | src/config/unit.rs:32-50 | both directories are stored as explicit overrides; every other argument is stored unchanged |
| UnitConfig.ResolvedOutputDirectory | src/config/unit.rs:69-75 | the root joined with the override when set; otherwise root/build/bin for a binary and root/build/lib for a static library |
| UnitConfig.ResolvedIntermediateDirectory | src/config/unit.rs:77-83 | the root joined with the override when set; otherwise root/build/obj, whatever the unit type |
| UnitConfig.DerivedDirectoriesShared | src/config/unit.rs:155-167 | derived directories depend only on the project and the unit type; the intermediate one is shared by all units; distinct bin/lib defaults separate the two types |
| UnitConfig.ResolveIncludePaths | src/config/unit.rs:111-129 | the global paths then the unit's, order kept, each under the root; `None` exactly when both lists are empty |
| UnitConfig.SourceFilesSpec | src/config/unit.rs:136-152 | discovery lists exactly the files at any depth below the directory whose extension is one of the language's; all lie under the directory |
| UnitConfig.GetCompileOptions | src/config/unit.rs:54-132 | an unreadable directory fails first; an empty source list fails with `NoSourceFiles`; a static library then hits `todo!()`; it succeeds exactly when the directory is readable, the source list is non-empty and the unit is a binary, and then the options carry the unit, the language, the sources and the resolved directories and include paths |
| UnitConfig.CompileOptionsSources | src/config/unit.rs:57-61 | on success, a path is among the source files iff it is discovered below the unit's directory |
| UnitConfig.AcceptsByLanguage | src/config/unit.rs:141-143 | for every file name: a C unit takes it iff its extension is `c`, a C++ unit iff it is `c` or `cpp`; a name without an extension is never taken |
| UnitConfig.LanguageFilters | src/config/unit.rs:141-143 | examples: `main.c` is a C source, `main.cpp` is a C++ source but not a C one, and `main.h` and `Makefile` are not C++ sources |
| ProjectConfig.DefaultCompiler | src/config/project.rs:44-51 | MSVC on Windows; otherwise GCC for C and G++ for C++ |
| ProjectConfig.Init | src/config/project.rs:38-95 | fails with `AlreadyExists` iff `copper.toml` exists; otherwise the project has the given name, language and location, the default compiler and build directory; with an example it has one unit and the include path `../include`, without one it has no units and no include paths |
| ProjectConfig.ExampleUnitMatchesDefaults | src/config/project.rs:67-73 | the example unit is the binary `example` over `src`, and its explicit directories equal those the defaults would derive |
| ProjectConfig.AddUnit | src/config/project.rs:124-137 | exactly one unit is appended; earlier units and all other fields are unchanged; its directories are build/bin or build/lib, and build/obj |
| ProjectConfig.AddUnitAgreesWithDerived | src/config/project.rs:125-135 | with the default bin/lib/obj layout, the stored directories equal the ones `get_compile_options` would derive |
| ProjectConfig.FindUnit | src/config/project.rs:143-144 | the result is the first unit with that name; `None` iff no unit has it |
| ProjectConfig.DuplicateUnitShadowed | src/config/project.rs:130-144 | adding a unit with a taken name still grows the list, but lookup by name keeps finding the older unit |
| ProjectConfig.BuildAll | src/config/project.rs:153-154 | passes iff every unit builds; units are started in order; a failure is the outcome of the last unit started, and all earlier ones passed |
| ProjectConfig.BuildNamedPasses | src/config/project.rs:140-151 | a named build passes iff every name resolves and every resolved unit builds |
| ProjectConfig.BuildNamedResolves | src/config/project.rs:142-147 | the units started are the first matches of the names, in request order |
| ProjectConfig.BuildNamedStops | src/config/project.rs:142-150 | a failure stops at an unknown name (`UnitError`) or at the failing unit, with every earlier name built |
| ProjectConfig.Build | src/config/project.rs:140-158 | with names, passes iff all requested units resolve and build; without names, iff every unit builds |
| ProjectConfig.UnknownNameStops | src/config/project.rs:148-149 | the first unknown name after successful builds gives `UnitError(name)`, and no later name is processed |
| ProjectConfig.EmptyProjectBuilds | src/config/project.rs:152-157 | a project with no units builds successfully when no names are given |
| ProjectConfig.StrictAgreesWithLenient | src/config/project.rs:194-247 | whatever this file's duplicated codecs accept, the trimming codecs with aliases accept with the same value |
| ProjectConfig.StrictRoundTrip | src/config/project.rs:206-258 | the duplicated codecs round-trip every language and compiler |
| ProjectConfig.StrictRejectsAliases | src/config/project.rs:238-245 | the duplicated codecs reject `gpp` and ` c`, which the other codecs accept |
| CompilerCommands.NewExecutor | src/compiler/command.rs:63-73 | a fresh executor has the given program and flags and no arguments |
| CompilerCommands.ExecutorOf | src/compiler/command.rs:48-53 | the executor uses the command's executable name and flag table |
| CompilerCommands.Output | src/compiler/command.rs:76-87 | appends exactly the output flag and the file; the parent directory exists afterwards; only the file's ancestors are added; an empty path has no parent and fails |
| CompilerCommands.IncludeArgs | src/compiler/command.rs:104-117 | one (include flag, path) pair per include path, in order |
| CompilerCommands.Compile | src/compiler/command.rs:90-124 | a missing source fails with `NotFound` and leaves the arguments unchanged; success iff the source and all include paths exist, appending the language pair, then the include pairs, then the compile flag and source; a missing include fails at the first one after earlier pairs were appended |
| CompilerCommands.Link | src/compiler/command.rs:127-141 | succeeds iff every object exists, then appends all in order; otherwise it reports the first missing object and leaves the arguments unchanged |
| Gcc.FlagSpellings | src/compiler/gcc.rs:5-10 | GCC's flags are `-o`, `-c`, `-I`, `-x`, pairwise distinct |
| CompilerApi.NewCompileOptions | src/compiler/mod.rs:28-45 | the options hold the arguments as given and no include paths |
| CompilerApi.WithIncludePaths | src/compiler/mod.rs:47-49 | sets the include paths and changes nothing else |
| CompilerApi.GetCompiler | src/compiler/mod.rs:53-58 | succeeds iff the compiler is GCC, carrying the options; every other compiler is unimplemented |
| CompilerApi.OldOutput | src/compiler/mod.rs:125-136 | the older `output` appends the output flag then the file, keeps the program and flags, and creates the parent without removing anything; a path without a parent is `NoParent` |
| CompilerApi.OldCompile | src/compiler/mod.rs:139-167 | the older `compile` rejects a missing source with `CompilerError` before appending anything; it passes iff the source and every include exist, and then appends the language override, the include pairs, the compile flag and the source; a missing include is the first missing one, reported as `CompilerError` after the earlier pairs were appended; the program and flags never change |
| CompilerApi.OldLink | src/compiler/mod.rs:170-181 | the older `link` checks every object before appending, then appends all in order; the first missing object is reported as `CompilerError` with the arguments unchanged |
| CompilerUtil.FindExecutable | src/compiler/util.rs:33-51 | finds the program iff some `PATH` directory holds it as a file; the result is in the first such directory; `None` when `PATH` is unset |
| CompilerUtil.CheckIfAvailable | src/compiler/util.rs:10-30 | GCC, G++ and Clang are available iff their executable is found; MSVC iff on Windows and both `cl` and `link` are found |
| CompilerUtil.SearchedNames | src/compiler/util.rs:34-39 | on Windows the searched name is `<name>.exe`; elsewhere the bare name |
| LegacyProject.ParseLanguageSpec | src/project.rs:51-69 | the legacy language parser accepts exactly `c` / `cpp` up to ASCII case, fails with `EnumParseError`, and round-trips |
| LegacyProject.CppSpellingsDisagree | src/project.rs:54-67 | the legacy and current codecs spell C++ differently (`cpp` against `c++`), so neither reads the other's C++ value; both agree on `c` |
| LegacyProject.ExtensionsPartition | src/project.rs:72-109 | all extensions are the source extensions followed by the header extensions; no extension is both; the source lists equal the current iteration's |
| LegacyProject.CompilerCodec | src/project.rs:122-144 | the legacy compiler codec round-trips, prints an accepted input as its lower-cased form, and fails with `EnumParseError` |
| LegacyProject.UnitTypeParsersAgree | src/project.rs:181-199 | the legacy unit-type codec round-trips; it accepts what the current one accepts with the same result; only the error variant differs |
| LegacyProject.Init | src/project.rs:276-285 | no language, no compiler, no units, build directory `build` |
| LegacyProject.AddUnit | src/project.rs:309-322 | appends exactly one unit with the given name, type and source; nothing else changes |
| LegacyProject.AddUnitIterationsAgree | src/project.rs:309-322 | both iterations give an added unit the same directories: build/bin or build/lib, and build/obj |
| LegacyProject.SourceFiles | src/project.rs:234-243 | a path is listed iff it is a direct entry of the directory whose extension is a source extension; at most one path per entry |
| LegacyProject.SourceFilesOfJoin | src/project.rs:234-243 | listing order is kept: the sources of entries `a + b` are those of `a` followed by those of `b` |
| LegacyProject.DirectoryNamedLikeSource | src/project.rs:235-242 | a directory named `a.c` is listed by the legacy discovery but entered by the current one |
| LegacyProject.OutputFileExtension | src/project.rs:249-259 | the output file sits in the output directory; it gets `.lib` for a static library, `.exe` for a binary on Windows, and no change otherwise |
| LegacyProject.PrepareUnit | src/project.rs:228-271 | failures in order: unreadable unit directory, unset language, unset compiler, compiler other than GCC; it succeeds exactly when the directory is readable, the language is set and the compiler is GCC, and then carries the flat source list, the rooted directories and the output file |
| LegacyProject.PrepareAll | src/project.rs:325-331 | succeeds iff every unit succeeds, giving each unit's result in order; otherwise it fails with the first failing unit's error |

## Left out

- Reading and writing `copper.toml` (`import`, `save`, and the file write in `init`) are serialisation and file I/O. `Init` stops at the value it would write and at the `AlreadyExists` failure of `File::create_new`.
- `create_dir_all` is not modelled where only its side effect or its failure matters: `init`'s example directories, the output directory in `get_compile_options`, and the output directory in the legacy `CopperUnit::build`. `CompilerCommands.Output` does model the directories it creates, but not a failure to create them.
- `execute` (spawning the compiler and collecting its output) is left out, because process execution is outside a pure model.
- The `Compiler` trait's `build` and the GCC back end behind it are not part of this model. The per-unit build is a parameter of `ProjectConfig.Build`, and `GetCompiler` stops at the dispatch.
- The legacy `build_unit` is a bare `todo!()` and is not modelled as an operation.
- The CLI, its handlers and the job wrappers are left out. They only parse arguments, print, and propagate errors.
- The text of error messages (`Display` of the error enums) is left out. Errors are plain datatype values.
- Text.TrimLowerSpells: lower-casing and trimming are ASCII-only. Rust's Unicode `to_lowercase` and `trim` also fold non-ASCII letters and strip non-ASCII white space.
- Path semantics are simplified:
  - Only relative joins are modelled. Absolute paths replacing the base, and `.` / `..` normalisation, are not.
  - A unit name or file name is treated as one path component.
  - `set_extension` is modelled on a final component only.
- UnitConfig.GetCompileOptions: a `read_dir` error inside a sub-directory, which also exits, is not distinguished. Only an unreadable unit directory is a failure.
- UnitConfig.GetCompileOptions: the `todo!()` for a static library is modelled as the error `Unimplemented`.
- ProjectConfig.Build: the source has no error for an empty build. A project with no units and no names builds successfully (`ProjectConfig.EmptyProjectBuilds`).
- src/compiler/util.rs calls `get_executable()`, while the method in src/config/compiler.rs is named `executable_name`. The model uses `Compilers.ExecutableName` for both.
- src/compiler/gcc.rs names the include flag's field `include`, while `CompilerCommandFlags` calls it `include_directory`. The model uses one field, `includeDirectory`.
- ProjectConfig.Init and ProjectConfig.AddUnit: src/config/project.rs:67-73 and :130-136 call `CopperUnit::new` with five arguments, while src/config/unit.rs:31-39 declares seven (the last two are the unit's `include_paths` and `additional_compiler_args`). The model passes `None` for both, which is what a unit read from a file without those keys holds.
- The legacy `CopperUnit::build` passes five arguments to a `CompileOptions::new` that now takes six, and it passes an owned compiler where `get_compiler` takes a reference. `LegacyProject.PrepareUnit` therefore returns its own record of what it would hand over, and it reuses only the GCC-only dispatch rule.
