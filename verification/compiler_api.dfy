/** Compile options, compiler dispatch and the older command builder
    (src/compiler/mod.rs).

    The older `CompilerCommandExecutor` of this file appends arguments
    exactly as the one in src/compiler/command.rs does; it differs only in
    reporting a missing file as `CompilerError`. It is therefore modelled on
    top of `CompilerCommands`, translating the error.
 */
module CompilerApi {
  import opened Results
  import opened Paths
  import opened Schema
  import Languages
  import Compilers
  import opened CompilerCommands

  /** `CompileOptions`: a unit's resolved target information. */
  datatype CompileOptions = CompileOptions(
    targetName: string,
    targetType: UnitType,
    targetLanguage: Languages.Language,
    sourceFiles: seq<Path>,
    outputDirectory: Path,
    intermediateDirectory: Path,
    includePaths: Option<seq<Path>>)

  /** The value returned by `get_compiler`: a toolchain holding the options. */
  datatype Backend = GccBackend(options: CompileOptions)

  /** `CompileOptions::new`: stores the target information, no include paths. */
  function NewCompileOptions(name: string, kind: UnitType, language: Languages.Language,
                             sources: seq<Path>, output: Path, intermediate: Path): (o: CompileOptions)
    ensures o.targetName == name && o.targetType == kind && o.targetLanguage == language
    ensures o.sourceFiles == sources && o.outputDirectory == output && o.intermediateDirectory == intermediate
    ensures o.includePaths.None?
  {
    CompileOptions(name, kind, language, sources, output, intermediate, None)
  }

  /** `CompileOptions::include_paths`: sets the include paths and nothing else. */
  function WithIncludePaths(o: CompileOptions, paths: seq<Path>): (o': CompileOptions)
    ensures o'.includePaths == Some(paths)
    ensures o'.(includePaths := o.includePaths) == o
  {
    o.(includePaths := Some(paths))
  }

  /** `get_compiler`: only GCC is implemented; every other selection hits
      `unimplemented!()`. */
  function GetCompiler(c: Compilers.Compiler, o: CompileOptions): (r: Result<Backend>)
    ensures r.Ok? <==> c == Compilers.Gcc
    ensures r.Ok? ==> r.value.options == o
    ensures r.Err? ==> r.error.Unimplemented?
  {
    if c == Compilers.Gcc then Ok(GccBackend(o)) else Err(Unimplemented("compiler " + Compilers.ToString(c)))
  }

  /** The older builder's error for a missing file. */
  function AsCompilerError(o: Outcome): Outcome {
    match o
    case Fail(NotFound(p)) => Fail(CompilerError(p))
    case _ => o
  }

  /** The older `output`: the output flag, then the file. */
  function OldOutput(e: Executor, file: Path, existing: set<Path>): (r: Result<Step>)
    ensures r.Err? <==> |file| == 0
    ensures r.Ok? ==> r.value.exec.args == e.args + [e.flags.output, Render(file)]
    ensures r.Err? ==> r.error == NoParent
    ensures r.Ok? ==> r.value.exec.program == e.program && r.value.exec.flags == e.flags
    ensures r.Ok? && |file| > 1 ==> file[..|file| - 1] in r.value.existing
    ensures r.Ok? ==> existing <= r.value.existing
  {
    Output(e, file, existing)
  }

  /** The older `compile`: a missing source is a `CompilerError` and leaves
      the arguments untouched; otherwise as `CompilerCommands.Compile`. */
  method OldCompile(e: Executor, source: Path, language: Option<string>, includes: Option<seq<Path>>, existing: set<Path>)
    returns (e': Executor, outcome: Outcome)
    ensures source !in existing ==> e' == e && outcome == Fail(CompilerError(source))
    ensures outcome.Pass? <==>
      source in existing && forall p :: p in includes.GetOr([]) ==> p in existing
    ensures outcome.Pass? ==>
      e'.args == e.args + LanguageArgs(e.flags, language)
                 + IncludeArgs(e.flags.includeDirectory, includes.GetOr([]))
                 + [e.flags.compile, Render(source)]
    ensures e'.program == e.program && e'.flags == e.flags
    ensures outcome.Fail? && source in existing ==>
      exists k :: FirstMissing(includes.GetOr([]), existing, k)
        && outcome == Fail(CompilerError(includes.GetOr([])[k]))
        && e'.args == e.args + LanguageArgs(e.flags, language)
                       + IncludeArgs(e.flags.includeDirectory, includes.GetOr([])[..k])
  {
    var o;
    e', o := Compile(e, source, language, includes, existing);
    outcome := AsCompilerError(o);
  }

  /** The older `link`: all objects are checked first; then all are appended. */
  method OldLink(e: Executor, objects: seq<Path>, existing: set<Path>)
    returns (e': Executor, outcome: Outcome)
    ensures outcome.Pass? <==> forall k :: 0 <= k < |objects| ==> objects[k] in existing
    ensures outcome.Pass? ==> e'.args == e.args + RenderAll(objects)
    ensures outcome.Pass? ==> e'.program == e.program && e'.flags == e.flags
    ensures outcome.Fail? ==> e' == e
    ensures outcome.Fail? ==> exists k :: FirstMissing(objects, existing, k) && outcome == Fail(CompilerError(objects[k]))
  {
    var o;
    e', o := Link(e, objects, existing);
    outcome := AsCompilerError(o);
  }
}
