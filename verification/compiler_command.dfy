/** The compiler command builder (src/compiler/command.rs).

    A `CompilerCommand` pairs an executable with its flag table; an
    `Executor` accumulates the argument vector of one process invocation.
    The file system is the set `existing` of paths that exist (files or
    directories); `Path::exists` is membership in it. Spawning the process
    (`execute`) is outside the model.
 */
module CompilerCommands {
  import opened Results
  import opened Paths

  /** `CompilerCommandFlags`: the toolchain's flag spellings. */
  datatype Flags = Flags(output: string, compile: string, includeDirectory: string, language: string)

  datatype CompilerCommand = CompilerCommand(executableName: string, flags: Flags)

  /** `CompilerCommandExecutor`: the program to run and its arguments so far. */
  datatype Executor = Executor(program: string, flags: Flags, args: seq<string>)

  /** The executor after a mutator, with the set of existing paths after it. */
  datatype Step = Step(exec: Executor, existing: set<Path>)

  /** `CompilerCommandExecutor::new`. */
  function NewExecutor(executableName: string, flags: Flags): (e: Executor)
    ensures e.program == executableName && e.flags == flags && e.args == []
  {
    Executor(executableName, flags, [])
  }

  /** `CompilerCommand::executor`: a fresh executor for this command. */
  function ExecutorOf(cmd: CompilerCommand): (e: Executor)
    ensures e.program == cmd.executableName && e.flags == cmd.flags && e.args == []
  {
    NewExecutor(cmd.executableName, cmd.flags)
  }

  /** Every non-empty prefix of `dir`: the directories `create_dir_all(dir)`
      makes exist. */
  function Ancestry(dir: Path): set<Path> {
    set k | 1 <= k <= |dir| :: dir[..k]
  }

  /** `output`: makes sure the output file's parent directory exists
      (creating it with its ancestors if absent), then appends the output
      flag and the file. A path without a parent (the empty path) makes
      `parent().unwrap()` panic. Failure of `create_dir_all` is not modelled. */
  function Output(e: Executor, file: Path, existing: set<Path>): (r: Result<Step>)
    ensures r.Err? <==> |file| == 0
    ensures r.Err? ==> r.error == NoParent
    ensures r.Ok? ==> r.value.exec.args == e.args + [e.flags.output, Render(file)]
    ensures r.Ok? ==> r.value.exec.program == e.program && r.value.exec.flags == e.flags
    ensures r.Ok? && |file| > 1 ==> file[..|file| - 1] in r.value.existing
    ensures r.Ok? ==> existing <= r.value.existing
    ensures r.Ok? ==> forall q :: q in r.value.existing && q !in existing ==>
              0 < |q| < |file| && q == file[..|q|]
  {
    if |file| == 0 then Err(NoParent)
    else
      var dir := file[..|file| - 1];
      assert dir[..|dir|] == dir;
      assert |dir| > 0 ==> dir in Ancestry(dir);
      var existing' := if dir in existing then existing else existing + Ancestry(dir);
      Ok(Step(e.(args := e.args + [e.flags.output, Render(file)]), existing'))
  }

  /** The language-override arguments: `[flag, language]` when one is given. */
  function LanguageArgs(flags: Flags, language: Option<string>): seq<string> {
    match language
    case None => []
    case Some(l) => [flags.language, l]
  }

  /** One `[flag, path]` pair per include path, in order. */
  function IncludeArgs(flag: string, paths: seq<Path>): (r: seq<string>)
    ensures |r| == 2 * |paths|
    ensures forall k :: 0 <= k < |paths| ==> r[2 * k] == flag && r[2 * k + 1] == Render(paths[k])
  {
    if |paths| == 0 then []
    else
      var rest := IncludeArgs(flag, paths[1..]);
      var r := [flag, Render(paths[0])] + rest;
      assert forall k :: 0 <= k < |paths| ==> r[2 * k] == flag && r[2 * k + 1] == Render(paths[k]) by {
        forall k | 1 <= k < |paths|
          ensures r[2 * k] == flag && r[2 * k + 1] == Render(paths[k])
        {
          assert 2 * k == 2 + 2 * (k - 1);
          assert paths[k] == paths[1..][k - 1];
        }
      }
      r
  }

  lemma {:induction false} IncludeArgsSnoc(flag: string, paths: seq<Path>, i: nat)
    requires i < |paths|
    ensures IncludeArgs(flag, paths[..i + 1]) == IncludeArgs(flag, paths[..i]) + [flag, Render(paths[i])]
  {
    var a, b := IncludeArgs(flag, paths[..i + 1]), IncludeArgs(flag, paths[..i]) + [flag, Render(paths[i])];
    assert |a| == |b|;
    forall k | 0 <= k < |a| ensures a[k] == b[k] {
      if k < 2 * i {
        assert a[k] == b[k] by {
          if k % 2 == 0 {
            assert a[2 * (k / 2)] == flag;
          } else {
            assert a[2 * (k / 2) + 1] == Render(paths[..i + 1][k / 2]);
            assert b[2 * (k / 2) + 1] == Render(paths[..i][k / 2]);
          }
        }
      }
    }
  }

  /** The paths' texts, in order. */
  function RenderAll(paths: seq<Path>): (r: seq<string>)
    ensures |r| == |paths|
  {
    seq(|paths|, k requires 0 <= k < |paths| => Render(paths[k]))
  }

  /** `paths[k]` is the first path of the list that does not exist. */
  ghost predicate FirstMissing(paths: seq<Path>, existing: set<Path>, k: int) {
    0 <= k < |paths| && paths[k] !in existing && forall j :: 0 <= j < k ==> paths[j] in existing
  }

  /** `compile`: a missing source file fails before anything is appended;
      otherwise the language override, then one include pair per include
      path, then the compile flag and the source are appended. A missing
      include path fails with the language override and the earlier include
      pairs already appended. */
  method Compile(e: Executor, source: Path, language: Option<string>, includes: Option<seq<Path>>, existing: set<Path>)
    returns (e': Executor, outcome: Outcome)
    ensures e'.program == e.program && e'.flags == e.flags
    ensures source !in existing ==> e' == e && outcome == Fail(NotFound(source))
    ensures outcome.Pass? <==>
      source in existing && forall p :: p in includes.GetOr([]) ==> p in existing
    ensures outcome.Pass? ==>
      e'.args == e.args + LanguageArgs(e.flags, language)
                 + IncludeArgs(e.flags.includeDirectory, includes.GetOr([]))
                 + [e.flags.compile, Render(source)]
    ensures outcome.Fail? && source in existing ==>
      exists k :: FirstMissing(includes.GetOr([]), existing, k)
        && outcome == Fail(NotFound(includes.GetOr([])[k]))
        && e'.args == e.args + LanguageArgs(e.flags, language)
                       + IncludeArgs(e.flags.includeDirectory, includes.GetOr([])[..k])
  {
    if source !in existing {
      return e, Fail(NotFound(source));
    }
    var args := e.args + LanguageArgs(e.flags, language);
    var paths := includes.GetOr([]);
    var flag := e.flags.includeDirectory;
    var i := 0;
    while i < |paths|
      invariant 0 <= i <= |paths|
      invariant forall j :: 0 <= j < i ==> paths[j] in existing
      invariant args == e.args + LanguageArgs(e.flags, language) + IncludeArgs(flag, paths[..i])
    {
      if paths[i] !in existing {
        assert FirstMissing(paths, existing, i);
        return e.(args := args), Fail(NotFound(paths[i]));
      }
      IncludeArgsSnoc(flag, paths, i);
      args := args + [flag, Render(paths[i])];
      i := i + 1;
    }
    assert paths[..i] == paths;
    e' := e.(args := args + [e.flags.compile, Render(source)]);
    outcome := Pass;
  }

  /** `link`: every object file is checked before any is appended; on
      success all of them are appended in order, otherwise the argument
      vector is unchanged and the first missing object is reported. */
  method Link(e: Executor, objects: seq<Path>, existing: set<Path>)
    returns (e': Executor, outcome: Outcome)
    ensures outcome.Pass? <==> forall k :: 0 <= k < |objects| ==> objects[k] in existing
    ensures outcome.Pass? ==> e' == e.(args := e.args + RenderAll(objects))
    ensures outcome.Pass? ==> forall k :: 0 <= k < |objects| ==> e'.args[|e.args| + k] == Render(objects[k])
    ensures outcome.Fail? ==> e' == e
    ensures outcome.Fail? ==> exists k :: FirstMissing(objects, existing, k) && outcome == Fail(NotFound(objects[k]))
  {
    var i := 0;
    while i < |objects|
      invariant 0 <= i <= |objects|
      invariant forall j :: 0 <= j < i ==> objects[j] in existing
    {
      if objects[i] !in existing {
        assert FirstMissing(objects, existing, i);
        return e, Fail(NotFound(objects[i]));
      }
      i := i + 1;
    }
    e' := e.(args := e.args + RenderAll(objects));
    outcome := Pass;
  }
}
