/** Compiler availability probing (src/compiler/util.rs).

    The `PATH` variable is a parameter (`None` when unset, otherwise its
    directories in order), `is_file` is membership in the set `files`, and
    `cfg!(windows)` is the flag `windows`.
 */
module CompilerUtil {
  import opened Results
  import opened Paths
  import opened Compilers

  /** The file name searched for: on Windows the name gets the `exe`
      extension via `set_extension`; elsewhere it is unchanged. */
  function ExecutableFileName(name: string, windows: bool): string {
    if windows then SetExtension(name, "exe") else name
  }

  /** Directory `k` of the search path holds the executable as a file. */
  ghost predicate FoundIn(dirs: seq<Path>, exe: string, files: set<Path>, k: int) {
    0 <= k < |dirs| && dirs[k] + [exe] in files
  }

  /** Some directory of the search path holds the program. */
  ghost predicate Findable(name: string, pathVar: Option<seq<Path>>, files: set<Path>, windows: bool) {
    pathVar.Some? && exists k :: FoundIn(pathVar.value, ExecutableFileName(name, windows), files, k)
  }

  /** `find_executable`: the first directory of `PATH`, in order, in which
      `dir/name` is a file; `None` when `PATH` is unset or no directory has it. */
  method FindExecutable(name: string, pathVar: Option<seq<Path>>, files: set<Path>, windows: bool)
    returns (r: Option<Path>)
    ensures r.Some? <==> Findable(name, pathVar, files, windows)
    ensures r.Some? ==>
      exists k :: FoundIn(pathVar.value, ExecutableFileName(name, windows), files, k)
        && r.value == pathVar.value[k] + [ExecutableFileName(name, windows)]
        && forall j :: 0 <= j < k ==> !FoundIn(pathVar.value, ExecutableFileName(name, windows), files, j)
  {
    if pathVar.None? {
      return None;
    }
    var dirs := pathVar.value;
    var exe := ExecutableFileName(name, windows);
    var i := 0;
    while i < |dirs|
      invariant 0 <= i <= |dirs|
      invariant forall j :: 0 <= j < i ==> !FoundIn(dirs, exe, files, j)
    {
      if dirs[i] + [exe] in files {
        assert FoundIn(dirs, exe, files, i);
        return Some(dirs[i] + [exe]);
      }
      i := i + 1;
    }
    return None;
  }

  /** `check_if_available`: GCC, G++ and Clang are available iff their
      executable is on the search path; MSVC only on Windows, and only when
      both `cl` and the separate `link` program are found. */
  method CheckIfAvailable(c: Compiler, pathVar: Option<seq<Path>>, files: set<Path>, windows: bool)
    returns (available: bool)
    ensures c != Msvc ==> (available <==> Findable(ExecutableName(c), pathVar, files, windows))
    ensures c == Msvc ==> (available <==>
      windows && Findable("cl", pathVar, files, windows) && Findable("link", pathVar, files, windows))
    ensures c == Msvc && !windows ==> !available
  {
    if c != Msvc {
      var found := FindExecutable(ExecutableName(c), pathVar, files, windows);
      return found.Some?;
    }
    if !windows {
      return false;
    }
    var compiler := FindExecutable(ExecutableName(c), pathVar, files, windows);
    if compiler.None? {
      return false;
    }
    var linker := FindExecutable("link", pathVar, files, windows);
    if linker.None? {
      return false;
    }
    return true;
  }

  /** On Windows each program is searched as `<name>.exe` (none of the names
      contains a dot); elsewhere under its bare name. */
  lemma SearchedNames(c: Compiler)
    ensures ExecutableFileName(ExecutableName(c), true) == ExecutableName(c) + ".exe"
    ensures ExecutableFileName("link", true) == "link.exe"
    ensures forall n :: ExecutableFileName(n, false) == n
  {
    var n := ExecutableName(c);
    assert forall k :: 0 <= k < |n| ==> n[k] != '.';
    SetExtensionAppends(n, "exe");
    SetExtensionAppends("link", "exe");
  }
}
