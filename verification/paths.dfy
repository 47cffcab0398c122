/** File-system paths as sequences of components.

    A `PathBuf` is modelled by its components; `join` of a relative path is
    concatenation. A literal such as `"bin/"` has the single component
    `"bin"` (a trailing separator adds no component). The helpers below model
    `Path::extension`, `Path::set_extension` on a final component, and the
    conversion of a path to a command-line argument.
 */
module Paths {
  import opened Results

  type Path = seq<string>

  /** The text of a path as handed to a child process: components joined by `/`. */
  function Render(p: Path): string
    decreases |p|
  {
    if |p| == 0 then ""
    else if |p| == 1 then p[0]
    else p[0] + "/" + Render(p[1..])
  }

  /** Index of the last `.` in `s`, if any. */
  function LastDot(s: string): (r: Option<nat>)
    ensures r.Some? ==> r.value < |s| && s[r.value] == '.'
    ensures r.Some? ==> forall k :: r.value < k < |s| ==> s[k] != '.'
    ensures r.None? ==> forall k :: 0 <= k < |s| ==> s[k] != '.'
    decreases |s|
  {
    if |s| == 0 then None
    else if s[|s| - 1] == '.' then Some(|s| - 1)
    else LastDot(s[..|s| - 1])
  }

  /** `Path::extension` of a file name: the text after the last `.`, unless
      the name has no `.`, its only `.` is the leading one (`.bashrc`), or the
      name is `..`. A trailing `.` gives the empty extension. */
  function Extension(name: string): Option<string> {
    if name == ".." then None
    else match LastDot(name)
      case None => None
      case Some(i) => if i == 0 then None else Some(name[i + 1..])
  }

  /** `Path::file_stem`: the name without its extension and the dot before it. */
  function FileStem(name: string): string {
    match Extension(name)
    case None => name
    case Some(e) => name[..|name| - |e| - 1]
  }

  /** `Path::set_extension` on a file name: replaces the extension (or adds
      one when there is none); an empty `ext` removes it. Names that are not
      file names (``, `.`, `..`) are left alone. */
  function SetExtension(name: string, ext: string): string {
    if name == "" || name == "." || name == ".." then name
    else FileStem(name) + (if ext == "" then "" else "." + ext)
  }

  /** The last `.` of `a + "." + b` is the one between them when `b` has none. */
  lemma {:induction false} LastDotOfJoin(a: string, b: string)
    requires forall k :: 0 <= k < |b| ==> b[k] != '.'
    ensures LastDot(a + "." + b) == Some(|a|)
    decreases |b|
  {
    if |b| > 0 {
      var b' := b[..|b| - 1];
      assert (a + "." + b)[..|a + "." + b| - 1] == a + "." + b';
      LastDotOfJoin(a, b');
    }
  }

  /** A name `stem.ext` (non-empty stem, no dot in `ext`) has extension `ext`. */
  lemma ExtensionOfJoin(stem: string, ext: string)
    requires |stem| > 0 && stem + "." + ext != ".."
    requires forall k :: 0 <= k < |ext| ==> ext[k] != '.'
    ensures Extension(stem + "." + ext) == Some(ext)
  {
    LastDotOfJoin(stem, ext);
    assert (stem + "." + ext)[|stem| + 1..] == ext;
  }

  /** Setting a non-empty, dot-free extension on a file name makes it the
      name's extension (`set_extension` then `extension` round-trips). */
  lemma ExtensionAfterSet(name: string, ext: string)
    requires name != "" && name != "." && name != ".."
    requires ext != ""
    requires forall k :: 0 <= k < |ext| ==> ext[k] != '.'
    ensures Extension(SetExtension(name, ext)) == Some(ext)
  {
    var stem := FileStem(name);
    FileStemNonEmpty(name);
    var joined := stem + "." + ext;
    assert SetExtension(name, ext) == joined;
    assert |joined| > 2;
    ExtensionOfJoin(stem, ext);
  }

  /** A file name keeps a non-empty stem. */
  lemma FileStemNonEmpty(name: string)
    requires name != "" && name != "." && name != ".."
    ensures |FileStem(name)| > 0
  {
    match LastDot(name)
    case None =>
    case Some(i) =>
      if i > 0 {
        assert Extension(name) == Some(name[i + 1..]);
      }
  }

  /** A name without a `.` has no last dot. */
  lemma {:induction false} LastDotNone(s: string)
    requires forall k :: 0 <= k < |s| ==> s[k] != '.'
    ensures LastDot(s) == None
    decreases |s|
  {
    if |s| > 0 {
      var t := s[..|s| - 1];
      assert forall k :: 0 <= k < |t| ==> t[k] == s[k];
      LastDotNone(t);
    }
  }

  /** On a dot-free name, `set_extension` appends `.ext`. */
  lemma SetExtensionAppends(name: string, ext: string)
    requires name != "" && ext != ""
    requires forall k :: 0 <= k < |name| ==> name[k] != '.'
    ensures SetExtension(name, ext) == name + "." + ext
  {
    assert name[0] != '.';
    LastDotNone(name);
    assert Extension(name) == None;
    assert FileStem(name) == name;
  }
}
