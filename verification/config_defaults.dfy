/** Project-file name and default directory layout (src/config/mod.rs).

    The `default` closures produce the conventional directory names; the
    `equals` closures recognise a field that still holds its default, which
    lets the project file omit it.
 */
module ConfigDefaults {
  import opened Paths

  const PROJECT_FILE_NAME: string := "copper.toml"
  const PROJECT_DIRECTORY_NAME: string := ".copper"

  function LocalDirectory(): Path { ["."] }
  function BuildDirectory(): Path { ["build"] }
  function BinaryDirectory(): Path { ["bin"] }
  function LibraryDirectory(): Path { ["lib"] }
  function ObjectDirectory(): Path { ["obj"] }
  function SourceDirectory(): Path { ["src"] }

  /** The six defaults, in declaration order. */
  function Defaults(): seq<Path> {
    [LocalDirectory(), BuildDirectory(), BinaryDirectory(), LibraryDirectory(), ObjectDirectory(), SourceDirectory()]
  }

  predicate IsLocalDirectory(p: Path) { p == LocalDirectory() }
  predicate IsBuildDirectory(p: Path) { p == BuildDirectory() }
  predicate IsBinaryDirectory(p: Path) { p == BinaryDirectory() }
  predicate IsLibraryDirectory(p: Path) { p == LibraryDirectory() }
  predicate IsObjectDirectory(p: Path) { p == ObjectDirectory() }
  predicate IsSourceDirectory(p: Path) { p == SourceDirectory() }

  /** The `equals` predicate of default number `i` (declaration order). */
  predicate IsDefault(i: nat, p: Path)
    requires i < 6
  {
    match i
    case 0 => IsLocalDirectory(p)
    case 1 => IsBuildDirectory(p)
    case 2 => IsBinaryDirectory(p)
    case 3 => IsLibraryDirectory(p)
    case 4 => IsObjectDirectory(p)
    case _ => IsSourceDirectory(p)
  }

  /** Each `equals` predicate accepts its own default and rejects every other
      default, so a default field is recognised unambiguously on save. */
  lemma EqualsRecognisesOnlyItsDefault()
    ensures forall i, j :: 0 <= i < 6 && 0 <= j < 6 ==> (IsDefault(i, Defaults()[j]) <==> i == j)
  {
  }

  /** A path that is not the default is never taken for it. */
  lemma EqualsRejectsOthers(i: nat, p: Path)
    requires i < 6
    requires p != Defaults()[i]
    ensures !IsDefault(i, p)
  {
  }

  /** Each default is a single relative component: `.`, `build`, `bin`,
      `lib`, `obj` and `src`. */
  lemma DefaultValues()
    ensures Defaults() == [["."], ["build"], ["bin"], ["lib"], ["obj"], ["src"]]
    ensures forall i :: 0 <= i < 6 ==> |Defaults()[i]| == 1
    ensures PROJECT_FILE_NAME == "copper.toml"
  {
  }
}
