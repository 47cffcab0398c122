/** The persistent project and unit records (src/config/project.rs,
    src/config/unit.rs).

    The two files disagree on the project's fields: `get_compile_options`
    reads global include paths and default binary/library/object directories
    that the `CopperProject` struct does not declare. This record holds the
    union of both field lists.
 */
module Schema {
  import opened Results
  import opened Paths
  import Languages
  import Compilers

  datatype UnitType = Binary | StaticLibrary

  /** `CopperUnit`: directories are relative to the project root; `None`
      means "derive from the project defaults". */
  datatype Unit = Unit(
    name: string,
    kind: UnitType,
    source: Path,
    outputDirectory: Option<Path>,
    intermediateDirectory: Option<Path>,
    includePaths: Option<seq<Path>>,
    additionalCompilerArgs: Option<string>)

  /** `CopperProject`; `location` is not persisted but set when the project
      file is loaded. */
  datatype Project = Project(
    name: string,
    language: Languages.Language,
    compiler: Compilers.Compiler,
    globalIncludePaths: Option<seq<Path>>,
    units: seq<Unit>,
    defaultBuildDirectory: Path,
    defaultBinaryDirectory: Path,
    defaultLibraryDirectory: Path,
    defaultObjectDirectory: Path,
    location: Path)
}
