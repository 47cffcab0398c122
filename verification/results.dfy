/** Failure-carrying values shared by every module of the Copper model.

    Rust's `Option`, `Result` and the several `Error` enums of the tool are
    represented once here. A `panic!`, `todo!()`, `unimplemented!()`,
    `expect(..)` or `process::exit(1)` in the tool becomes an `Err`/`Fail`
    carrying one of the `Error` variants below, so that every failure path is
    an ordinary value the caller can inspect.
 */
module Results {

  datatype Option<+T> = None | Some(value: T) {

    /** `unwrap_or`: the carried value, or `default` when there is none. */
    function GetOr(default: T): T {
      match this
      case Some(v) => v
      case None => default
    }
  }

  /** The error vocabulary of the tool. Variants that the source's error
      enums declare keep their names; the others stand for the failure
      named in their comment. */
  datatype Error =
      /** `EnumParseError` of src/error.rs: an unknown language, compiler or
          unit-type spelling; carries the raw input. */
    | EnumParseError(value: string)
      /** The legacy build's `expect("Project ... not selected")` panic on an
          unset language or compiler (src/project.rs:232, :260), named after
          `MissingConfigError` of src/error.rs. */
    | MissingConfigError(field: string)
      /** `InvalidUnitType` of src/config/error.rs: an unknown unit type. */
    | InvalidUnitType(value: string)
      /** `Error::NoSourceFiles`, returned at src/config/unit.rs:64 (the
          variant is not declared in src/config/error.rs). */
    | NoSourceFiles
      /** `read_dir` failing on a unit's directory: `process::exit(1)` at
          src/config/unit.rs:60 and `expect("Unit location not found")` at
          src/project.rs:230. */
    | SourceDirectoryUnreadable(dir: seq<string>)
      /** `Error::UnitError`, returned at src/config/project.rs:149 for an
          unknown unit name (the variant is not declared in the error enums). */
    | UnitError(unit: string)
      /** A `todo!()` (src/config/unit.rs:99) or `unimplemented!()`
          (src/compiler/mod.rs:56) being reached. */
    | Unimplemented(feature: string)
      /** The `io::ErrorKind::NotFound` error of src/compiler/command.rs. */
    | NotFound(path: seq<string>)
      /** `CompilerError` of the older builder in src/compiler/mod.rs. */
    | CompilerError(path: seq<string>)
      /** The `parent().unwrap()` panic of src/compiler/command.rs:77 on a
          path without a parent. */
    | NoParent
      /** The `io::ErrorKind::AlreadyExists` error of `File::create_new` at
          src/config/project.rs:87. */
    | AlreadyExists(path: seq<string>)

  datatype Result<+T> = Ok(value: T) | Err(error: Error)

  /** A `Result<(), Error>`. */
  datatype Outcome = Pass | Fail(error: Error)
}
