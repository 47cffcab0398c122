/** The GCC flag table (src/compiler/gcc.rs). */
module Gcc {
  import opened CompilerCommands

  /** `FLAGS`: `-o <file>`, `-c <source>`, `-I <dir>`, `-x <language>`. */
  const FLAGS: Flags := Flags("-o", "-c", "-I", "-x")

  /** The four spellings, and that no two roles share one, so every flag in
      an argument vector names exactly one role. */
  lemma FlagSpellings()
    ensures FLAGS.output == "-o" && FLAGS.compile == "-c"
    ensures FLAGS.includeDirectory == "-I" && FLAGS.language == "-x"
    ensures |{FLAGS.output, FLAGS.compile, FLAGS.includeDirectory, FLAGS.language}| == 4
  {
  }
}
