/** The project compiler (`ProjectCompiler`, src/config/compiler.rs): its
    configuration-file spelling with aliases, and its executable name. */
module Compilers {
  import opened Results
  import opened Text

  datatype Compiler = Gcc | Gpp | Clang | Msvc

  const GCC_STR: string := "gcc"
  const GPP_STR: string := "g++"
  const CLANG_STR: string := "clang"
  const MSVC_STR: string := "msvc"

  /** `Into<String>`: the canonical spelling. */
  function ToString(c: Compiler): string {
    match c
    case Gcc => GCC_STR
    case Gpp => GPP_STR
    case Clang => CLANG_STR
    case Msvc => MSVC_STR
  }

  /** `str_variants`: the canonical spellings, in declaration order. */
  function StrVariants(): seq<string> {
    [GCC_STR, GPP_STR, CLANG_STR, MSVC_STR]
  }

  /** `executable_name`: the program looked up on the search path. */
  function ExecutableName(c: Compiler): string {
    match c
    case Gcc => "gcc"
    case Gpp => "g++"
    case Clang => "clang"
    case Msvc => "cl"
  }

  /** `TryFrom<String>`: lower-case, trim, then match a spelling or alias
      (`gpp` for G++, `cl` for MSVC). The error carries the raw input. */
  function Parse(s: string): Result<Compiler> {
    var t := Trim(Lower(s));
    if t == GCC_STR then Ok(Gcc)
    else if t == GPP_STR || t == "gpp" then Ok(Gpp)
    else if t == CLANG_STR then Ok(Clang)
    else if t == MSVC_STR || t == "cl" then Ok(Msvc)
    else Err(EnumParseError(s))
  }

  /** Every spelling the parser accepts for a compiler, canonical one first. */
  function Spellings(c: Compiler): seq<string> {
    match c
    case Gcc => [GCC_STR]
    case Gpp => [GPP_STR, "gpp"]
    case Clang => [CLANG_STR]
    case Msvc => [MSVC_STR, "cl"]
  }

  /** The input spells one of `c`'s accepted names, ignoring ASCII case and
      surrounding white space. */
  ghost predicate Names(s: string, c: Compiler) {
    exists k :: 0 <= k < |Spellings(c)| && SpellsLoosely(s, Spellings(c)[k])
  }

  /** Parsing yields `c` exactly when the input loosely spells one of `c`'s
      names. */
  lemma ParseNames(s: string, c: Compiler)
    ensures Parse(s) == Ok(c) <==> Names(s, c)
  {
    var sp := Spellings(c);
    ParseInSpellings(s, c);
    forall k | 0 <= k < |sp|
      ensures Trim(Lower(s)) == sp[k] <==> SpellsLoosely(s, sp[k])
    {
      TrimLowerSpells(s, sp[k]);
    }
    if Parse(s) == Ok(c) {
      var k :| 0 <= k < |sp| && Trim(Lower(s)) == sp[k];
    }
  }

  /** Parsing yields `c` exactly when the normalised input is one of `c`'s
      spellings. */
  lemma ParseInSpellings(s: string, c: Compiler)
    ensures Parse(s) == Ok(c) <==> Trim(Lower(s)) in Spellings(c)
  {
  }

  /** Inputs naming no compiler are exactly the failures, and the error is an
      `EnumParseError` carrying the input. */
  lemma ParseSpec(s: string, c: Compiler)
    ensures Parse(s) == Ok(c) <==> Names(s, c)
    ensures Parse(s).Err? <==> forall c' :: !Names(s, c')
    ensures Parse(s).Err? ==> Parse(s).error == EnumParseError(s)
  {
    ParseNames(s, c);
    if Parse(s).Ok? {
      ParseNames(s, Parse(s).value);
    } else {
      forall c' ensures !Names(s, c') {
        ParseNames(s, c');
      }
    }
  }

  /** Printing then parsing gives back the compiler. */
  lemma RoundTrip(c: Compiler)
    ensures Parse(ToString(c)) == Ok(c)
  {
    var w := ToString(c);
    assert PaddedAt(w, w, 0, |w|);
    assert Spellings(c)[0] == w;
    ParseSpec(w, c);
  }

  /** Aliases normalise: a parsed compiler prints as its canonical spelling,
      so print-after-parse is idempotent (`gpp` prints `g++`, `cl` prints `msvc`). */
  lemma ParseNormalises(s: string)
    requires Parse(s).Ok?
    ensures Trim(Lower(s)) in Spellings(Parse(s).value)
    ensures ToString(Parse(s).value) == Spellings(Parse(s).value)[0]
    ensures Parse(ToString(Parse(s).value)) == Parse(s)
  {
    var c, t := Parse(s).value, Trim(Lower(s));
    assert t == Spellings(c)[0] || t == Spellings(c)[|Spellings(c)| - 1];
    RoundTrip(c);
  }

  /** `gpp` is accepted and printed back as `g++`. */
  lemma AliasGppExample()
    ensures Parse("gpp") == Ok(Gpp) && ToString(Parse("gpp").value) == "g++"
  {
    SpelledTrims("gpp", "gpp", 0, 3);
  }

  /** ` CL ` is accepted (case and padding ignored) and printed back as `msvc`. */
  lemma AliasClExample()
    ensures Parse(" CL ") == Ok(Msvc) && ToString(Parse(" CL ").value) == "msvc"
  {
    assert Lower(" CL "[1..3]) == "cl";
    SpelledTrims(" CL ", "cl", 1, 3);
  }

  /** A spelling with extra characters is rejected. */
  lemma UnknownExample()
    ensures Parse("msvc++") == Err(EnumParseError("msvc++"))
  {
    assert Lower("msvc++") == "msvc++";
    SpelledTrims("msvc++", "msvc++", 0, 6);
  }

  /** The executable name equals the configuration spelling for every
      compiler except MSVC, whose program is `cl`. */
  lemma ExecutableNameVsSpelling(c: Compiler)
    ensures ExecutableName(c) == ToString(c) <==> c != Msvc
    ensures c == Msvc ==> ExecutableName(c) == Spellings(c)[1]
  {
  }

  /** The four listed variants are pairwise distinct and cover every
      compiler. */
  lemma StrVariantsComplete()
    ensures |StrVariants()| == 4
    ensures forall i, j :: 0 <= i < j < 4 ==> StrVariants()[i] != StrVariants()[j]
    ensures forall c :: ToString(c) in StrVariants()
  {
  }

  /** Each listed variant parses to its own compiler, so the four parse to
      pairwise distinct compilers. */
  lemma StrVariantsParse()
    ensures Parse(StrVariants()[0]) == Ok(Gcc)
    ensures Parse(StrVariants()[1]) == Ok(Gpp)
    ensures Parse(StrVariants()[2]) == Ok(Clang)
    ensures Parse(StrVariants()[3]) == Ok(Msvc)
  {
    RoundTrip(Gcc);
    RoundTrip(Gpp);
    RoundTrip(Clang);
    RoundTrip(Msvc);
  }
}
