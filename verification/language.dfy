/** The project language (`ProjectLanguage`, src/config/language.rs): its
    configuration-file spelling and the source-file extensions it compiles. */
module Languages {
  import opened Results
  import opened Text

  datatype Language = C | Cpp

  const C_STR: string := "c"
  const CPP_STR: string := "c++"

  /** `Into<String>`: the canonical spelling written to the project file. */
  function ToString(l: Language): string {
    match l
    case C => C_STR
    case Cpp => CPP_STR
  }

  /** `Display`: the spelling shown to the user. */
  function Display(l: Language): string {
    match l
    case C => "c"
    case Cpp => "c++"
  }

  /** `str_variants`: the accepted canonical spellings, in declaration order. */
  function StrVariants(): seq<string> {
    [C_STR, CPP_STR]
  }

  /** `extensions`: the file extensions whose files are compiled as sources. */
  function Extensions(l: Language): seq<string> {
    match l
    case C => ["c"]
    case Cpp => ["c", "cpp"]
  }

  /** `TryFrom<String>`: lower-case, trim, then match a canonical spelling.
      The error carries the raw input. */
  function Parse(s: string): Result<Language> {
    var t := Trim(Lower(s));
    if t == C_STR then Ok(C)
    else if t == CPP_STR then Ok(Cpp)
    else Err(EnumParseError(s))
  }

  /** Parsing succeeds with `l` exactly when the input spells `l`'s canonical
      name up to ASCII case and surrounding white space; every other input is
      an `EnumParseError` carrying the input. */
  lemma ParseSpec(s: string, l: Language)
    ensures Parse(s) == Ok(l) <==> SpellsLoosely(s, ToString(l))
    ensures Parse(s).Err? <==> !SpellsLoosely(s, C_STR) && !SpellsLoosely(s, CPP_STR)
    ensures Parse(s).Err? ==> Parse(s).error == EnumParseError(s)
  {
    TrimLowerSpells(s, C_STR);
    TrimLowerSpells(s, CPP_STR);
  }

  /** Printing then parsing gives back the language. */
  lemma RoundTrip(l: Language)
    ensures Parse(ToString(l)) == Ok(l)
  {
    var w := ToString(l);
    assert PaddedAt(w, w, 0, |w|);
    ParseSpec(w, l);
  }

  /** A successful parse is normalised: printing the result yields the
      trimmed, lower-cased input, and printing is a fixed point of parsing. */
  lemma ParseNormalises(s: string)
    requires Parse(s).Ok?
    ensures ToString(Parse(s).value) == Trim(Lower(s))
    ensures Parse(ToString(Parse(s).value)) == Parse(s)
  {
    RoundTrip(Parse(s).value);
  }

  /** `Display` and `Into<String>` agree on every language. */
  lemma DisplayIsToString(l: Language)
    ensures Display(l) == ToString(l)
  {
  }

  /** Every language a C project compiles is compiled by a C++ project too;
      only C++ accepts `cpp`. */
  lemma ExtensionsNested()
    ensures forall e :: e in Extensions(C) ==> e in Extensions(Cpp)
    ensures "cpp" in Extensions(Cpp) && "cpp" !in Extensions(C)
  {
  }

  /** The listed variants are exactly the printed forms of the two languages,
      and each parses back to a distinct language. */
  lemma StrVariantsComplete()
    ensures |StrVariants()| == 2
    ensures forall l :: ToString(l) in StrVariants()
    ensures forall i :: 0 <= i < |StrVariants()| ==> Parse(StrVariants()[i]).Ok?
    ensures Parse(StrVariants()[0]) != Parse(StrVariants()[1])
  {
    RoundTrip(C);
    RoundTrip(Cpp);
  }
}
