/** ASCII text helpers behind the enum parsers: `to_lowercase` and `trim`.

    The tool applies Rust's Unicode-aware `str::to_lowercase` and `str::trim`;
    this model restricts both to ASCII. Lower-casing maps `A`..`Z` to
    `a`..`z`; white space is the ASCII part of Unicode's White_Space property
    (space and the controls U+0009 to U+000D).
 */
module Text {

  predicate IsWhitespace(c: char) {
    c == ' ' || 9 <= c as int <= 13
  }

  predicate AllWhitespace(s: string) {
    forall i :: 0 <= i < |s| ==> IsWhitespace(s[i])
  }

  function LowerChar(c: char): char {
    if 'A' <= c <= 'Z' then (c as int + 32) as char else c
  }

  /** ASCII `to_lowercase`. */
  function Lower(s: string): string {
    seq(|s|, i requires 0 <= i < |s| => LowerChar(s[i]))
  }

  /** Number of white-space characters from position `i` of `s` onwards. */
  function WhitespaceFrom(s: string, i: nat): (n: nat)
    requires i <= |s|
    ensures i + n <= |s|
    ensures forall k :: i <= k < i + n ==> IsWhitespace(s[k])
    ensures i + n < |s| ==> !IsWhitespace(s[i + n])
    decreases |s| - i
  {
    if i < |s| && IsWhitespace(s[i]) then WhitespaceFrom(s, i + 1) + 1 else 0
  }

  /** Number of white-space characters at the front of `s`: the longest
      white-space prefix, so the character after it (if any) is not white. */
  function LeadingWhitespace(s: string): (n: nat)
    ensures n <= |s|
    ensures AllWhitespace(s[..n])
    ensures n < |s| ==> !IsWhitespace(s[n])
  {
    WhitespaceFrom(s, 0)
  }

  /** Number of white-space characters just before position `j` of `s`. */
  function WhitespaceBefore(s: string, j: nat): (n: nat)
    requires j <= |s|
    ensures n <= j
    ensures forall k :: j - n <= k < j ==> IsWhitespace(s[k])
    ensures n < j ==> !IsWhitespace(s[j - n - 1])
    decreases j
  {
    if j > 0 && IsWhitespace(s[j - 1]) then WhitespaceBefore(s, j - 1) + 1 else 0
  }

  /** Number of white-space characters at the end of `s`: the longest
      white-space suffix, so the character before it (if any) is not white. */
  function TrailingWhitespace(s: string): (n: nat)
    ensures n <= |s|
    ensures AllWhitespace(s[|s| - n..])
    ensures n < |s| ==> !IsWhitespace(s[|s| - n - 1])
  {
    WhitespaceBefore(s, |s|)
  }

  /** `str::trim`: drop leading, then trailing white space. */
  function Trim(s: string): string {
    var t := s[LeadingWhitespace(s)..];
    t[..|t| - TrailingWhitespace(t)]
  }

  /** `s` and the lower-case word `w` are equal up to ASCII case. */
  predicate EqualsIgnoringCase(s: string, w: string) {
    |s| == |w| && forall i :: 0 <= i < |s| ==> LowerChar(s[i]) == w[i]
  }

  /** A word with no white space at either end (every canonical enum spelling). */
  predicate Bare(w: string) {
    |w| > 0 && !IsWhitespace(w[0]) && !IsWhitespace(w[|w| - 1])
  }

  /** `s` is `w` up to ASCII case, surrounded by white space: `s[..i]` and
      `s[j..]` are white, and the middle lower-cases to `w`. */
  ghost predicate PaddedAt(s: string, w: string, i: int, j: int) {
    0 <= i <= j <= |s| && AllWhitespace(s[..i]) && AllWhitespace(s[j..]) && Lower(s[i..j]) == w
  }

  /** The reference meaning of "`s` spells `w`, ignoring case and padding". */
  ghost predicate SpellsLoosely(s: string, w: string) {
    exists i, j :: PaddedAt(s, w, i, j)
  }

  lemma LowerKeepsWhitespace(c: char)
    ensures IsWhitespace(LowerChar(c)) <==> IsWhitespace(c)
    ensures IsWhitespace(c) ==> LowerChar(c) == c
  {
  }

  /** Past a white block `a`, the count from `m` before its end is `m`. */
  lemma {:induction false} WhitespaceFromOf(a: string, t: string, m: nat)
    requires AllWhitespace(a) && m <= |a|
    requires |t| > 0 ==> !IsWhitespace(t[0])
    ensures WhitespaceFrom(a + t, |a| - m) == m
    decreases m
  {
    if m > 0 {
      assert (a + t)[|a| - m] == a[|a| - m];
      WhitespaceFromOf(a, t, m - 1);
    } else if |t| > 0 {
      assert (a + t)[|a|] == t[0];
    }
  }

  /** The leading-white-space count is determined by any split into a white
      prefix and a remainder that does not start white. */
  lemma LeadingWhitespaceOf(a: string, t: string)
    requires AllWhitespace(a)
    requires |t| > 0 ==> !IsWhitespace(t[0])
    ensures LeadingWhitespace(a + t) == |a|
  {
    WhitespaceFromOf(a, t, |a|);
  }

  /** Before a white block `b`, the count up to `m` into it is `m`. */
  lemma {:induction false} WhitespaceBeforeOf(t: string, b: string, m: nat)
    requires AllWhitespace(b) && m <= |b|
    requires |t| > 0 ==> !IsWhitespace(t[|t| - 1])
    ensures WhitespaceBefore(t + b, |t| + m) == m
    decreases m
  {
    if m > 0 {
      assert (t + b)[|t| + m - 1] == b[m - 1];
      WhitespaceBeforeOf(t, b, m - 1);
    } else if |t| > 0 {
      assert (t + b)[|t| - 1] == t[|t| - 1];
    }
  }

  /** Symmetric to `LeadingWhitespaceOf`, at the end of the string. */
  lemma TrailingWhitespaceOf(t: string, b: string)
    requires AllWhitespace(b)
    requires |t| > 0 ==> !IsWhitespace(t[|t| - 1])
    ensures TrailingWhitespace(t + b) == |b|
  {
    WhitespaceBeforeOf(t, b, |b|);
  }

  /** A word without white space is its own trim. */
  lemma TrimOfBare(w: string)
    requires forall k :: 0 <= k < |w| ==> !IsWhitespace(w[k])
    ensures Trim(w) == w
  {
    assert "" + w == w;
    LeadingWhitespaceOf("", w);
    assert w + "" == w;
    TrailingWhitespaceOf(w, "");
  }

  /** Lower-casing a string whose characters are all white leaves it unchanged. */
  lemma LowerOfWhitespace(a: string)
    requires AllWhitespace(a)
    ensures Lower(a) == a
  {
    forall i | 0 <= i < |a|
      ensures Lower(a)[i] == a[i]
    {
      LowerKeepsWhitespace(a[i]);
    }
  }

  /** Trimming the lower-cased input yields the bare word `w` exactly when the
      input spells `w` ignoring ASCII case and surrounding white space. This is
      the characterisation every `to_lowercase().trim()` parser relies on. */
  lemma TrimLowerSpells(s: string, w: string)
    requires Bare(w)
    ensures Trim(Lower(s)) == w <==> SpellsLoosely(s, w)
  {
    if Trim(Lower(s)) == w {
      TrimmedSpells(s, w);
    }
    if SpellsLoosely(s, w) {
      var i, j :| PaddedAt(s, w, i, j);
      SpelledTrims(s, w, i, j);
    }
  }

  /** Lower-casing commutes with slicing. */
  lemma LowerSlice(s: string, i: int, j: int)
    requires 0 <= i <= j <= |s|
    ensures Lower(s[i..j]) == Lower(s)[i..j]
  {
  }

  lemma TrimmedSpells(s: string, w: string)
    requires Trim(Lower(s)) == w
    ensures SpellsLoosely(s, w)
  {
    var i, j := TrimBounds(Lower(s));
    WhitePrefixUnderLower(s, i);
    WhiteSuffixUnderLower(s, j);
    LowerSlice(s, i, j);
    assert PaddedAt(s, w, i, j);
  }

  /** `Trim(x)` is the slice of `x` between a white prefix and a white suffix. */
  lemma TrimBounds(x: string) returns (i: int, j: int)
    ensures 0 <= i <= j <= |x|
    ensures AllWhitespace(x[..i]) && AllWhitespace(x[j..])
    ensures x[i..j] == Trim(x)
  {
    i := LeadingWhitespace(x);
    var y := x[i..];
    var k := TrailingWhitespace(y);
    j := |x| - k;
    forall m | 0 <= m < k
      ensures IsWhitespace(x[j..][m])
    {
      assert x[j..][m] == y[|y| - k..][m];
    }
    assert Trim(x) == y[..|y| - k];
    assert x[i..j] == y[..|y| - k] by {
      forall m | 0 <= m < j - i
        ensures x[i..j][m] == y[..|y| - k][m]
      {
        assert x[i..j][m] == x[i + m] == y[m];
      }
    }
  }

  /** A prefix that is white after lower-casing was white before. */
  lemma WhitePrefixUnderLower(s: string, i: int)
    requires 0 <= i <= |s| && AllWhitespace(Lower(s)[..i])
    ensures AllWhitespace(s[..i])
  {
    forall k | 0 <= k < i
      ensures IsWhitespace(s[k])
    {
      assert Lower(s)[..i][k] == LowerChar(s[k]);
      LowerKeepsWhitespace(s[k]);
    }
  }

  /** A suffix that is white after lower-casing was white before. */
  lemma WhiteSuffixUnderLower(s: string, j: int)
    requires 0 <= j <= |s| && AllWhitespace(Lower(s)[j..])
    ensures AllWhitespace(s[j..])
  {
    forall k | 0 <= k < |s| - j
      ensures IsWhitespace(s[j..][k])
    {
      assert Lower(s)[j..][k] == LowerChar(s[j + k]);
      LowerKeepsWhitespace(s[j + k]);
    }
  }

  lemma SpelledTrims(s: string, w: string, i: int, j: int)
    requires Bare(w)
    requires PaddedAt(s, w, i, j)
    ensures Trim(Lower(s)) == w
  {
    var x := Lower(s);
    LowerSlice(s, 0, i);
    LowerSlice(s, i, j);
    LowerSlice(s, j, |s|);
    assert s[0..i] == s[..i];
    assert s[j..|s|] == s[j..];
    LowerOfWhitespace(s[..i]);
    LowerOfWhitespace(s[j..]);
    var a, b := x[..i], x[j..];
    assert x[i..j] == w;
    assert x == a + w + b;
    assert AllWhitespace(a) && AllWhitespace(b);
    LeadingWhitespaceOf(a, w + b);
    assert x == a + (w + b);
    var y := x[LeadingWhitespace(x)..];
    assert y == w + b;
    TrailingWhitespaceOf(w, b);
  }
}
