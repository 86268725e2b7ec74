/** Letter case, as far as the runtime turns on it. */
module Casing {

  /** A one-to-one table of upper and lower case, character by character. */
  datatype Table = Table(upper: char -> char, lower: char -> char)

  predicate Ascii(c: char) { c < '\U{0080}' }
  predicate IsLower(c: char) { 'a' <= c <= 'z' }
  predicate IsUpper(c: char) { 'A' <= c <= 'Z' }

  function AsciiUpper(c: char): char {
    if IsLower(c) then c - 'a' + 'A' else c
  }

  function AsciiLower(c: char): char {
    if IsUpper(c) then c - 'A' + 'a' else c
  }

  /** Where every character is ASCII, as in protobuf names, this is the table. */
  const ASCII := Table(AsciiUpper, AsciiLower)

  const LONG_S := '\U{017F}'
  const DOTLESS_I := '\U{0131}'

  /** What is used of Unicode's simple case mappings: ASCII within itself, and two
      letters outside it whose capitals are ASCII. Both are lower case already. */
  ghost predicate LikeUnicode(t: Table) {
    && (forall c :: Ascii(c) ==> t.upper(c) == AsciiUpper(c) && t.lower(c) == AsciiLower(c))
    && t.upper(LONG_S) == 'S' && t.lower(LONG_S) == LONG_S
    && t.upper(DOTLESS_I) == 'I' && t.lower(DOTLESS_I) == DOTLESS_I
    && (forall c :: !Ascii(c) && c != LONG_S && c != DOTLESS_I ==> !Ascii(t.upper(c)))
  }

  function Upper(t: Table, s: string): (r: string)
    ensures |r| == |s| && forall i :: 0 <= i < |s| ==> r[i] == t.upper(s[i])
  {
    seq(|s|, i requires 0 <= i < |s| => t.upper(s[i]))
  }

  function Lower(t: Table, s: string): (r: string)
    ensures |r| == |s| && forall i :: 0 <= i < |s| ==> r[i] == t.lower(s[i])
  {
    seq(|s|, i requires 0 <= i < |s| => t.lower(s[i]))
  }

  function Title(t: Table, s: string): string {
    if s == [] then [] else [t.upper(s[0])] + s[1..]
  }

  /** Two spellings with one capital form are one in lower case too, letter by
      letter, unless one of them writes a long s where the other writes an s, or
      a dotless i where the other writes an i. */
  lemma OneCapitalForm(t: Table, c: char, d: char)
    requires LikeUnicode(t) && t.upper(c) == t.upper(d) && Ascii(t.upper(c))
    ensures t.lower(c) == t.lower(d) <==> (c == LONG_S <==> d == LONG_S) && (c == DOTLESS_I <==> d == DOTLESS_I)
  {
  }
}
