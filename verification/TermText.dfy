/** Texts of terms: white space, trimming, prefixes and suffixes. */
module TermText {

  /** The characters with the Unicode property White_Space. */
  predicate IsBlank(c: char) {
    || '\U{0009}' <= c <= '\U{000D}' || c == '\U{0020}' || c == '\U{0085}' || c == '\U{00A0}' || c == '\U{1680}'
    || '\U{2000}' <= c <= '\U{200A}' || c == '\U{2028}' || c == '\U{2029}' || c == '\U{202F}' || c == '\U{205F}'
    || c == '\U{3000}'
  }

  /** The white space that separates tokens. */
  predicate IsSpace(c: char) {
    c == ' ' || c == '\t' || c == '\r' || c == '\n'
  }

  function TrimStart(s: string): (r: string)
    ensures |r| <= |s|
  {
    if s != [] && IsBlank(s[0]) then TrimStart(s[1..]) else s
  }

  function TrimEnd(s: string): (r: string)
    ensures |r| <= |s|
  {
    if s != [] && IsBlank(s[|s| - 1]) then TrimEnd(s[..|s| - 1]) else s
  }

  function Trim(s: string): (r: string)
    ensures |r| <= |s|
  {
    TrimEnd(TrimStart(s))
  }

  /** Neither the first nor the last character is white space. */
  predicate Trimmed(s: string) {
    s != [] ==> !IsBlank(s[0]) && !IsBlank(s[|s| - 1])
  }

  predicate HasPrefix(s: string, p: string) {
    p <= s
  }

  predicate HasSuffix(s: string, p: string) {
    |p| <= |s| && s[|s| - |p|..] == p
  }

  lemma TrimTrimmed(s: string)
    requires Trimmed(s)
    ensures Trim(s) == s
  {
  }

  /** One blank on either side of a trimmed text is removed. */
  lemma TrimPadded(s: string)
    requires Trimmed(s) && s != []
    ensures Trim(" " + s + " ") == s && Trim(s + " ") == s
  {
    var padded := " " + s + " ";
    assert padded[0] == ' ' && padded[1..] == s + " ";
    assert (s + " ")[0] == s[0] && TrimStart(s + " ") == s + " ";
    assert (s + " ")[|s|] == ' ' && (s + " ")[..|s|] == s;
    assert TrimEnd(s + " ") == TrimEnd(s) == s;
    assert TrimStart(padded) == TrimStart(padded[1..]);
  }
}
