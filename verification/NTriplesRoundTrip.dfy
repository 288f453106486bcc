/** Writing a store as N-Triples and loading the text again. */
module NTriplesRoundTrip {
  import opened Options
  import opened TermText
  import opened QuotedTriples
  import opened TermStore
  import opened PatternJoin
  import opened NTriples
  import opened Sequences

  // ---------------------------------------------------------------- what survives

  /** The first `end` without a backslash in front of it; a backslash that is escaped itself does not count. */
  function CloseAt(end: char, escaped: bool, s: string): (r: Option<nat>)
    ensures r.Some? ==> r.value < |s| && s[r.value] == end
    decreases |s|
  {
    if s == [] then None
    else if !escaped && s[0] == end then Some(0)
    else Further(CloseAt(end, !escaped && s[0] == '\\', s[1..]), 1)
  }

  function Further(r: Option<nat>, n: nat): Option<nat> {
    if r.None? then None else Some(r.value + n)
  }

  /** Whether a character behind `s` would be escaped. */
  predicate Pending(escaped: bool, s: string)
    decreases |s|
  {
    if s == [] then escaped else Pending(!escaped && s[0] == '\\', s[1..])
  }

  predicate NeverCloses(end: char, s: string) {
    CloseAt(end, false, s).None?
  }

  predicate Has(c: char, s: string) {
    exists i | 0 <= i < |s| :: s[i] == c
  }

  /** A text without outer white space and on one line. */
  predicate OneLine(s: string) {
    Trimmed(s) && !Has('\n', s)
  }

  predicate LoadableUri(s: string) {
    OneLine(s) && NeverCloses('>', s) && !Pending(false, s) && (s == [] || (s[0] != '<' && s[0] != '"'))
  }

  /** At the end of the line a pending escape does no harm. */
  predicate LoadableObject(s: string) {
    && OneLine(s)
    && if IsWebAddress(s) then NeverCloses('>', s)
       else !Has('"', s) && !HasPrefix(s, "<<") && !(|s| >= 2 && s[0] == '<' && s[|s| - 1] == '>')
  }

  /** A quoted triple of plain tokens, at any depth. */
  ghost predicate PlainQuoted(s: string) {
    exists t: Term :: t.Quoted? && OnlyPlain(t) && s == Render(t)
  }

  ghost predicate Loadable(st: Statement) {
    && (LoadableUri(st.subj) || PlainQuoted(st.subj))
    && LoadableUri(st.pred)
    && (LoadableObject(st.obj) || PlainQuoted(st.obj))
  }

  // ---------------------------------------------------------------- scanning one term

  /** The scanner at the top level between two parts. */
  function Between(parts: seq<string>): LineScan {
    LineScan(parts, "", false, false, false, 0)
  }

  function InUri(parts: seq<string>, current: string, escaped: bool): LineScan {
    LineScan(parts, current, true, false, escaped, 0)
  }

  function InLiteral(parts: seq<string>, current: string, escaped: bool): LineScan {
    LineScan(parts, current, false, true, escaped, 0)
  }

  function InTriple(parts: seq<string>, current: string, depth: nat): LineScan {
    LineScan(parts, current, false, false, false, depth)
  }

  predicate ClosesBehind(end: char, escaped: bool, s: string, k: string) {
    CloseAt(end, escaped, s + k)
    == if CloseAt(end, escaped, s).Some? then CloseAt(end, escaped, s)
       else Further(CloseAt(end, Pending(escaped, s), k), |s|)
  }

  /** Where a text in two pieces closes. */
  lemma {:induction false} CloseBehind(end: char, escaped: bool, s: string, k: string)
    ensures ClosesBehind(end, escaped, s, k)
    decreases |s|
  {
    if s == [] {
      AppendNothing(k, s);
    } else if !escaped && s[0] == end {
      FirstOfTwo(s, k);
    } else {
      CloseBehind(end, !escaped && s[0] == '\\', s[1..], k);
      CloseBehindStep(end, escaped, !escaped && s[0] == '\\', s, k);
    }
  }

  lemma CloseBehindStep(end: char, escaped: bool, next: bool, s: string, k: string)
    requires s != [] && (escaped || s[0] != end) && next == (!escaped && s[0] == '\\')
    requires ClosesBehind(end, next, s[1..], k)
    ensures ClosesBehind(end, escaped, s, k)
  {
    FirstOfTwo(s, k);
    assert CloseAt(end, escaped, s) == Further(CloseAt(end, next, s[1..]), 1);
    assert CloseAt(end, escaped, s + k) == Further(CloseAt(end, next, s[1..] + k), 1);
    assert Pending(escaped, s) == Pending(next, s[1..]);
  }

  lemma FirstOfTwo(s: string, k: string)
    requires s != []
    ensures (s + k)[0] == s[0] && (s + k)[1..] == s[1..] + k
  {
  }

  ghost predicate UriScanned(parts: seq<string>, current: string, escaped: bool, s: string) {
    var close, after := CloseAt('>', escaped, s), ScanLine(InUri(parts, current, escaped), s);
    if close.Some? then
      after == ScanLine(Between(parts + [Trim(current + s[..close.value + 1])]), s[close.value + 1..])
    else FinishLine(after) == parts + [Trim(current + s)]
  }

  /** Inside an identifier the scanner looks for the first closing bracket that is not escaped. */
  lemma {:induction false} UriScan(parts: seq<string>, current: string, escaped: bool, s: string)
    requires current != []
    ensures UriScanned(parts, current, escaped, s)
    decreases |s|
  {
    if s == [] {
      AppendNothing(current, s);
    } else if !escaped && s[0] == '>' {
      UriCloses(parts, current, s);
    } else {
      UriScan(parts, current + [s[0]], !escaped && s[0] == '\\', s[1..]);
      UriScanStep(parts, current, escaped, !escaped && s[0] == '\\', s);
    }
  }

  lemma UriScanStep(parts: seq<string>, current: string, escaped: bool, next: bool, s: string)
    requires s != [] && (escaped || s[0] != '>') && next == (!escaped && s[0] == '\\')
    requires UriScanned(parts, current + [s[0]], next, s[1..])
    ensures UriScanned(parts, current, escaped, s)
  {
    var close := CloseAt('>', next, s[1..]);
    ScanOne(parts, current, escaped, next, s);
    assert CloseAt('>', escaped, s) == Further(close, 1);
    if close.Some? {
      UriPieces(current, s, close.value);
    } else {
      AppendTwo(current, [s[0]], s[1..]);
      assert [s[0]] + s[1..] == s;
    }
  }

  lemma ScanOne(parts: seq<string>, current: string, escaped: bool, next: bool, s: string)
    requires s != [] && (escaped || s[0] != '>') && next == (!escaped && s[0] == '\\')
    ensures ScanLine(InUri(parts, current, escaped), s) == ScanLine(InUri(parts, current + [s[0]], next), s[1..])
  {
    UriStep(parts, current, escaped, s);
  }

  lemma UriCloses(parts: seq<string>, current: string, s: string)
    requires s != [] && s[0] == '>'
    ensures s[..1] == ">" && Advance(InUri(parts, current, false), s) == (Between(parts + [Trim(current + s[..1])]), 1)
  {
    assert s[..1] == [s[0]];
  }

  lemma UriStep(parts: seq<string>, current: string, escaped: bool, s: string)
    requires s != [] && (escaped || s[0] != '>')
    ensures Advance(InUri(parts, current, escaped), s) == (InUri(parts, current + [s[0]], !escaped && s[0] == '\\'), 1)
  {
  }

  lemma LiteralStep(parts: seq<string>, current: string, escaped: bool, s: string)
    requires s != [] && (escaped || s[0] != '"')
    ensures Advance(InLiteral(parts, current, escaped), s)
         == (InLiteral(parts, current + [s[0]], !escaped && s[0] == '\\'), 1)
  {
  }

  lemma UriPieces(current: string, s: string, n: nat)
    requires n + 1 < |s|
    ensures current + [s[0]] + s[1..][..n + 1] == current + s[..n + 2] && s[1..][n + 1..] == s[n + 2..]
  {
  }

  lemma BracketedIsTrimmed(s: string)
    ensures Trim(Bracketed(s)) == Bracketed(s)
  {
  }

  /** The opening bracket of an identifier that does not begin with one itself. */
  lemma UriOpens(parts: seq<string>, s: string, k: string)
    requires s == [] || s[0] != '<'
    ensures ScanLine(Between(parts), Bracketed(s) + k) == ScanLine(InUri(parts, "<", false), s + (">" + k))
  {
    var text := Bracketed(s) + k;
    assert text[0] == '<' && text[1..] == s + (">" + k);
    assert |text| > 1 ==> text[1] == (if s == [] then '>' else s[0]);
    assert "" + [text[0]] == "<";
    assert Advance(Between(parts), text) == (InUri(parts, "<", false), 1);
  }

  /** An identifier in brackets becomes a part. */
  lemma UriPart(parts: seq<string>, s: string, k: string)
    requires LoadableUri(s)
    ensures ScanLine(Between(parts), Bracketed(s) + k) == ScanLine(Between(parts + [Bracketed(s)]), k)
  {
    var text := s + (">" + k);
    UriOpens(parts, s, k);
    ClosesAtEnd(s, k);
    UriFirstPart(parts, text, |s|);
    assert "<" + text[..|s| + 1] == Bracketed(s) && text[|s| + 1..] == k by {
      BracketedPieces(s, k);
    }
    BracketedIsTrimmed(s);
  }

  lemma ClosesAtEnd(s: string, k: string)
    requires NeverCloses('>', s) && !Pending(false, s)
    ensures CloseAt('>', false, s + (">" + k)) == Some(|s|)
  {
    CloseBehind('>', false, s, ">" + k);
    assert (">" + k)[0] == '>';
  }

  lemma UriFirstPart(parts: seq<string>, text: string, m: nat)
    requires CloseAt('>', false, text) == Some(m)
    ensures ScanLine(InUri(parts, "<", false), text)
         == ScanLine(Between(parts + [Trim("<" + text[..m + 1])]), text[m + 1..])
  {
    UriScan(parts, "<", false, text);
  }

  lemma BracketedPieces(s: string, k: string)
    ensures (s + (">" + k))[..|s| + 1] == s + ">" && (s + (">" + k))[|s| + 1..] == k
    ensures "<" + (s + ">") == Bracketed(s) && Bracketed(s) + "" == Bracketed(s) && s + (">" + "") == s + ">"
  {
  }

  lemma LastBracket(escaped: bool)
    ensures CloseAt('>', escaped, ">") == if escaped then None else Some(0)
  {
    assert ">"[1..] == [];
  }

  /** A web address at the end of the line becomes the last part, also when its closing bracket is escaped. */
  lemma WebPart(parts: seq<string>, s: string)
    requires NeverCloses('>', s) && s != [] && s[0] != '<'
    ensures FinishLine(ScanLine(Between(parts), Bracketed(s))) == parts + [Bracketed(s)]
  {
    UriOpens(parts, s, "");
    BracketedPieces(s, "");
    BracketedIsTrimmed(s);
    CloseBehind('>', false, s, ">");
    LastBracket(Pending(false, s));
    UriScan(parts, "<", false, s + ">");
  }

  /** Parts are never taken back, and a text that ends with a quote adds one. */
  lemma {:induction false} QuoteAddsPart(st: LineScan, s: string)
    requires s != [] && s[|s| - 1] == '"'
    ensures |FinishLine(ScanLine(st, s))| > |st.parts|
    decreases |s|
  {
    var (next, n) := Advance(st, s);
    assert |next.parts| >= |st.parts|;
    if n < |s| {
      assert s[n..][|s[n..]| - 1] == '"';
      QuoteAddsPart(next, s[n..]);
    } else {
      assert |next.parts| > |st.parts| || next.current != [];
    }
  }

  /** A literal at the end of the line is the last part, or it has been closed early and other parts follow. */
  lemma {:induction false} LiteralScan(parts: seq<string>, current: string, escaped: bool, s: string)
    requires current != []
    ensures var found := FinishLine(ScanLine(InLiteral(parts, current, escaped), s + "\""));
      && (|found| == |parts| + 1 ==> found == parts + [Trim(current + s + "\"")])
      && (!Has('"', s) ==> |found| == |parts| + 1)
    decreases |s|
  {
    var st := InLiteral(parts, current, escaped);
    var text := s + "\"";
    if s == [] {
      LiteralCloses(parts, current, escaped);
    } else {
      assert text[0] == s[0] && text[1..] == s[1..] + "\"";
      if !escaped && s[0] == '"' {
        QuoteInFront(current, s);
        ClosedEarly(parts, current, s[1..] + "\"");
      } else {
        LiteralStep(parts, current, escaped, text);
        LiteralScan(parts, current + [s[0]], !escaped && s[0] == '\\', s[1..]);
        FirstLiteralChar(current, s);
      }
    }
  }

  lemma FirstLiteralChar(current: string, s: string)
    requires s != []
    ensures current + [s[0]] + s[1..] + "\"" == current + s + "\""
    ensures Has('"', s[1..]) ==> Has('"', s)
  {
  }

  lemma QuoteInFront(current: string, s: string)
    requires s != [] && s[0] == '"'
    ensures s + "\"" == "\"" + (s[1..] + "\"")
    ensures current + s + "\"" == current + ("\"" + (s[1..] + "\"")) && Has('"', s)
  {
  }

  lemma LiteralCloses(parts: seq<string>, current: string, escaped: bool)
    requires current != []
    ensures FinishLine(ScanLine(InLiteral(parts, current, escaped), "" + "\"")) == parts + [Trim(current + "" + "\"")]
  {
    var st, text := InLiteral(parts, current, escaped), "\"";
    assert "" + text == text && current + "" == current && text[1..] == "";
    if escaped {
      assert Advance(st, text) == (InLiteral(parts, current + text, false), 1);
    } else {
      assert text[1..1 + 0] == [] && current + ['"'] + [] == current + text;
      assert Advance(st, text) == (Between(parts + [Trim(current + text)]), 1);
    }
  }

  lemma ClosedEarly(parts: seq<string>, current: string, rest: string)
    requires rest != [] && rest[|rest| - 1] == '"'
    ensures var found := FinishLine(ScanLine(InLiteral(parts, current, false), "\"" + rest));
      |found| == |parts| + 1 ==> found == parts + [Trim(current + ("\"" + rest))]
  {
    var text := "\"" + rest;
    var n := SuffixLength(rest);
    var next := Between(parts + [Trim(current + ['"'] + rest[..n])]);
    ClosingPieces(rest, n);
    assert Advance(InLiteral(parts, current, false), text) == (next, 1 + n);
    if n < |rest| {
      QuoteAddsPart(next, rest[n..]);
    } else {
      AppendTwo(current, ['"'], rest);
    }
  }

  lemma ClosingPieces(rest: string, n: nat)
    requires n <= |rest|
    ensures var text := "\"" + rest; text[1..] == rest && text[1..1 + n] == rest[..n] && text[1 + n..] == rest[n..]
    ensures n == |rest| ==> rest[..n] == rest && rest[n..] == []
  {
  }

  lemma LiteralOpens(parts: seq<string>, s: string)
    ensures ScanLine(Between(parts), "\"" + s + "\"") == ScanLine(InLiteral(parts, "\"", false), s + "\"")
  {
    var text := "\"" + s + "\"";
    assert text[0] == '"' && text[1..] == s + "\"";
    assert "" + [text[0]] == "\"";
    assert Advance(Between(parts), text) == (InLiteral(parts, "\"", false), 1);
  }

  lemma LiteralPart(parts: seq<string>, s: string)
    ensures var text := "\"" + s + "\"";
      var found := FinishLine(ScanLine(Between(parts), text));
      && (|found| == |parts| + 1 ==> found == parts + [text])
      && (!Has('"', s) ==> |found| == |parts| + 1)
  {
    LiteralOpens(parts, s);
    LiteralScan(parts, "\"", false, s);
    TrimTrimmed("\"" + s + "\"");
  }

  // ---------------------------------------------------------------- scanning a quoted triple

  lemma {:induction false} TokenScan(parts: seq<string>, current: string, depth: nat, s: string, k: string)
    requires depth > 0 && forall i | 0 <= i < |s| :: IsUriChar(s[i])
    ensures ScanLine(InTriple(parts, current, depth), s + k) == ScanLine(InTriple(parts, current + s, depth), k)
    decreases |s|
  {
    if s == [] {
      assert s + k == k && current + s == current;
    } else {
      var text := s + k;
      assert text[0] == s[0] && text[1..] == s[1..] + k;
      assert Advance(InTriple(parts, current, depth), text) == (InTriple(parts, current + [s[0]], depth), 1);
      TokenScan(parts, current + [s[0]], depth, s[1..], k);
      assert current + [s[0]] + s[1..] == current + s;
    }
  }

  lemma BlankScan(parts: seq<string>, current: string, depth: nat, k: string)
    requires depth > 0
    ensures ScanLine(InTriple(parts, current, depth), " " + k) == ScanLine(InTriple(parts, current + " ", depth), k)
  {
    var text := " " + k;
    assert text[0] == ' ' && text[1..] == k;
    assert Advance(InTriple(parts, current, depth), text) == (InTriple(parts, current + " ", depth), 1);
  }

  lemma OpenScan(parts: seq<string>, current: string, depth: nat, k: string)
    ensures ScanLine(InTriple(parts, current, depth), "<<" + k)
         == ScanLine(InTriple(parts, current + "<<", depth + 1), k)
  {
    var text := "<<" + k;
    assert text[0] == '<' && text[1] == '<' && text[2..] == k;
    assert current + ['<', '<'] == current + "<<";
    assert Advance(InTriple(parts, current, depth), text) == (InTriple(parts, current + "<<", depth + 1), 2);
  }

  /** An identifier in brackets; a closing bracket right behind it would be taken for the end of the triple. */
  lemma BracketScan(parts: seq<string>, current: string, depth: nat, text: string, k: string)
    requires depth > 0 && IsBracketed(text) && (k == [] || k[0] != '>')
    ensures ScanLine(InTriple(parts, current, depth), text + k)
         == ScanLine(InTriple(parts, current + text, depth), k)
  {
    var inner := text[1..|text| - 1];
    var rest := inner + (">" + k);
    BracketPieces(current, inner, k);
    assert text == "<" + inner + ">" && rest[0] == text[1];
    LoneBracketScan(parts, current, depth, '<', rest);
    TokenScan(parts, current + "<", depth, inner, ">" + k);
    LoneBracketScan(parts, current + "<" + inner, depth, '>', k);
  }

  lemma BracketPieces(current: string, inner: string, k: string)
    ensures "<" + inner + ">" + k == "<" + (inner + (">" + k))
    ensures current + "<" + inner + ">" == current + ("<" + inner + ">")
  {
  }

  lemma LoneBracketScan(parts: seq<string>, current: string, depth: nat, c: char, k: string)
    requires depth > 0 && (c == '<' || c == '>') && (k == [] || k[0] != c)
    ensures ScanLine(InTriple(parts, current, depth), [c] + k) == ScanLine(InTriple(parts, current + [c], depth), k)
  {
    var text := [c] + k;
    assert text[0] == c && text[1..] == k && (|text| > 1 ==> text[1] == k[0]);
    assert Advance(InTriple(parts, current, depth), text) == (InTriple(parts, current + [c], depth), 1);
  }

  // Literals below the top level.

  /** The scanner between the quotes of a literal, at any depth. */
  function Quoting(parts: seq<string>, current: string, depth: nat, escaped: bool): LineScan {
    LineScan(parts, current, false, true, escaped, depth)
  }

  lemma {:induction false} BodyScan(parts: seq<string>, current: string, depth: nat, escaped: bool, s: string,
                                    k: string)
    requires IsBody(escaped, s)
    ensures ScanLine(Quoting(parts, current, depth, escaped), s + k)
         == ScanLine(Quoting(parts, current + s, depth, false), k)
    decreases |s|
  {
    if s == [] {
      assert s + k == k && current + s == current;
    } else {
      var text := s + k;
      var next := !escaped && s[0] == '\\';
      assert text[0] == s[0] && text[1..] == s[1..] + k;
      assert Advance(Quoting(parts, current, depth, escaped), text)
          == (Quoting(parts, current + [s[0]], depth, next), 1);
      BodyScan(parts, current + [s[0]], depth, next, s[1..], k);
      assert current + [s[0]] + s[1..] == current + s;
    }
  }

  lemma QuoteOpens(parts: seq<string>, current: string, depth: nat, k: string)
    ensures ScanLine(InTriple(parts, current, depth), "\"" + k)
         == ScanLine(Quoting(parts, current + "\"", depth, false), k)
  {
    var text := "\"" + k;
    assert text[0] == '"' && text[1..] == k;
    assert Advance(InTriple(parts, current, depth), text) == (Quoting(parts, current + "\"", depth, false), 1);
  }

  /** The closing quote takes with it what is attached to the literal. */
  lemma QuoteCloses(parts: seq<string>, current: string, depth: nat, k: string)
    ensures var n := SuffixLength(k);
      ScanLine(Quoting(parts, current, depth, false), "\"" + k)
      == ScanLine(Behind(parts, current + ("\"" + k[..n]), depth), k[n..])
  {
    var text := "\"" + k;
    var n := SuffixLength(k);
    assert text[0] == '"' && text[1..] == k && text[1..1 + n] == k[..n] && text[1 + n..] == k[n..];
    assert current + ['"'] + k[..n] == current + ("\"" + k[..n]);
    assert Advance(Quoting(parts, current, depth, false), text)
        == (Behind(parts, current + ("\"" + k[..n]), depth), 1 + n);
  }

  lemma {:induction false} LanguageWithin(s: string, k: string)
    requires k != [] && !IsLanguageChar(k[0])
    ensures LanguageLength(s + k) <= |s|
    ensures (forall i | 0 <= i < |s| :: IsLanguageChar(s[i])) ==> LanguageLength(s + k) == |s|
  {
    if s == [] {
      assert s + k == k;
    } else {
      assert (s + k)[0] == s[0] && (s + k)[1..] == s[1..] + k;
      LanguageWithin(s[1..], k);
    }
  }

  lemma {:induction false} DatatypeWithin(s: string, k: string)
    requires k != [] && IsBlank(k[0]) && forall i | 0 <= i < |s| :: !IsBlank(s[i]) && s[i] != '<'
    ensures DatatypeLength(s + k) == |s|
  {
    if s == [] {
      assert s + k == k;
    } else {
      assert (s + k)[0] == s[0] && (s + k)[1..] == s[1..] + k;
      DatatypeWithin(s[1..], k);
    }
  }

  /** A datatype in brackets is taken whole, whatever comes behind it. */
  lemma DatatypeInBrackets(d: string, k: string)
    requires !Has('>', d)
    ensures SuffixLength("^^<" + (d + (">" + k))) == |d| + 4
  {
    var s := "^^<" + (d + (">" + k));
    assert s[0] == '^' && s[1] == '^' && s[2..] == "<" + (d + (">" + k));
    assert s[2..][1..] == d + (">" + k);
    FindIn('>', d, ">" + k);
    assert (">" + k)[0] == '>';
  }

  /** What is taken for attached to the literal does not go beyond its suffix, and the rest of the suffix is plain. */
  lemma SuffixWithin(suffix: string, k: string)
    requires IsSuffix(suffix) && k != [] && k[0] == ' '
    ensures var n := SuffixLength(suffix + k); n <= |suffix| && forall i | n <= i < |suffix| :: IsUriChar(suffix[i])
  {
    var s := suffix + k;
    if forall i | 0 <= i < |suffix| :: IsPlainChar(suffix[i]) {
      if suffix != [] {
        assert s[0] == suffix[0] && s[1..] == suffix[1..] + k;
        LanguageWithin(suffix[1..], k);
        if |suffix| > 1 {
          assert s[1] == suffix[1] && s[2..] == suffix[2..] + k;
          DatatypeWithin(suffix[2..], k);
        } else {
          assert s[1] == k[0];
        }
      } else {
        assert s[0] == k[0];
      }
    } else {
      var d := suffix[3..|suffix| - 1];
      assert forall i | 0 <= i < |d| :: d[i] == suffix[2..][i + 1];
      assert s == "^^<" + (d + (">" + k));
      DatatypeInBrackets(d, k);
    }
  }

  /** A literal below the top level is read into the current part. */
  lemma LiteralTermScan(parts: seq<string>, current: string, depth: nat, body: string, suffix: string, k: string)
    requires depth > 0 && IsBody(false, body) && IsSuffix(suffix) && k != [] && k[0] == ' '
    ensures ScanLine(InTriple(parts, current, depth), Render(Literal(body, suffix)) + k)
         == ScanLine(InTriple(parts, current + Render(Literal(body, suffix)), depth), k)
  {
    var s := suffix + k;
    var n := SuffixLength(s);
    LiteralPieces(current, body, suffix, k, n);
    QuoteOpens(parts, current, depth, body + ("\"" + s));
    BodyScan(parts, current + "\"", depth, false, body, "\"" + s);
    QuoteCloses(parts, current + "\"" + body, depth, s);
    SuffixWithin(suffix, k);
    TokenScan(parts, current + "\"" + body + ("\"" + s[..n]), depth, suffix[n..], k);
  }

  lemma LiteralPieces(current: string, body: string, suffix: string, k: string, n: nat)
    ensures Render(Literal(body, suffix)) + k == "\"" + (body + ("\"" + (suffix + k)))
    ensures n <= |suffix| ==>
      && (suffix + k)[..n] == suffix[..n] && (suffix + k)[n..] == suffix[n..] + k
      && current + "\"" + body + ("\"" + suffix[..n]) + suffix[n..] == current + Render(Literal(body, suffix))
  {
    if n <= |suffix| {
      assert suffix[..n] + suffix[n..] == suffix;
    }
  }

  /** The scanner behind a quoted triple: below the top level it goes on, at the top level the part is finished. */
  function Behind(parts: seq<string>, current: string, depth: nat): LineScan {
    if depth == 0 then Between(parts + [Trim(current)]) else InTriple(parts, current, depth)
  }

  lemma CloseScan(parts: seq<string>, current: string, depth: nat, k: string)
    requires depth > 0
    ensures ScanLine(InTriple(parts, current, depth), ">>" + k) == ScanLine(Behind(parts, current + ">>", depth - 1), k)
  {
    var text := ">>" + k;
    assert text[0] == '>' && text[1] == '>' && text[2..] == k;
    assert current + ['>', '>'] == current + ">>";
    assert Advance(InTriple(parts, current, depth), text) == (Behind(parts, current + ">>", depth - 1), 2);
  }

  /** A term below the top level is read into the current part. */
  lemma {:induction false} NestedScan(parts: seq<string>, current: string, depth: nat, t: Term, k: string)
    requires depth > 0 && Written(t) && k != [] && k[0] == ' '
    ensures ScanLine(InTriple(parts, current, depth), Render(t) + k)
         == ScanLine(InTriple(parts, current + Render(t), depth), k)
    decreases t, 1
  {
    match t
    case Token(text) =>
      if IsPlainToken(text) {
        TokenScan(parts, current, depth, text, k);
      } else {
        BracketScan(parts, current, depth, text, k);
      }
    case Literal(body, suffix) => LiteralTermScan(parts, current, depth, body, suffix, k);
    case Quoted(_, _, _) => TripleScan(parts, current, depth, t, k);
  }

  lemma {:induction false} ComponentScan(parts: seq<string>, current: string, depth: nat, t: Term, k: string)
    requires depth > 0 && Written(t) && k != [] && k[0] == ' '
    ensures ScanLine(InTriple(parts, current, depth), " " + Render(t) + k)
         == ScanLine(InTriple(parts, current + (" " + Render(t)), depth), k)
    decreases t, 2
  {
    BlankInFront(current, Render(t), k);
    BlankScan(parts, current, depth, Render(t) + k);
    NestedScan(parts, current + " ", depth, t, k);
  }

  lemma BlankInFront(current: string, x: string, k: string)
    ensures " " + x + k == " " + (x + k) && current + " " + x == current + (" " + x)
  {
  }

  /** A quoted triple is read at any depth. */
  lemma {:induction false} TripleScan(parts: seq<string>, current: string, depth: nat, t: Term, k: string)
    requires t.Quoted? && Written(t)
    ensures ScanLine(InTriple(parts, current, depth), Render(t) + k)
         == ScanLine(Behind(parts, current + Render(t), depth), k)
    decreases t, 0
  {
    var a, b, c := " " + Render(t.subj), " " + Render(t.pred), " " + Render(t.obj);
    var end := " " + (">>" + k);
    TripleTexts(Render(t.subj), Render(t.pred), Render(t.obj), current, k);
    OpenScan(parts, current, depth, a + (b + (c + end)));
    ComponentScan(parts, current + "<<", depth + 1, t.subj, b + (c + end));
    ComponentScan(parts, current + "<<" + a, depth + 1, t.pred, c + end);
    ComponentScan(parts, current + "<<" + a + b, depth + 1, t.obj, end);
    BlankScan(parts, current + "<<" + a + b + c, depth + 1, ">>" + k);
    CloseScan(parts, current + "<<" + a + b + c + " ", depth + 1, k);
  }

  lemma TripleTexts(s: string, p: string, o: string, current: string, k: string)
    ensures TripleText(s, p, o) + k == "<<" + ((" " + s) + ((" " + p) + ((" " + o) + (" " + (">>" + k)))))
    ensures current + TripleText(s, p, o) == current + "<<" + (" " + s) + (" " + p) + (" " + o) + " " + ">>"
  {
  }

  /** A quoted triple of written terms becomes a part, whatever comes behind it, and is not cleaned. */
  lemma TriplePart(parts: seq<string>, t: Term, k: string)
    requires t.Quoted? && Written(t)
    ensures ScanLine(Between(parts), Render(t) + k) == ScanLine(Between(parts + [Render(t)]), k)
    ensures LooksQuoted(Render(t)) && CleanTerm(Render(t)) == Render(t)
  {
    var s := Render(t);
    TripleScan(parts, "", 0, t, k);
    assert "" + s == s;
    RenderEnds(t);
    TrimTrimmed(s);
    ComponentsOfTriple(t.subj, t.pred, t.obj);
  }

  /** A quoted triple of plain tokens becomes a part, and keeps its text. */
  lemma QuotedPart(parts: seq<string>, s: string, k: string)
    requires PlainQuoted(s)
    ensures ScanLine(Between(parts), s + k) == ScanLine(Between(parts + [s]), k)
    ensures Reread(s) == s && HasPrefix(s, "<<")
  {
    var t: Term :| t.Quoted? && OnlyPlain(t) && s == Render(t);
    PlainIsWritten(t);
    TriplePart(parts, t, k);
    PlainRoundTrip(t);
  }

  // ---------------------------------------------------------------- cleaning one term

  /** A part as it is decoded again after loading. */
  function Reread(part: string): string {
    Normal(CleanTerm(part))
  }

  lemma QuotedBegins(t: string)
    ensures LooksQuoted(t) ==> |t| >= 2 && t[0] == '<' && t[1] == '<'
  {
  }

  lemma NormalPlain(s: string)
    requires Trimmed(s) && !LooksQuoted(s) && Cleaned(s) == s
    ensures Normal(s) == s
  {
    TrimTrimmed(s);
  }

  lemma CleanBrackets(t: string)
    requires Trimmed(t) && !LooksQuoted(t) && |t| >= 2 && t[0] == '<' && t[|t| - 1] == '>'
    ensures CleanTerm(t) == t[1..|t| - 1]
  {
    TrimTrimmed(t);
  }

  lemma CleanQuotes(t: string, n: nat)
    requires Trimmed(t) && !LooksQuoted(t) && t != [] && t[0] == '"' && Find('"', t[1..]) == Some(n) && |t| == n + 2
    ensures CleanTerm(t) == t[1..n + 1]
  {
    TrimTrimmed(t);
    assert t[n + 2..] == [];
  }

  lemma CleanUri(s: string)
    requires s == [] || s[0] != '<'
    ensures CleanTerm(Bracketed(s)) == s
  {
    var t := Bracketed(s);
    assert t[1] == if s == [] then '>' else s[0];
    QuotedBegins(t);
    CleanBrackets(t);
    assert t[1..|t| - 1] == s;
  }

  /** An identifier or address that does not begin with a bracket or a quote is stored as it is. */
  lemma UriReread(s: string)
    requires Trimmed(s) && (s == [] || (s[0] != '<' && s[0] != '"'))
    ensures Reread(Bracketed(s)) == s
  {
    CleanUri(s);
    QuotedBegins(s);
    NormalPlain(s);
  }

  lemma {:induction false} FindIn(c: char, s: string, k: string)
    requires !Has(c, s)
    ensures Find(c, s + k) == var r := Find(c, k); if r.None? then None else Some(r.value + |s|)
  {
    if s == [] {
      assert s + k == k;
    } else {
      assert (s + k)[1..] == s[1..] + k;
      assert !Has(c, s[1..]) by {
        assert forall i | 0 <= i < |s[1..]| :: s[1..][i] == s[i + 1];
      }
      assert s[0] != c;
      FindIn(c, s[1..], k);
    }
  }

  lemma CleanLiteral(s: string)
    requires !Has('"', s)
    ensures CleanTerm("\"" + s + "\"") == s
  {
    var t := "\"" + s + "\"";
    assert t[1..] == s + "\"" && t[1..|s| + 1] == s;
    FindIn('"', s, "\"");
    assert Find('"', "\"") == Some(0);
    QuotedBegins(t);
    CleanQuotes(t, |s|);
  }

  lemma NormalLiteral(s: string)
    requires Trimmed(s) && !Has('"', s) && !HasPrefix(s, "<<") && !(|s| >= 2 && s[0] == '<' && s[|s| - 1] == '>')
    ensures Normal(s) == s
  {
    assert s != [] ==> s[0] != '"';
    NormalPlain(s);
  }

  // ---------------------------------------------------------------- one statement

  /** The written statement without the final dot. */
  function Written3(st: Statement): string {
    WriteSubject(st.subj) + (" " + (Bracketed(st.pred) + (" " + WriteObject(st.obj))))
  }

  lemma SubjectPart(parts: seq<string>, s: string, k: string)
    requires LoadableUri(s) || PlainQuoted(s)
    ensures ScanLine(Between(parts), WriteSubject(s) + k) == ScanLine(Between(parts + [WriteSubject(s)]), k)
    ensures Reread(WriteSubject(s)) == s
  {
    if LoadableUri(s) {
      assert !HasPrefix(s, "<<");
      UriPart(parts, s, k);
      UriReread(s);
    } else {
      QuotedPart(parts, s, k);
    }
  }

  lemma ObjectPart(parts: seq<string>, o: string)
    requires LoadableObject(o) || PlainQuoted(o)
    ensures FinishLine(ScanLine(Between(parts), WriteObject(o))) == parts + [WriteObject(o)]
    ensures Reread(WriteObject(o)) == o
  {
    if PlainQuoted(o) {
      QuotedPart(parts, o, "");
      assert o + "" == o;
    } else if IsWebAddress(o) {
      assert !HasPrefix(o, "<<");
      WebPart(parts, o);
      UriReread(o);
    } else {
      LiteralPart(parts, o);
      CleanLiteral(o);
      NormalLiteral(o);
    }
  }

  /** The blank in front of the next part. */
  lemma NextPart(parts: seq<string>, k: string)
    ensures ScanLine(Between(parts), " " + k) == ScanLine(Between(parts), k)
  {
    var text := " " + k;
    assert text[1..] == k;
    assert Advance(Between(parts), text) == (Between(parts), 1);
  }

  lemma OneMorePart(a: string, b: string, c: string)
    ensures [] + [a] == [a] && [a] + [b] == [a, b] && [a, b] + [c] == [a, b, c]
  {
  }

  lemma PartsOf(st: Statement)
    requires Loadable(st)
    ensures FinishLine(ScanLine(LINE_START, Written3(st)))
         == [WriteSubject(st.subj), Bracketed(st.pred), WriteObject(st.obj)]
  {
    var a, b, c := WriteSubject(st.subj), Bracketed(st.pred), WriteObject(st.obj);
    OneMorePart(a, b, c);
    SubjectPart([], st.subj, " " + (b + (" " + c)));
    NextPart([a], b + (" " + c));
    UriPart([a], st.pred, " " + c);
    NextPart([a, b], c);
    ObjectPart([a, b], st.obj);
  }

  /** A written statement is parsed, and what is stored of it is the statement. */
  lemma StatementReadBack(st: Statement)
    requires Loadable(st)
    ensures ParseLine(Written3(st)).Some? && Stored(ParseLine(Written3(st)).value) == st
  {
    PartsOf(st);
    SubjectPart([], st.subj, "");
    UriReread(st.pred);
    ObjectPart([], st.obj);
    assert Bracketed(st.pred)[0] != "a"[0];
  }

  // ---------------------------------------------------------------- one line

  lemma WrittenEnds(st: Statement)
    requires HasPrefix(st.obj, "<<") ==> HasSuffix(st.obj, ">>")
    ensures var s := Written3(st); s != [] && s[0] == '<' && (s[|s| - 1] == '>' || s[|s| - 1] == '"')
    ensures WriteStatement(st) == Written3(st) + " ." + "\n"
  {
    var a, o := WriteSubject(st.subj), WriteObject(st.obj);
    assert a[0] == '<';
    assert o != [] && (o[|o| - 1] == '>' || o[|o| - 1] == '"') by {
      if HasPrefix(o, "<<") && o == st.obj {
        assert o[|o| - 2..][1] == '>';
      }
    }
    WrittenText(a, Bracketed(st.pred), o);
  }

  lemma WrittenText(a: string, b: string, c: string)
    requires a != [] && c != []
    ensures var s := a + (" " + (b + (" " + c)));
      s[0] == a[0] && s[|s| - 1] == c[|c| - 1] && a + " " + b + " " + c + " .\n" == s + " ." + "\n"
  {
  }

  lemma QuotedEnds(s: string)
    requires PlainQuoted(s)
    ensures HasPrefix(s, "<<") && HasSuffix(s, ">>")
  {
    var t: Term :| t.Quoted? && OnlyPlain(t) && s == Render(t);
    PlainIsWritten(t);
    ComponentsOfTriple(t.subj, t.pred, t.obj);
  }

  lemma LoadableEnds(st: Statement)
    requires Loadable(st)
    ensures HasPrefix(st.obj, "<<") ==> HasSuffix(st.obj, ">>")
  {
    if PlainQuoted(st.obj) {
      QuotedEnds(st.obj);
    }
  }

  /** A dotted line gives the statement in front of the dot. */
  lemma DottedLine(s: string)
    requires s != [] && s[0] == '<' && (s[|s| - 1] == '>' || s[|s| - 1] == '"')
    ensures LineStatements(s + " .") == var p := ParseLine(s); if p.Some? then [p.value] else []
  {
    DotCut(s);
    TrimTrimmed(s + " .");
    TrimPadded(s);
  }

  lemma DotCut(s: string)
    requires s != []
    ensures var line := s + " ."; line[0] == s[0] && line[|line| - 1] == '.' && line[..|line| - 1] == s + " "
  {
  }

  lemma LineReadBack(st: Statement)
    requires Loadable(st)
    ensures |LineStatements(Written3(st) + " .")| == 1 && Stored(LineStatements(Written3(st) + " .")[0]) == st
  {
    LoadableEnds(st);
    WrittenEnds(st);
    StatementReadBack(st);
    DottedLine(Written3(st));
  }

  lemma HasAppend(c: char, a: string, b: string)
    ensures Has(c, a + b) <==> Has(c, a) || Has(c, b)
  {
    assert forall i | 0 <= i < |a| :: (a + b)[i] == a[i];
    assert forall i | 0 <= i < |b| :: (a + b)[|a| + i] == b[i];
    if Has(c, a + b) {
      var i :| 0 <= i < |a + b| && (a + b)[i] == c;
      assert if i < |a| then a[i] == c else b[i - |a|] == c;
    }
  }

  lemma DelimitedHas(c: char, s: string)
    requires c == '\n'
    ensures Has(c, Bracketed(s)) <==> Has(c, s)
    ensures Has(c, "\"" + s + "\"") <==> Has(c, s)
  {
    HasAppend(c, "<", s);
    HasAppend(c, "<" + s, ">");
    HasAppend(c, "\"", s);
    HasAppend(c, "\"" + s, "\"");
  }

  /** The written statement has a line break exactly when a term has one. */
  lemma WrittenBreaks(st: Statement)
    ensures Has('\n', Written3(st) + " .") <==> Has('\n', st.subj) || Has('\n', st.pred) || Has('\n', st.obj)
  {
    var a, b, c := WriteSubject(st.subj), Bracketed(st.pred), WriteObject(st.obj);
    DelimitedHas('\n', st.subj);
    DelimitedHas('\n', st.pred);
    DelimitedHas('\n', st.obj);
    HasAppend('\n', " ", c);
    HasAppend('\n', b, " " + c);
    HasAppend('\n', " ", b + (" " + c));
    HasAppend('\n', a, " " + (b + (" " + c)));
    HasAppend('\n', Written3(st), " .");
  }

  lemma {:induction false} QuotedOnOneLine(t: Term)
    requires OnlyPlain(t)
    ensures !Has('\n', Render(t))
  {
    match t
    case Token(text) => assert forall i | 0 <= i < |text| :: IsPlainChar(text[i]);
    case Quoted(s, p, o) =>
      QuotedOnOneLine(s);
      QuotedOnOneLine(p);
      QuotedOnOneLine(o);
      TripleHas('\n', Render(s), Render(p), Render(o));
  }

  lemma TripleHas(c: char, s: string, p: string, o: string)
    requires c != ' ' && c != '<' && c != '>'
    ensures Has(c, TripleText(s, p, o)) <==> Has(c, s) || Has(c, p) || Has(c, o)
  {
    HasAppend(c, "<< ", s);
    HasAppend(c, "<< " + s, " ");
    HasAppend(c, "<< " + s + " ", p);
    HasAppend(c, "<< " + s + " " + p, " ");
    HasAppend(c, "<< " + s + " " + p + " ", o);
    HasAppend(c, "<< " + s + " " + p + " " + o, " >>");
  }

  lemma NoLineBreak(st: Statement)
    requires Loadable(st)
    ensures !Has('\n', Written3(st) + " .")
  {
    WrittenBreaks(st);
    if PlainQuoted(st.subj) {
      var t: Term :| t.Quoted? && OnlyPlain(t) && st.subj == Render(t);
      QuotedOnOneLine(t);
    }
    if PlainQuoted(st.obj) {
      var t: Term :| t.Quoted? && OnlyPlain(t) && st.obj == Render(t);
      QuotedOnOneLine(t);
    }
  }

  // ---------------------------------------------------------------- whole stores

  lemma FirstLine(line: string, k: string)
    requires !Has('\n', line) && line != [] && line[|line| - 1] != '\r'
    ensures Lines(line + "\n" + k) == [line] + Lines(k)
  {
    var s := line + "\n" + k;
    assert s == line + ("\n" + k);
    FindIn('\n', line, "\n" + k);
    assert s[..|line|] == line && s[|line| + 1..] == k;
  }

  function StoredAll(sts: seq<Statement>): (r: seq<Statement>)
    ensures |r| == |sts| && forall i | 0 <= i < |sts| :: r[i] == Stored(sts[i])
  {
    if sts == [] then [] else [Stored(sts[0])] + StoredAll(sts[1..])
  }

  ghost predicate ComesBack(sts: seq<Statement>) {
    StoredAll(ParseNTriples(WriteNTriples(sts))) == sts
  }

  ghost predicate AllLoadable(sts: seq<Statement>) {
    forall st | st in sts :: Loadable(st)
  }

  lemma LoadableRest(sts: seq<Statement>)
    requires AllLoadable(sts) && sts != []
    ensures Loadable(sts[0]) && AllLoadable(sts[1..]) && sts == [sts[0]] + sts[1..]
  {
  }

  /** The parser reads as many statements as were written, and storing them gives the ones written, in their order. */
  lemma {:induction false} DocumentReadBack(sts: seq<Statement>)
    requires AllLoadable(sts)
    ensures ComesBack(sts)
  {
    if sts == [] {
      EmptyDocument();
    } else {
      LoadableRest(sts);
      DocumentReadBack(sts[1..]);
      FirstComesBack(sts[0], sts[1..]);
    }
  }

  lemma EmptyDocument()
    ensures ComesBack([])
  {
  }

  lemma FirstComesBack(st: Statement, rest: seq<Statement>)
    requires Loadable(st) && ComesBack(rest)
    ensures ComesBack([st] + rest)
  {
    FirstStatement(st, rest);
  }

  /** The text of a list of statements begins with the line of the first. */
  lemma FirstOfDocument(st: Statement, rest: seq<Statement>)
    requires HasPrefix(st.obj, "<<") ==> HasSuffix(st.obj, ">>")
    requires !Has('\n', Written3(st) + " .")
    ensures ParseNTriples(WriteNTriples([st] + rest))
         == LineStatements(Written3(st) + " .") + ParseNTriples(WriteNTriples(rest))
  {
    var line := Written3(st) + " .";
    WrittenEnds(st);
    assert line[|line| - 1] == '.';
    assert ([st] + rest)[1..] == rest;
    assert WriteNTriples([st] + rest) == line + "\n" + WriteNTriples(rest);
    FirstLine(line, WriteNTriples(rest));
    assert ([line] + Lines(WriteNTriples(rest)))[1..] == Lines(WriteNTriples(rest));
  }

  lemma FirstStatement(st: Statement, rest: seq<Statement>)
    requires Loadable(st)
    ensures StoredAll(ParseNTriples(WriteNTriples([st] + rest))) == [st] + StoredAll(ParseNTriples(WriteNTriples(rest)))
  {
    LoadableEnds(st);
    NoLineBreak(st);
    FirstOfDocument(st, rest);
    LineReadBack(st);
    var first, more := LineStatements(Written3(st) + " ."), ParseNTriples(WriteNTriples(rest));
    assert first == [first[0]];
    assert ([first[0]] + more)[1..] == more;
  }

  /** Serializing a store and loading the text into an empty database gives the same set of statements, in whatever
      order the store lists them. */
  lemma StoreRoundTrip(sts: seq<Statement>)
    requires AllLoadable(sts)
    ensures Load(WriteNTriples(sts)) == set st | st in sts
  {
    DocumentReadBack(sts);
    StoredSet(ParseNTriples(WriteNTriples(sts)), sts);
  }

  lemma StoredSet(parsed: seq<Statement>, sts: seq<Statement>)
    requires StoredAll(parsed) == sts
    ensures (set p | p in parsed :: Stored(p)) == set st | st in sts
  {
    forall st | st in sts ensures exists p :: p in parsed && Stored(p) == st {
      var i :| 0 <= i < |sts| && sts[i] == st;
      assert parsed[i] in parsed;
    }
    forall p | p in parsed ensures Stored(p) in sts {
      var i :| 0 <= i < |parsed| && parsed[i] == p;
      assert sts[i] == Stored(p);
    }
  }
}
