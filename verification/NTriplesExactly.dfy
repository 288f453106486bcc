/** Exactly which statements survive writing and loading. */
module NTriplesExactly {
  import opened Options
  import opened Bags
  import opened TermText
  import opened QuotedTriples
  import opened TermStore
  import opened PatternJoin
  import opened NTriples
  import opened NTriplesRoundTrip
  import Sequences

  // ---------------------------------------------------------------- characters that do not appear

  lemma SliceHas(c: char, s: string, i: nat, j: nat)
    requires i <= j <= |s| && !Has(c, s)
    ensures !Has(c, s[i..j])
  {
    assert forall k | 0 <= k < j - i :: s[i..j][k] == s[i + k];
  }

  lemma {:induction false} TrimStartHas(c: char, s: string)
    requires !Has(c, s)
    ensures !Has(c, TrimStart(s))
  {
    if s != [] && IsBlank(s[0]) {
      SliceHas(c, s, 1, |s|);
      TrimStartHas(c, s[1..]);
    }
  }

  lemma {:induction false} TrimEndHas(c: char, s: string)
    requires !Has(c, s)
    ensures !Has(c, TrimEnd(s))
  {
    if s != [] && IsBlank(s[|s| - 1]) {
      SliceHas(c, s, 0, |s| - 1);
      TrimEndHas(c, s[..|s| - 1]);
    }
  }

  lemma TrimHas(c: char, s: string)
    requires !Has(c, s)
    ensures !Has(c, Trim(s))
  {
    TrimStartHas(c, s);
    TrimEndHas(c, TrimStart(s));
  }

  /** No part contains the character. */
  predicate NoneHas(c: char, parts: seq<string>) {
    forall p | p in parts :: !Has(c, p)
  }

  lemma {:induction false} FindFirst(c: char, s: string)
    ensures var r := Find(c, s); if r.Some? then !Has(c, s[..r.value]) else !Has(c, s)
  {
    if s != [] && s[0] != c {
      FindFirst(c, s[1..]);
      var r := Find(c, s[1..]);
      var front := if r.Some? then s[1..][..r.value] else s[1..];
      HasAppend(c, [s[0]], front);
      assert if r.Some? then s[..r.value + 1] == [s[0]] + front else s == [s[0]] + front;
    }
  }

  // ---------------------------------------------------------------- what one turn of the line scanner adds

  /** A turn moves the characters it consumes into the current text, or drops a blank, and may finish the part. */
  ghost predicate Adds(st: LineScan, next: LineScan, text: string) {
    && (next.current == st.current + text || next.current == st.current || next.current == "")
    && (next.parts == st.parts || next.parts == st.parts + [Trim(st.current + text)]
        || next.parts == st.parts + [Trim(st.current)])
  }

  lemma AdvanceAdds(st: LineScan, s: string)
    requires s != []
    ensures var (next, n) := Advance(st, s); Adds(st, next, s[..n])
  {
    var (next, n) := Advance(st, s);
    assert s[..1] == [s[0]];
    if |s| > 1 && s[1] == s[0] {
      assert s[..2] == [s[0], s[0]];
    }
    if s[0] == '"' && st.inLiteral && !st.inUri && !st.escaped {
      QuoteAdds(st.current, s, SuffixLength(s[1..]));
    }
  }

  lemma QuoteAdds(current: string, s: string, n: nat)
    requires s != [] && n < |s|
    ensures current + [s[0]] + s[1..1 + n] == current + s[..1 + n]
  {
  }

  lemma {:induction false} PartsKept(st: LineScan, s: string)
    ensures var found := FinishLine(ScanLine(st, s)); |st.parts| <= |found| && found[..|st.parts|] == st.parts
    decreases |s|
  {
    if s != [] {
      var (next, n) := Advance(st, s);
      AdvanceAdds(st, s);
      PartsKept(next, s[n..]);
      var found := FinishLine(ScanLine(next, s[n..]));
      assert found[..|st.parts|] == found[..|next.parts|][..|st.parts|];
    }
  }

  lemma AddsHas(c: char, st: LineScan, next: LineScan, text: string)
    requires Adds(st, next, text) && !Has(c, text) && !Has(c, st.current) && NoneHas(c, st.parts)
    ensures !Has(c, next.current) && NoneHas(c, next.parts)
  {
    HasAppend(c, st.current, text);
    TrimHas(c, st.current + text);
    TrimHas(c, st.current);
  }

  lemma {:induction false} ScanHas(c: char, st: LineScan, s: string)
    requires !Has(c, s) && !Has(c, st.current) && NoneHas(c, st.parts)
    ensures NoneHas(c, FinishLine(ScanLine(st, s)))
    decreases |s|
  {
    if s == [] {
      TrimHas(c, st.current);
    } else {
      var (next, n) := Advance(st, s);
      AdvanceAdds(st, s);
      SliceHas(c, s, 0, n);
      SliceHas(c, s, n, |s|);
      AddsHas(c, st, next, s[..n]);
      ScanHas(c, next, s[n..]);
    }
  }

  lemma CleanHas(c: char, part: string)
    requires !Has(c, part)
    ensures !Has(c, CleanTerm(part))
  {
    var t := Trim(part);
    TrimHas(c, part);
    if |t| >= 2 {
      SliceHas(c, t, 1, |t| - 1);
    }
    if t != [] && t[0] == '"' && Find('"', t[1..]).Some? {
      var n := Find('"', t[1..]).value;
      SliceHas(c, t, 1, n + 1);
      SliceHas(c, t, n + 2, |t|);
      HasAppend(c, t[1..n + 1], t[n + 2..]);
    }
  }

  // ---------------------------------------------------------------- storing adds no characters but blanks and brackets

  lemma StepHas(c: char, st: Scan, x: char)
    requires x != c && !Has(c, st.current) && NoneHas(c, st.parts)
    ensures !Has(c, Step(st, x).current) && NoneHas(c, Step(st, x).parts)
  {
    HasAppend(c, st.current, [x]);
    TrimHas(c, st.current);
  }

  lemma {:induction false} RunHas(c: char, st: Scan, s: string)
    requires !Has(c, s) && !Has(c, st.current) && NoneHas(c, st.parts)
    ensures NoneHas(c, Finish(Run(st, s)))
    decreases |s|
  {
    if s == [] {
      TrimHas(c, st.current);
    } else {
      SliceHas(c, s, 1, |s|);
      assert s[0] != c;
      StepHas(c, st, s[0]);
      RunHas(c, Step(st, s[0]), s[1..]);
    }
  }

  lemma {:induction false} JoinHas(c: char, parts: seq<string>)
    requires c != ' ' && NoneHas(c, parts)
    ensures !Has(c, Join(parts))
  {
    if |parts| == 1 {
      assert parts[0] in parts;
    } else if |parts| > 1 {
      assert parts[0] in parts && forall p | p in parts[1..] :: p in parts;
      JoinHas(c, parts[1..]);
      HasAppend(c, parts[0], " ");
      HasAppend(c, parts[0] + " ", Join(parts[1..]));
    }
  }

  lemma SplitHas(c: char, content: string)
    requires c != ' ' && !Has(c, content)
    ensures var r := Split(content); !Has(c, r.subj) && !Has(c, r.pred) && !Has(c, r.obj)
  {
    RunHas(c, START, content);
    var parts := Finish(Run(START, content));
    if |parts| > 0 {
      assert parts[0] in parts;
    }
    if |parts| > 1 {
      assert parts[1] in parts;
    }
    if |parts| > 2 {
      assert forall p | p in parts[2..] :: p in parts;
      JoinHas(c, parts[2..]);
    }
  }

  lemma CleanedHas(c: char, t: string)
    requires !Has(c, t)
    ensures !Has(c, Cleaned(t))
  {
    if |t| >= 2 {
      SliceHas(c, t, 1, |t| - 1);
    }
    if t != [] {
      var close := Find('"', t[1..]);
      SliceHas(c, t, 1, |t|);
      if close.Some? {
        SliceHas(c, t, 1, close.value + 1);
      }
    }
  }

  lemma {:induction false} NormalHas(c: char, term: string)
    requires c != ' ' && c != '<' && c != '>' && !Has(c, term)
    ensures !Has(c, Normal(term))
    decreases |term|
  {
    var t := Trim(term);
    TrimHas(c, term);
    if LooksQuoted(t) {
      ComponentsShorter(t);
      assert t[1] == '<' && t[|t| - 2..][0] == '>';
      SliceHas(c, t, 2, |t| - 2);
      TrimHas(c, t[2..|t| - 2]);
      SplitHas(c, Trim(t[2..|t| - 2]));
      var r := QuotedTriples.Components(t);
      NormalHas(c, r.subj);
      NormalHas(c, r.pred);
      NormalHas(c, r.obj);
      TripleHas(c, Normal(r.subj), Normal(r.pred), Normal(r.obj));
    } else {
      CleanedHas(c, t);
    }
  }

  // ---------------------------------------------------------------- nothing that is loaded has a line break

  lemma {:induction false} LinesHave(s: string)
    ensures NoneHas('\n', Lines(s))
    decreases |s|
  {
    if s != [] {
      var end := Find('\n', s);
      FindFirst('\n', s);
      if end.Some? {
        var line := s[..end.value];
        LinesHave(s[end.value + 1..]);
        if line != [] {
          SliceHas('\n', line, 0, |line| - 1);
        }
      }
    }
  }

  lemma ScopeHas()
    ensures !Has('\n', "http://www.w3.org/1999/")
  {
    assert "http://www." + "w3.org/1999/" == "http://www.w3.org/1999/";
    HasAppend('\n', "http://www.", "w3.org/1999/");
  }

  lemma NameHas()
    ensures !Has('\n', "02/22-rdf-syntax-ns#type")
  {
    assert "02/22-rdf-sy" + "ntax-ns#type" == "02/22-rdf-syntax-ns#type";
    HasAppend('\n', "02/22-rdf-sy", "ntax-ns#type");
  }

  lemma TypeHas()
    ensures !Has('\n', RDF_TYPE)
  {
    assert RDF_TYPE == "http://www.w3.org/1999/" + "02/22-rdf-syntax-ns#type";
    ScopeHas();
    NameHas();
    HasAppend('\n', "http://www.w3.org/1999/", "02/22-rdf-syntax-ns#type");
  }

  lemma ParsedHas(text: string)
    requires !Has('\n', text) && ParseLine(text).Some?
    ensures var st := ParseLine(text).value; !Has('\n', st.subj) && !Has('\n', st.pred) && !Has('\n', st.obj)
  {
    ScanHas('\n', LINE_START, text);
    PartsHave(FinishLine(ScanLine(LINE_START, text)));
  }

  lemma PartsHave(parts: seq<string>)
    requires NoneHas('\n', parts) && |parts| == 3
    ensures var st := ParseParts(parts).value; !Has('\n', st.subj) && !Has('\n', st.pred) && !Has('\n', st.obj)
  {
    assert parts[0] in parts && parts[1] in parts && parts[2] in parts;
    CleanHas('\n', parts[0]);
    CleanHas('\n', parts[1]);
    CleanHas('\n', parts[2]);
    TypeHas();
  }

  lemma LineParsed(line: string, st: Statement)
    requires st in LineStatements(line)
    ensures var l := Trim(line); l != [] && ParseLine(Trim(l[..|l| - 1])) == Some(st)
  {
  }

  lemma LineHas(line: string, st: Statement)
    requires !Has('\n', line) && st in LineStatements(line)
    ensures !Has('\n', st.subj) && !Has('\n', st.pred) && !Has('\n', st.obj)
  {
    var l := Trim(line);
    LineParsed(line, st);
    var text := Trim(l[..|l| - 1]);
    assert !Has('\n', text) by {
      TrimHas('\n', line);
      SliceHas('\n', l, 0, |l| - 1);
      TrimHas('\n', l[..|l| - 1]);
    }
    ParsedHas(text);
  }

  lemma LoadedOnOneLine(text: string, st: Statement)
    requires st in Load(text)
    ensures !Has('\n', st.subj) && !Has('\n', st.pred) && !Has('\n', st.obj)
  {
    var p :| p in ParseNTriples(text) && Stored(p) == st;
    FlatMapMember(LineStatements, Lines(text), p);
    var line :| line in Lines(text) && p in LineStatements(line);
    LinesHave(text);
    LineHas(line, p);
    NormalHas('\n', p.subj);
    NormalHas('\n', p.pred);
    NormalHas('\n', p.obj);
  }

  // ---------------------------------------------------------------- texts that are not stored as they are

  function NonBlanks(s: string): nat {
    if s == [] then 0 else (if IsBlank(s[0]) then 0 else 1) + NonBlanks(s[1..])
  }

  lemma {:induction false} NonBlanksAppend(a: string, b: string)
    ensures NonBlanks(a + b) == NonBlanks(a) + NonBlanks(b)
  {
    if a == [] {
      assert a + b == b;
    } else {
      assert (a + b)[1..] == a[1..] + b;
      NonBlanksAppend(a[1..], b);
    }
  }

  lemma {:induction false} TrimStartLast(s: string, k: string)
    requires s != [] && !IsBlank(s[|s| - 1])
    ensures var t := TrimStart(s); t != [] && t[|t| - 1] == s[|s| - 1] && !IsBlank(t[0])
    ensures TrimStart(s + k) == TrimStart(s) + k && NonBlanks(TrimStart(s)) == NonBlanks(s)
  {
    assert (s + k)[0] == s[0];
    if IsBlank(s[0]) {
      assert (s + k)[1..] == s[1..] + k;
      TrimStartLast(s[1..], k);
    }
  }

  lemma {:induction false} TrimEndBehind(s: string, k: string)
    requires s != [] && !IsBlank(s[|s| - 1])
    ensures TrimEnd(s + k) == s + TrimEnd(k)
  {
    if k == [] {
      assert s + k == s;
    } else if IsBlank(k[|k| - 1]) {
      assert (s + k)[..|s + k| - 1] == s + k[..|k| - 1];
      TrimEndBehind(s, k[..|k| - 1]);
    }
  }

  lemma {:induction false} TrimEndLast(s: string)
    ensures var t := TrimEnd(s); t != [] ==> !IsBlank(t[|t| - 1])
  {
    if s != [] && IsBlank(s[|s| - 1]) {
      TrimEndLast(s[..|s| - 1]);
    }
  }

  lemma TrimShortens(s: string)
    ensures Trim(s) == s || |Trim(s)| < |s|
    ensures Trim(s) == s ==> Trimmed(s)
  {
  }

  lemma NormalKinds(y: string)
    ensures if LooksQuoted(Trim(y)) then "<<" <= Normal(y) else Normal(y) == Cleaned(Trim(y))
  {
  }

  lemma CleanedShortens(t: string)
    ensures Cleaned(t) == t || |Cleaned(t)| < |t|
  {
  }

  /** A text that is stored as it is, and does not begin with two brackets. */
  lemma NormalSame(s: string)
    requires Normal(s) == s && !HasPrefix(s, "<<")
    ensures Trimmed(s) && Cleaned(s) == s
  {
    NormalKinds(s);
    TrimShortens(s);
    CleanedShortens(Trim(s));
  }

  lemma ShorterDiffers(y: string, s: string)
    requires |y| < |s| && s[0] != '<'
    ensures Normal(y) != s
  {
    NormalKinds(y);
    TrimShortens(y);
  }

  /** A text that goes on behind a closing bracket. */
  lemma LongerDiffers(y: string, s: string, c: char, v: string)
    requires y == s + (['>', ' ', c] + v) && !IsBlank(c) && c != '>'
    requires s != [] && s[|s| - 1] == '\\' && s[0] != '<'
    ensures Normal(y) != s
  {
    var a, w := TrimStart(s), TrimEnd(v);
    NormalKinds(y);
    TrimLonger(y, s, c, v);
    TrimStartLast(s, "");
    TrimEndLast(v);
    var t := a + (['>', ' ', c] + w);
    LongerCleaned(a, c, w);
    if t[0] == '"' {
      FirstIsInside('"', s);
    }
  }

  lemma {:induction false} FirstIsInside(c: char, s: string)
    requires TrimStart(s) != [] && TrimStart(s)[0] == c
    ensures Has(c, s)
  {
    if IsBlank(s[0]) {
      FirstIsInside(c, s[1..]);
      HasAppend(c, [s[0]], s[1..]);
      assert s == [s[0]] + s[1..];
    }
  }

  lemma TrimLonger(y: string, s: string, c: char, v: string)
    requires y == s + (['>', ' ', c] + v) && !IsBlank(c) && s != [] && !IsBlank(s[|s| - 1])
    ensures Trim(y) == TrimStart(s) + (['>', ' ', c] + TrimEnd(v))
  {
    var a := TrimStart(s);
    TrimStartLast(s, ['>', ' ', c] + v);
    Sequences.AppendTwo(a, ['>', ' ', c], v);
    TrimEndBehind(a + ['>', ' ', c], v);
    Sequences.AppendTwo(a, ['>', ' ', c], TrimEnd(v));
  }

  /** Cleaning removes the quote in front, or leaves more characters than `a` has. */
  lemma LongerCleaned(a: string, c: char, w: string)
    requires a != [] && !IsBlank(c) && c != '>' && (w == [] || !IsBlank(w[|w| - 1]))
    ensures var t := a + (['>', ' ', c] + w);
      if t[0] == '"' then !Has('"', Cleaned(t)) else NonBlanks(Cleaned(t)) > NonBlanks(a)
  {
    var t := a + (['>', ' ', c] + w);
    LongerCount(a, c, w);
    if t[0] == '"' {
      FindFirst('"', t[1..]);
      var close := Find('"', t[1..]);
      assert close.Some? ==> t[1..][..close.value] == t[1..close.value + 1];
    } else if t[0] == '<' && t[|t| - 1] == '>' {
      assert w != [] && t[|t| - 1] == w[|w| - 1];
      NonBlanksInside(t);
    }
  }

  lemma LongerCount(a: string, c: char, w: string)
    requires !IsBlank(c)
    ensures NonBlanks(a + (['>', ' ', c] + w)) == NonBlanks(a) + 2 + NonBlanks(w)
    ensures w != [] && !IsBlank(w[|w| - 1]) ==> NonBlanks(w) >= 1
  {
    NonBlanksAppend(a, ['>', ' ', c] + w);
    NonBlanksAppend(['>', ' ', c], w);
    NonBlanksAppend(">", [' ', c]);
    NonBlanksAppend(" ", [c]);
    OneNonBlank(c);
    OneNonBlank('>');
    assert ">" + [' ', c] == ['>', ' ', c] && " " + [c] == [' ', c] && " "[1..] == [];
    if w != [] {
      assert w == w[..|w| - 1] + [w[|w| - 1]];
      NonBlanksAppend(w[..|w| - 1], [w[|w| - 1]]);
      OneNonBlank(w[|w| - 1]);
    }
  }

  lemma OneNonBlank(c: char)
    ensures NonBlanks([c]) == if IsBlank(c) then 0 else 1
  {
    assert [c][1..] == [];
  }

  lemma NonBlanksInside(t: string)
    requires |t| >= 2 && t[0] == '<' && t[|t| - 1] == '>'
    ensures NonBlanks(t) == NonBlanks(t[1..|t| - 1]) + 2
  {
    assert t[1..] == t[1..|t| - 1] + ">";
    NonBlanksAppend(t[1..|t| - 1], ">");
    assert ">"[1..] == [];
  }

  // ---------------------------------------------------------------- identifiers

  /** What an identifier needs besides being on one line. */
  predicate IsIdentifier(s: string) {
    Trimmed(s) && NeverCloses('>', s) && !Pending(false, s) && (s == [] || (s[0] != '<' && s[0] != '"'))
  }

  /** The scanner is inside a quoted triple that will be the part number `j`, or has finished it. */
  ghost predicate Opened(st: LineScan, j: nat) {
    || (|st.parts| == j && st.depth > 0 && !st.inUri && "<<" <= st.current)
    || (|st.parts| > j && LooksQuoted(st.parts[j]))
  }

  lemma OpenedStep(st: LineScan, j: nat, s: string)
    requires s != [] && Opened(st, j)
    ensures Opened(Advance(st, s).0, j)
  {
    if |st.parts| == j {
      InsideTriple(st, s);
    } else {
      AdvanceAdds(st, s);
    }
  }

  lemma InsideTriple(st: LineScan, s: string)
    requires s != [] && st.depth > 0 && !st.inUri && "<<" <= st.current
    ensures var next := Advance(st, s).0;
      || (next.parts == st.parts && next.depth > 0 && !next.inUri && "<<" <= next.current)
      || (next.parts == st.parts + [st.current + ">>"] && LooksQuoted(st.current + ">>"))
  {
    AdvanceAdds(st, s);
    var part := st.current + ">>";
    assert part == st.current + ['>', '>'] && part[|part| - 2..] == ">>";
    TrimTrimmed(part);
  }

  lemma {:induction false} OpenedScan(st: LineScan, j: nat, s: string)
    requires Opened(st, j)
    ensures var found := FinishLine(ScanLine(st, s)); |found| > j + 1 ==> LooksQuoted(found[j])
    decreases |s|
  {
    if s != [] {
      OpenedStep(st, j, s);
      OpenedScan(Advance(st, s).0, j, s[Advance(st, s).1..]);
    }
  }

  /** An identifier that begins with one bracket opens a quoted triple. */
  lemma BracketOpensTriple(parts: seq<string>, s: string, k: string)
    requires s != [] && s[0] == '<' && !HasPrefix(s, "<<")
    ensures var found := FinishLine(ScanLine(Between(parts), Bracketed(s) + k));
      |found| > |parts| + 1 ==> LooksQuoted(found[|parts|]) && Reread(found[|parts|]) != s
  {
    var text := Bracketed(s) + k;
    assert text[0] == '<' && text[1] == '<';
    assert "" + ['<', '<'] == "<<";
    assert Advance(Between(parts), text) == (InTriple(parts, "<<", 1), 2);
    OpenedScan(InTriple(parts, "<<", 1), |parts|, text[2..]);
    var found := FinishLine(ScanLine(Between(parts), text));
    if |found| > |parts| + 1 {
      QuotedReread(found[|parts|]);
    }
  }

  lemma QuotedReread(part: string)
    requires LooksQuoted(part)
    ensures "<<" <= Reread(part)
  {
    assert part[|part| - 2..][1] == '>';
    TrimTrimmed(part);
    NormalKinds(part);
  }

  /** The part that the scanner finishes at the first closing bracket. */
  lemma UriFound(parts: seq<string>, s: string, k: string, m: nat)
    requires s == [] || s[0] != '<'
    requires CloseAt('>', false, s + (">" + k)) == Some(m)
    ensures var text := s + (">" + k);
      var found := FinishLine(ScanLine(Between(parts), Bracketed(s) + k));
      |found| > |parts| && found[|parts|] == Bracketed(text[..m]) && Reread(found[|parts|]) == Normal(text[..m])
  {
    var text := s + (">" + k);
    UriOpens(parts, s, k);
    UriCut(parts, text, m);
    assert text[..m] == [] || text[..m][0] == text[0];
    CleanUri(text[..m]);
  }

  lemma UriCut(parts: seq<string>, text: string, m: nat)
    requires CloseAt('>', false, text) == Some(m)
    ensures var found := FinishLine(ScanLine(InUri(parts, "<", false), text));
      |found| > |parts| && found[|parts|] == Bracketed(text[..m])
  {
    UriFirstPart(parts, text, m);
    CutText(text, m);
    BracketedIsTrimmed(text[..m]);
    FirstPart(parts, Bracketed(text[..m]), text[m + 1..]);
  }

  lemma CutText(text: string, m: nat)
    requires m < |text| && text[m] == '>'
    ensures "<" + text[..m + 1] == Bracketed(text[..m])
  {
  }

  lemma FirstPart(parts: seq<string>, part: string, s: string)
    ensures var found := FinishLine(ScanLine(Between(parts + [part]), s)); |found| > |parts| && found[|parts|] == part
  {
    PartsKept(Between(parts + [part]), s);
    var found := FinishLine(ScanLine(Between(parts + [part]), s));
    assert found[..|parts| + 1][|parts|] == part;
  }

  lemma NotClosed(parts: seq<string>, s: string, k: string)
    requires s == [] || s[0] != '<'
    requires CloseAt('>', false, s + (">" + k)).None?
    ensures |FinishLine(ScanLine(Between(parts), Bracketed(s) + k))| == |parts| + 1
  {
    UriOpens(parts, s, k);
    UriScan(parts, "<", false, s + (">" + k));
  }

  /** Behind an identifier stand a blank and the next part. */
  predicate MoreBehind(k: string) {
    |k| >= 2 && k[0] == ' ' && !IsBlank(k[1]) && k[1] != '>'
  }

  lemma {:induction false} PendingEnds(escaped: bool, s: string)
    requires Pending(escaped, s) && (s == [] ==> !escaped)
    ensures s != [] && s[|s| - 1] == '\\'
    decreases |s|
  {
    if |s| > 1 {
      PendingEnds(!escaped && s[0] == '\\', s[1..]);
    } else {
      assert s[1..] == [];
    }
  }

  lemma ClosedBehind(k: string)
    requires MoreBehind(k)
    ensures var r := CloseAt('>', true, ">" + k); r.Some? ==> r.value >= 3
  {
    var text := ">" + k;
    assert text[1..] == k && k[1..][0] == k[1];
  }

  /** An escaped closing bracket: the part goes on behind it. */
  lemma PendingDiffers(s: string, k: string, m: nat)
    requires s == [] || s[0] != '<'
    requires NeverCloses('>', s) && Pending(false, s) && MoreBehind(k)
    requires CloseAt('>', false, s + (">" + k)) == Some(m)
    ensures Normal((s + (">" + k))[..m]) != s
  {
    CloseBehind('>', false, s, ">" + k);
    ClosedBehind(k);
    PendingEnds(false, s);
    var y, v := (s + (">" + k))[..m], k[2..m - |s| - 1];
    GoesOn(s, k, m);
    LongerDiffers(y, s, k[1], v);
  }

  lemma GoesOn(s: string, k: string, m: nat)
    requires MoreBehind(k) && |s| + 3 <= m <= |s| + 1 + |k|
    ensures (s + (">" + k))[..m] == s + (['>', ' ', k[1]] + k[2..m - |s| - 1])
  {
  }

  /** Only an identifier comes back from between brackets. */
  lemma UriPartOnly(parts: seq<string>, s: string, k: string)
    requires !HasPrefix(s, "<<") && MoreBehind(k)
    ensures var found := FinishLine(ScanLine(Between(parts), Bracketed(s) + k));
      |found| > |parts| + 1 ==>
        && found[|parts|] != [] && found[|parts|][0] == '<'
        && (Reread(found[|parts|]) == s ==> IsIdentifier(s))
  {
    var text := s + (">" + k);
    if s != [] && s[0] == '<' {
      BracketOpensTriple(parts, s, k);
    } else if CloseAt('>', false, text).None? {
      NotClosed(parts, s, k);
    } else {
      var m := CloseAt('>', false, text).value;
      UriFound(parts, s, k, m);
      FirstCloseOnly(s, k, m);
    }
  }

  lemma FirstCloseOnly(s: string, k: string, m: nat)
    requires (s == [] || s[0] != '<') && MoreBehind(k)
    requires CloseAt('>', false, s + (">" + k)) == Some(m)
    ensures Normal((s + (">" + k))[..m]) == s ==> IsIdentifier(s)
  {
    CloseBehind('>', false, s, ">" + k);
    if CloseAt('>', false, s).Some? {
      assert |(s + (">" + k))[..m]| == m;
      ShorterDiffers((s + (">" + k))[..m], s);
    } else if Pending(false, s) {
      PendingDiffers(s, k, m);
    } else {
      assert (s + (">" + k))[..m] == s;
      if Normal(s) == s {
        NormalSame(s);
      }
    }
  }

  // ---------------------------------------------------------------- objects

  lemma WebClosedEarly(parts: seq<string>, s: string, m: nat)
    requires IsWebAddress(s) && CloseAt('>', false, s) == Some(m)
    ensures var found := FinishLine(ScanLine(Between(parts), Bracketed(s)));
      |found| > |parts| && Reread(found[|parts|]) != s
  {
    CloseBehind('>', false, s, ">" + "");
    UriFound(parts, s, "", m);
    BracketedPieces(s, "");
    assert (s + ">")[..m] == s[..m];
    ShorterDiffers(s[..m], s);
  }

  lemma WebOnly(parts: seq<string>, s: string)
    requires IsWebAddress(s)
    ensures var found := FinishLine(ScanLine(Between(parts), Bracketed(s)));
      |found| == |parts| + 1 && Reread(found[|parts|]) == s ==> Trimmed(s) && NeverCloses('>', s)
  {
    if CloseAt('>', false, s).Some? {
      WebClosedEarly(parts, s, CloseAt('>', false, s).value);
    } else {
      WebPart(parts, s);
      CleanUri(s);
      if Normal(s) == s {
        NormalSame(s);
      }
    }
  }

  lemma {:induction false} FindAppend(c: char, s: string, k: string)
    requires Find(c, s).Some?
    ensures Find(c, s + k) == Find(c, s)
  {
    assert (s + k)[0] == s[0] && (s + k)[1..] == s[1..] + k;
    if s[0] != c {
      FindAppend(c, s[1..], k);
    }
  }

  lemma QuotedTextParts(s: string, i: nat)
    requires Find('"', s) == Some(i)
    ensures var t := "\"" + s + "\"";
      && Find('"', t[1..]) == Some(i) && t[1..i + 1] == s[..i] && t[i + 2..] == s[i + 1..] + "\""
  {
    var t := "\"" + s + "\"";
    assert t[1..] == s + "\"";
    FindAppend('"', s, "\"");
  }

  /** Cleaning a text in quotes with a quote inside. */
  lemma CleanQuoted(t: string, i: nat, value: string, rest: string)
    requires Trimmed(t) && t != [] && t[0] == '"' && Find('"', t[1..]) == Some(i)
    requires value == t[1..i + 1] && rest == t[i + 2..] && rest != []
    ensures CleanTerm(t) == if HasPrefix(rest, "^^") then value else if HasPrefix(rest, "@") then value + rest else t
  {
    TrimTrimmed(t);
    QuotedBegins(t);
  }

  /** Behind the first inner quote anything but a language tag is dropped. */
  lemma QuotedCleans(s: string, i: nat)
    requires Find('"', s) == Some(i) && !HasPrefix(s[i + 1..] + "\"", "@")
    ensures Reread("\"" + s + "\"") == Normal(s[..i]) || Reread("\"" + s + "\"") == s[..i]
  {
    var t := "\"" + s + "\"";
    QuotedTextParts(s, i);
    CleanQuoted(t, i, s[..i], s[i + 1..] + "\"");
    CleanedQuoted(t, i);
  }

  lemma CleanedQuoted(t: string, i: nat)
    requires Trimmed(t) && t != [] && t[0] == '"' && Find('"', t[1..]) == Some(i)
    ensures Normal(t) == t[1..i + 1]
  {
    TrimTrimmed(t);
    QuotedBegins(t);
    NormalKinds(t);
  }

  lemma TaggedCleans(s: string, i: nat)
    requires Find('"', s) == Some(i) && HasPrefix(s[i + 1..] + "\"", "@")
    ensures Reread("\"" + s + "\"") == Normal(s[..i] + (s[i + 1..] + "\""))
  {
    QuotedTextParts(s, i);
    CleanTagged("\"" + s + "\"", i, s[..i], s[i + 1..] + "\"");
  }

  lemma CleanTagged(t: string, i: nat, value: string, rest: string)
    requires Trimmed(t) && t != [] && t[0] == '"' && Find('"', t[1..]) == Some(i)
    requires value == t[1..i + 1] && rest == t[i + 2..] && HasPrefix(rest, "@")
    ensures CleanTerm(t) == value + rest
  {
    CleanQuoted(t, i, value, rest);
    assert rest[0] == '@' && "^^"[0] != '@';
  }

  /** A quote inside a literal never comes back. */
  lemma QuoteIsLost(s: string)
    requires Has('"', s)
    ensures Reread("\"" + s + "\"") != s
  {
    FindFirst('"', s);
    var i := Find('"', s).value;
    if HasPrefix(s[i + 1..] + "\"", "@") {
      TaggedCleans(s, i);
      TaggedDiffers(s, i);
    } else {
      NormalHas('"', s[..i]);
      QuotedCleans(s, i);
    }
  }

  lemma TaggedDiffers(s: string, i: nat)
    requires Find('"', s) == Some(i) && HasPrefix(s[i + 1..] + "\"", "@")
    ensures Normal(s[..i] + (s[i + 1..] + "\"")) != s
  {
    var y := s[..i] + (s[i + 1..] + "\"");
    assert y[i] == '@' && s[i] == '"' && |y| == |s|;
    assert y != s;
    TrimStartLast(y, "");
    TrimEndBehind(TrimStart(y), "");
    assert TrimStart(y) + "" == TrimStart(y) && y + "" == y;
    QuotedEndsBracket(Trim(y));
    NormalKinds(y);
    TrimShortens(y);
    CleanedShortens(Trim(y));
  }

  lemma QuotedEndsBracket(t: string)
    requires t != [] && t[|t| - 1] != '>'
    ensures !LooksQuoted(t)
  {
    if |t| >= 2 {
      assert t[|t| - 2..][1] == t[|t| - 1];
    }
  }

  lemma LiteralOnly(s: string)
    requires !HasPrefix(s, "<<")
    ensures Reread("\"" + s + "\"") == s ==>
      Trimmed(s) && !Has('"', s) && !(|s| >= 2 && s[0] == '<' && s[|s| - 1] == '>')
  {
    if Has('"', s) {
      QuoteIsLost(s);
    } else {
      CleanLiteral(s);
      if Normal(s) == s {
        NormalSame(s);
      }
    }
  }

  lemma ObjectOnly(parts: seq<string>, o: string)
    requires !HasPrefix(o, "<<") && !Has('\n', o)
    ensures var found := FinishLine(ScanLine(Between(parts), WriteObject(o)));
      |found| == |parts| + 1 && Reread(found[|parts|]) == o ==> LoadableObject(o)
  {
    if IsWebAddress(o) {
      WebOnly(parts, o);
    } else {
      LiteralPart(parts, o);
      LiteralOnly(o);
    }
  }

  // ---------------------------------------------------------------- statements

  ghost predicate NoTriples(st: Statement) {
    !HasPrefix(st.subj, "<<") && !HasPrefix(st.pred, "<<") && !HasPrefix(st.obj, "<<")
  }

  ghost predicate NoBreaks(st: Statement) {
    !Has('\n', st.subj) && !Has('\n', st.pred) && !Has('\n', st.obj)
  }

  /** The parts of the written statement, when it is read back. */
  ghost predicate ReadAs(found: seq<string>, st: Statement) {
    && |found| == 3 && Reread(found[0]) == st.subj && Reread(found[2]) == st.obj
    && (found[1] != "a" ==> Reread(found[1]) == st.pred)
  }

  lemma StoredParts(st: Statement)
    requires var p := ParseLine(Written3(st)); p.Some? && Stored(p.value) == st
    ensures ReadAs(FinishLine(ScanLine(Between([]), Written3(st))), st)
  {
  }

  lemma SubjectOnly(st: Statement)
    requires NoTriples(st) && NoBreaks(st) && ReadAs(FinishLine(ScanLine(Between([]), Written3(st))), st)
    ensures LoadableUri(st.subj)
  {
    UriPartOnly([], st.subj, " " + (Bracketed(st.pred) + (" " + WriteObject(st.obj))));
  }

  lemma PredicateOnly(st: Statement)
    requires NoTriples(st) && NoBreaks(st) && LoadableUri(st.subj)
    requires ReadAs(FinishLine(ScanLine(Between([]), Written3(st))), st)
    ensures LoadableUri(st.pred)
  {
    SecondPart(st);
    UriPartOnly([WriteSubject(st.subj)], st.pred, " " + WriteObject(st.obj));
  }

  lemma SecondPart(st: Statement)
    requires LoadableUri(st.subj)
    ensures ScanLine(Between([]), Written3(st))
         == ScanLine(Between([WriteSubject(st.subj)]), Bracketed(st.pred) + (" " + WriteObject(st.obj)))
  {
    var a, k := WriteSubject(st.subj), Bracketed(st.pred) + (" " + WriteObject(st.obj));
    SubjectPart([], st.subj, " " + k);
    assert [] + [a] == [a];
    NextPart([a], k);
  }

  lemma ThirdPart(st: Statement)
    requires LoadableUri(st.subj) && LoadableUri(st.pred)
    ensures ScanLine(Between([]), Written3(st))
         == ScanLine(Between([WriteSubject(st.subj), Bracketed(st.pred)]), WriteObject(st.obj))
  {
    var a, b, c := WriteSubject(st.subj), Bracketed(st.pred), WriteObject(st.obj);
    SecondPart(st);
    UriPart([a], st.pred, " " + c);
    OneMorePart(a, b, c);
    NextPart([a, b], c);
  }

  lemma LastOnly(st: Statement)
    requires NoTriples(st) && NoBreaks(st) && LoadableUri(st.subj) && LoadableUri(st.pred)
    requires ReadAs(FinishLine(ScanLine(Between([]), Written3(st))), st)
    ensures LoadableObject(st.obj)
  {
    ThirdPart(st);
    ObjectOnly([WriteSubject(st.subj), Bracketed(st.pred)], st.obj);
  }

  lemma OneLineDocument(st: Statement)
    requires NoTriples(st) && NoBreaks(st)
    ensures ParseNTriples(WriteStatement(st)) == LineStatements(Written3(st) + " .")
  {
    WrittenBreaks(st);
    FirstOfDocument(st, []);
    FlatMapOne(WriteStatement, st);
    Sequences.AppendNothing([st], []);
    assert WriteNTriples([]) == "" && ParseNTriples("") == [];
    Sequences.AppendNothing(LineStatements(Written3(st) + " ."), []);
  }

  /** The document of one statement. */
  lemma OneStatement(st: Statement)
    requires NoTriples(st) && NoBreaks(st)
    ensures Load(WriteStatement(st)) == var p := ParseLine(Written3(st)); if p.Some? then {Stored(p.value)} else {}
  {
    OneLineDocument(st);
    WrittenEnds(st);
    DottedLine(Written3(st));
    LoadAtMostOne(WriteStatement(st), ParseLine(Written3(st)));
  }

  lemma LoadAtMostOne(text: string, p: Option<Statement>)
    requires ParseNTriples(text) == if p.Some? then [p.value] else []
    ensures Load(text) == if p.Some? then {Stored(p.value)} else {}
  {
  }

  /** Among the statements without a term that begins like a quoted triple, exactly the loadable ones come back from
      the document that is written for them. */
  lemma StatementExactly(st: Statement)
    requires NoTriples(st)
    ensures Load(WriteStatement(st)) == {st} <==> Loadable(st)
  {
    if Loadable(st) {
      FlatMapOne(WriteStatement, st);
      StoreRoundTrip([st]);
    }
    if Load(WriteStatement(st)) == {st} {
      assert st in Load(WriteStatement(st));
      LoadedOnOneLine(WriteStatement(st), st);
      OneStatement(st);
      StoredParts(st);
      SubjectOnly(st);
      PredicateOnly(st);
      LastOnly(st);
    }
  }

  /** Outer white space, for example, is lost. */
  lemma OuterBlankIsLost(p: string, o: string)
    requires !HasPrefix(p, "<<") && !HasPrefix(o, "<<")
    ensures Load(WriteStatement(Statement(" s", p, o))) != {Statement(" s", p, o)}
  {
    var st := Statement(" s", p, o);
    assert IsBlank(" s"[0]);
    if PlainQuoted(" s") {
      QuotedEnds(" s");
    }
    StatementExactly(st);
  }
}
