/** N-Triples as others write it (section 2 of RDF 1.1 N-Triples): which statement is read from a line, with
    identifiers, blank nodes, literals with and without datatypes and language tags, the predicate `a`, quoted triples,
    white space, comments and lines without a dot. */
module NTriplesTexts {
  import opened Options
  import opened Bags
  import opened TermText
  import opened QuotedTriples
  import opened TermStore
  import opened PatternJoin
  import opened NTriples
  import opened NTriplesRoundTrip

  // ---------------------------------------------------------------- nodes

  /** What may stand in a statement. */
  datatype Node =
    | Iri(address: string)
    | BlankNode(name: string)
    | Plain(value: string)
    | Typed(value: string, datatypeAddress: string)
    | Abbreviated(value: string, datatypeName: string)
    | Tagged(value: string, tag: string)
    | Escaped(value: string, more: string)
    | QuotedTriple(triple: Term)

  /** The text of a node. */
  function Text(n: Node): string {
    match n
    case Iri(address) => "<" + address + ">"
    case BlankNode(name) => "_:" + name
    case Plain(value) => "\"" + (value + ("\"" + ""))
    case Typed(value, d) => "\"" + (value + ("\"" + ("^^<" + (d + ">"))))
    case Abbreviated(value, d) => "\"" + (value + ("\"" + ("^^" + d)))
    case Tagged(value, tag) => "\"" + (value + ("\"" + ("@" + tag)))
    case Escaped(value, more) => "\"" + (value + ("\\\"" + (more + "\"")))
    case QuotedTriple(t) => Render(t)
  }

  /** What is read from it: brackets, quotes and datatypes are dropped, a tag is glued to the value, and a literal with
      an escaped quote in it keeps its quotes and its backslash. */
  function Meaning(n: Node): string {
    match n
    case Iri(address) => address
    case BlankNode(name) => "_:" + name
    case Plain(value) => value
    case Typed(value, _) => value
    case Abbreviated(value, _) => value
    case Tagged(value, tag) => value + ("@" + tag)
    case Escaped(value, more) => "\"" + (value + ("\\\"" + (more + "\"")))
    case QuotedTriple(t) => Render(t)
  }

  /** A value without quotes and backslashes, on one line. */
  predicate IsValue(v: string) {
    forall i | 0 <= i < |v| :: v[i] != '"' && v[i] != '\\' && v[i] != '\n'
  }

  predicate IsAddress(s: string) {
    LoadableUri(s)
  }

  predicate IsName(s: string) {
    s != [] && forall i | 0 <= i < |s| :: IsPlainChar(s[i])
  }

  predicate IsTag(s: string) {
    forall i | 0 <= i < |s| ::
      'a' <= s[i] <= 'z' || 'A' <= s[i] <= 'Z' || '0' <= s[i] <= '9' || s[i] == '-'
  }

  predicate IsNode(n: Node) {
    match n
    case Iri(address) => IsAddress(address)
    case BlankNode(name) => IsName(name)
    case Plain(value) => IsValue(value)
    case Typed(value, d) => IsValue(value) && !Has('>', d) && !Has('\n', d)
    case Abbreviated(value, d) => IsValue(value) && IsName(d)
    case Tagged(value, tag) => IsValue(value) && IsTag(tag)
    case Escaped(value, more) => IsValue(value) && IsValue(more) && (more != [] ==> more[0] != '^' && more[0] != '@')
    case QuotedTriple(t) => t.Quoted? && Written(t) && !Has('\n', Render(t))
  }

  /** The line ends here, or the next part comes behind a blank or a tab. */
  predicate PartEnds(k: string) {
    k == [] || k[0] == ' ' || k[0] == '\t'
  }

  // ---------------------------------------------------------------- scanning one node

  lemma {:induction false} ValueScan(parts: seq<string>, current: string, v: string, k: string)
    requires IsValue(v)
    ensures ScanLine(Quoting(parts, current, 0, false), v + k) == ScanLine(Quoting(parts, current + v, 0, false), k)
    decreases |v|
  {
    if v == [] {
      assert v + k == k && current + v == current;
    } else {
      var text := v + k;
      assert text[0] == v[0] && text[1..] == v[1..] + k;
      assert Advance(Quoting(parts, current, 0, false), text) == (Quoting(parts, current + [v[0]], 0, false), 1);
      ValueScan(parts, current + [v[0]], v[1..], k);
      assert current + [v[0]] + v[1..] == current + v;
    }
  }

  /** A literal becomes a part together with the suffix that belongs to it. */
  lemma LiteralNode(parts: seq<string>, v: string, suffix: string, k: string)
    requires IsValue(v) && SuffixLength(suffix + k) == |suffix|
    ensures var text := "\"" + (v + ("\"" + suffix));
      ScanLine(Between(parts), text + k) == ScanLine(Between(parts + [Trim(text)]), k)
  {
    var s := suffix + k;
    LiteralTexts(v, suffix, k);
    QuoteOpens(parts, "", 0, v + ("\"" + s));
    ValueScan(parts, "\"", v, "\"" + s);
    QuoteCloses(parts, "\"" + v, 0, s);
  }

  lemma LiteralTexts(v: string, suffix: string, k: string)
    ensures var s := suffix + k;
      && "\"" + (v + ("\"" + suffix)) + k == "\"" + (v + ("\"" + s))
      && "" + "\"" == "\"" && s[..|suffix|] == suffix && s[|suffix|..] == k
      && "\"" + v + ("\"" + suffix) == "\"" + (v + ("\"" + suffix))
  {
  }

  lemma {:induction false} TagLength(tag: string, k: string)
    requires IsTag(tag) && PartEnds(k)
    ensures LanguageLength(tag + k) == |tag|
  {
    if tag == [] {
      assert tag + k == k;
    } else {
      assert (tag + k)[0] == tag[0] && (tag + k)[1..] == tag[1..] + k;
      TagLength(tag[1..], k);
    }
  }

  lemma {:induction false} NameLength(d: string, k: string)
    requires (forall i | 0 <= i < |d| :: IsPlainChar(d[i])) && PartEnds(k)
    ensures DatatypeLength(d + k) == |d|
  {
    if d == [] {
      assert d + k == k;
    } else {
      assert (d + k)[0] == d[0] && (d + k)[1..] == d[1..] + k;
      NameLength(d[1..], k);
    }
  }

  /** What stands behind the closing quote. */
  function Suffix(n: Node): string {
    match n
    case Typed(_, d) => "^^<" + (d + ">")
    case Abbreviated(_, d) => "^^" + d
    case Tagged(_, tag) => "@" + tag
    case _ => ""
  }

  /** A literal of a value and a suffix. */
  predicate IsLiteralNode(n: Node) {
    n.Plain? || n.Typed? || n.Abbreviated? || n.Tagged?
  }

  lemma SuffixTaken(n: Node, k: string)
    requires IsNode(n) && IsLiteralNode(n) && PartEnds(k)
    ensures SuffixLength(Suffix(n) + k) == |Suffix(n)|
  {
    match n
    case Plain(_) => assert "" + k == k;
    case Typed(_, d) =>
      assert "^^<" + (d + ">") + k == "^^<" + (d + (">" + k));
      DatatypeInBrackets(d, k);
    case Abbreviated(_, d) => NameTaken(d, k);
    case Tagged(_, tag) => TagTaken(tag, k);
  }

  lemma NameTaken(d: string, k: string)
    requires IsName(d) && PartEnds(k)
    ensures SuffixLength("^^" + d + k) == |d| + 2
  {
    var s := "^^" + d + k;
    assert s[0] == '^' && s[1] == '^' && s[2..] == d + k;
    NameLength(d, k);
  }

  lemma TagTaken(tag: string, k: string)
    requires IsTag(tag) && PartEnds(k)
    ensures SuffixLength("@" + tag + k) == |tag| + 1
  {
    var s := "@" + tag + k;
    assert s[0] == '@' && s[1..] == tag + k;
    TagLength(tag, k);
  }

  lemma {:induction false} NameScan(parts: seq<string>, current: string, s: string, k: string)
    requires forall i | 0 <= i < |s| :: IsPlainChar(s[i])
    ensures ScanLine(InTriple(parts, current, 0), s + k) == ScanLine(InTriple(parts, current + s, 0), k)
    decreases |s|
  {
    if s == [] {
      assert s + k == k && current + s == current;
    } else {
      var text := s + k;
      assert text[0] == s[0] && text[1..] == s[1..] + k;
      assert Advance(InTriple(parts, current, 0), text) == (InTriple(parts, current + [s[0]], 0), 1);
      NameScan(parts, current + [s[0]], s[1..], k);
      assert current + [s[0]] + s[1..] == current + s;
    }
  }

  /** A name ends at the next blank. */
  lemma NamePart(parts: seq<string>, s: string, k: string)
    requires IsName(s) && PartEnds(k)
    ensures k != [] ==> ScanLine(Between(parts), s + k) == ScanLine(Between(parts + [s]), k[1..])
    ensures k == [] ==> FinishLine(ScanLine(Between(parts), s + k)) == parts + [s]
  {
    assert IsPlainChar(s[0]) && IsPlainChar(s[|s| - 1]);
    NameScan(parts, "", s, k);
    assert "" + s == s;
    TrimTrimmed(s);
    if k != [] {
      assert Advance(InTriple(parts, s, 0), k) == (Between(parts + [s]), 1);
    }
  }

  // ---------------------------------------------------------------- a node is a part

  lemma TextOfLiteral(n: Node)
    requires IsLiteralNode(n)
    ensures Text(n) == "\"" + (n.value + ("\"" + Suffix(n)))
  {
  }

  lemma SuffixEnds(n: Node)
    requires IsNode(n) && IsLiteralNode(n)
    ensures Suffix(n) != [] ==> !IsBlank(Suffix(n)[|Suffix(n)| - 1])
  {
    var s := Suffix(n);
    match n
    case Plain(_) =>
    case Typed(_, d) => assert s[|s| - 1] == '>';
    case Abbreviated(_, d) => assert s[|s| - 1] == d[|d| - 1];
    case Tagged(_, tag) => assert tag != [] ==> s[|s| - 1] == tag[|tag| - 1];
  }

  lemma EscapedLast(v: string, more: string)
    ensures var t := "\"" + (v + ("\\\"" + (more + "\""))); t[0] == '"' && t[|t| - 1] == '"'
  {
  }

  lemma TextTrimmed(n: Node)
    requires IsNode(n)
    ensures Text(n) != [] && Trimmed(Text(n))
  {
    var t := Text(n);
    if IsLiteralNode(n) {
      TextOfLiteral(n);
      SuffixEnds(n);
      assert t[|t| - 1] == if Suffix(n) == [] then '"' else Suffix(n)[|Suffix(n)| - 1];
    } else if n.QuotedTriple? {
      RenderEnds(n.triple);
    } else if n.BlankNode? {
      assert t[|t| - 1] == n.name[|n.name| - 1];
    } else if n.Escaped? {
      EscapedLast(n.value, n.more);
    } else {
      assert t[|t| - 1] == '>';
    }
  }

  /** The scanner between two parts, or still inside a name that the next blank ends. */
  ghost predicate Scanned(parts: seq<string>, text: string, k: string) {
    if k == [] then FinishLine(ScanLine(Between(parts), text + k)) == parts + [text]
    else ScanLine(Between(parts), text + k) == ScanLine(Between(parts + [text]), k[1..])
  }

  lemma BlankSkipped(parts: seq<string>, k: string)
    requires k != [] && PartEnds(k)
    ensures ScanLine(Between(parts), k) == ScanLine(Between(parts), k[1..])
  {
    assert Advance(Between(parts), k) == (Between(parts), 1);
  }

  /** Where the scanner knows by itself that the part is over. */
  lemma PartOver(parts: seq<string>, text: string, k: string)
    requires PartEnds(k) && ScanLine(Between(parts), text + k) == ScanLine(Between(parts + [text]), k)
    ensures Scanned(parts, text, k)
  {
    if k != [] {
      BlankSkipped(parts + [text], k);
    }
  }

  /** An escaped quote does not end a literal. */
  lemma EscapedScan(parts: seq<string>, v: string, more: string, k: string)
    requires IsValue(v) && IsValue(more) && PartEnds(k)
    ensures var text := "\"" + (v + ("\\\"" + (more + "\"")));
      ScanLine(Between(parts), text + k) == ScanLine(Between(parts + [Trim(text)]), k)
  {
    var end := "\"" + k;
    EscapedPieces(v, more, k);
    QuoteOpens(parts, "", 0, v + ("\\\"" + (more + end)));
    ValueScan(parts, "\"", v, "\\\"" + (more + end));
    EscapedQuoteScan(parts, "\"" + v, more + end);
    ValueScan(parts, "\"" + v + "\\\"", more, end);
    QuoteCloses(parts, "\"" + v + "\\\"" + more, 0, k);
  }

  lemma EscapedQuoteScan(parts: seq<string>, current: string, k: string)
    ensures ScanLine(Quoting(parts, current, 0, false), "\\\"" + k)
         == ScanLine(Quoting(parts, current + "\\\"", 0, false), k)
  {
    var text := "\\\"" + k;
    assert text[0] == '\\' && text[1..] == "\"" + k && ("\"" + k)[1..] == k;
    assert Advance(Quoting(parts, current, 0, false), text) == (Quoting(parts, current + ['\\'], 0, true), 1);
    assert Advance(Quoting(parts, current + ['\\'], 0, true), "\"" + k)
        == (Quoting(parts, current + ['\\'] + ['"'], 0, false), 1);
    assert current + ['\\'] + ['"'] == current + "\\\"";
  }

  lemma EscapedPieces(v: string, more: string, k: string)
    requires PartEnds(k)
    ensures "\"" + (v + ("\\\"" + (more + "\""))) + k == "\"" + (v + ("\\\"" + (more + ("\"" + k))))
    ensures "" + "\"" == "\"" && SuffixLength(k) == 0 && k[..0] == "" && k[0..] == k
    ensures "\"" + v + "\\\"" + more + ("\"" + "") == "\"" + (v + ("\\\"" + (more + "\"")))
  {
  }

  lemma NodePart(parts: seq<string>, n: Node, k: string)
    requires IsNode(n) && PartEnds(k)
    ensures Scanned(parts, Text(n), k)
  {
    match n
    case Iri(address) =>
      UriPart(parts, address, k);
      PartOver(parts, Text(n), k);
    case BlankNode(name) =>
      assert IsName("_:" + name);
      NamePart(parts, "_:" + name, k);
    case QuotedTriple(t) =>
      TriplePart(parts, t, k);
      PartOver(parts, Text(n), k);
    case Escaped(value, more) =>
      EscapedScan(parts, value, more, k);
      TextTrimmed(n);
      TrimTrimmed(Text(n));
      PartOver(parts, Text(n), k);
    case _ =>
      SuffixTaken(n, k);
      LiteralNode(parts, n.value, Suffix(n), k);
      TextOfLiteral(n);
      TextTrimmed(n);
      TrimTrimmed(Text(n));
      PartOver(parts, Text(n), k);
  }

  // ---------------------------------------------------------------- what is read from a part

  lemma ValueHas(v: string)
    requires IsValue(v)
    ensures !Has('"', v) && !Has('\n', v)
  {
  }

  lemma LiteralCleanedTo(t: string, v: string, suffix: string)
    requires t == "\"" + (v + ("\"" + suffix)) && !Has('"', v) && Trimmed(t)
    ensures suffix == "" || HasPrefix(suffix, "^^") ==> CleanTerm(t) == v
    ensures HasPrefix(suffix, "@") ==> CleanTerm(t) == v + suffix
  {
    assert t[1..] == v + ("\"" + suffix) && t[1..|v| + 1] == v && t[|v| + 2..] == suffix;
    FindIn('"', v, "\"" + suffix);
    assert ("\"" + suffix)[0] == '"';
    TrimTrimmed(t);
    QuotedBegins(t);
    assert HasPrefix(suffix, "@") ==> suffix[0] == '@';
    assert HasPrefix(suffix, "^^") ==> suffix[0] == '^';
  }

  lemma SuffixBegins(n: Node)
    ensures n.Plain? ==> Suffix(n) == ""
    ensures n.Typed? || n.Abbreviated? ==> HasPrefix(Suffix(n), "^^")
    ensures n.Tagged? ==> HasPrefix(Suffix(n), "@")
  {
    match n
    case Typed(_, d) => assert Suffix(n)[..2] == "^^";
    case Abbreviated(_, d) => assert Suffix(n)[..2] == "^^";
    case Tagged(_, tag) => assert Suffix(n)[..1] == "@";
    case _ =>
  }

  lemma EscapedKept(v: string, more: string)
    requires IsValue(v) && IsValue(more) && (more != [] ==> more[0] != '^' && more[0] != '@')
    ensures var t := "\"" + (v + ("\\\"" + (more + "\""))); CleanTerm(t) == t
  {
    var t := "\"" + (v + ("\\\"" + (more + "\"")));
    var cut, rest := v + "\\", more + "\"";
    EscapedLast(v, more);
    CutPieces(v, rest);
    assert !Has('"', cut) by {
      ValueHas(v);
      HasAppend('"', v, "\\");
    }
    assert rest[0] == if more == [] then '"' else more[0];
    LiteralAsIs(t, cut, rest);
  }

  lemma CutPieces(v: string, rest: string)
    ensures "\"" + (v + ("\\\"" + rest)) == "\"" + ((v + "\\") + ("\"" + rest))
  {
    assert "\\\"" + rest == "\\" + ("\"" + rest);
  }

  /** A literal with something else than a datatype or a tag behind its first quote is left as it is. */
  lemma LiteralAsIs(t: string, cut: string, rest: string)
    requires t == "\"" + (cut + ("\"" + rest)) && !Has('"', cut) && Trimmed(t)
    requires rest != [] && rest[0] != '^' && rest[0] != '@'
    ensures CleanTerm(t) == t
  {
    assert t[1..] == cut + ("\"" + rest) && t[|cut| + 2..] == rest;
    FindIn('"', cut, "\"" + rest);
    assert ("\"" + rest)[0] == '"';
    TrimTrimmed(t);
    QuotedBegins(t);
  }

  lemma NodeCleaned(n: Node)
    requires IsNode(n)
    ensures CleanTerm(Text(n)) == Meaning(n)
  {
    TextTrimmed(n);
    match n
    case Iri(address) => CleanUri(address);
    case BlankNode(name) =>
      assert Text(n)[0] == '_';
      TrimTrimmed(Text(n));
      QuotedBegins(Text(n));
    case QuotedTriple(t) => TriplePart([], t, "");
    case Escaped(value, more) => EscapedKept(value, more);
    case _ =>
      ValueHas(n.value);
      TextOfLiteral(n);
      LiteralCleanedTo(Text(n), n.value, Suffix(n));
      SuffixBegins(n);
  }

  // ---------------------------------------------------------------- one line

  /** Blanks and tabs. */
  predicate Gap(w: string) {
    forall i | 0 <= i < |w| :: w[i] == ' ' || w[i] == '\t'
  }

  lemma {:induction false} GapSkipped(parts: seq<string>, w: string, k: string)
    requires Gap(w)
    ensures ScanLine(Between(parts), w + k) == ScanLine(Between(parts), k)
    decreases |w|
  {
    if w == [] {
      assert w + k == k;
    } else {
      assert (w + k)[1..] == w[1..] + k;
      BlankSkipped(parts, w + k);
      GapSkipped(parts, w[1..], k);
    }
  }

  /** A node, and the white space behind it. */
  lemma NodeThenGap(parts: seq<string>, n: Node, w: string, k: string)
    requires IsNode(n) && Gap(w) && w != []
    ensures ScanLine(Between(parts), Text(n) + (w + k)) == ScanLine(Between(parts + [Text(n)]), k)
  {
    NodePart(parts, n, w + k);
    GapRest(parts + [Text(n)], w, k);
  }

  /** The predicate: an identifier, or `a` for the type. */
  datatype Verb = Address(address: string) | TypeVerb

  function VerbText(p: Verb): string {
    if p.TypeVerb? then "a" else "<" + p.address + ">"
  }

  function VerbMeaning(p: Verb): string {
    if p.TypeVerb? then "http://www.w3.org/1999/02/22-rdf-syntax-ns#type" else p.address
  }

  predicate IsVerb(p: Verb) {
    p.Address? ==> IsAddress(p.address)
  }

  lemma VerbThenGap(parts: seq<string>, p: Verb, w: string, k: string)
    requires IsVerb(p) && Gap(w) && w != []
    ensures ScanLine(Between(parts), VerbText(p) + (w + k)) == ScanLine(Between(parts + [VerbText(p)]), k)
  {
    if p.Address? {
      NodeThenGap(parts, Iri(p.address), w, k);
    } else {
      NamePart(parts, "a", w + k);
      GapRest(parts + ["a"], w, k);
    }
  }

  lemma GapRest(parts: seq<string>, w: string, k: string)
    requires Gap(w) && w != []
    ensures ScanLine(Between(parts), (w + k)[1..]) == ScanLine(Between(parts), k)
  {
    assert (w + k)[1..] == w[1..] + k;
    GapSkipped(parts, w[1..], k);
  }

  /** A statement with white space between its parts. */
  function Spaced(s: Node, w: string, p: Verb, w': string, o: Node): string {
    Text(s) + (w + (VerbText(p) + (w' + Text(o))))
  }

  /** The three parts of a statement are read, and what they mean. */
  lemma StatementRead(s: Node, w: string, p: Verb, w': string, o: Node)
    requires IsNode(s) && IsVerb(p) && IsNode(o) && Gap(w) && w != [] && Gap(w') && w' != []
    ensures ParseLine(Spaced(s, w, p, w', o)) == Some(Statement(Meaning(s), VerbMeaning(p), Meaning(o)))
  {
    var a, b, c := Text(s), VerbText(p), Text(o);
    OneMorePart(a, b, c);
    NodeThenGap([], s, w, b + (w' + c));
    VerbThenGap([a], p, w', c);
    NodePart([a, b], o, "");
    assert c + "" == c;
    assert FinishLine(ScanLine(LINE_START, Spaced(s, w, p, w', o))) == [a, b, c];
    NodeCleaned(s);
    NodeCleaned(o);
    if p.Address? {
      CleanUri(p.address);
      assert b[0] != "a"[0];
    }
  }

  lemma {:induction false} GapTrimmedStart(w: string, s: string)
    requires Gap(w) && s != [] && !IsBlank(s[0])
    ensures TrimStart(w + s) == s
  {
    if w == [] {
      assert w + s == s;
    } else {
      assert (w + s)[1..] == w[1..] + s;
      GapTrimmedStart(w[1..], s);
    }
  }

  lemma {:induction false} GapTrimmedEnd(s: string, w: string)
    requires Gap(w) && s != [] && !IsBlank(s[|s| - 1])
    ensures TrimEnd(s + w) == s
  {
    if w == [] {
      assert s + w == s;
    } else {
      var n := |w| - 1;
      assert (s + w)[..|s + w| - 1] == s + w[..n] && (s + w)[|s + w| - 1] == w[n];
      GapTrimmedEnd(s, w[..n]);
    }
  }

  lemma GapsTrimmed(w: string, s: string, w': string)
    requires Gap(w) && Gap(w') && s != [] && Trimmed(s)
    ensures Trim(w + (s + w')) == s
  {
    assert (s + w')[0] == s[0];
    GapTrimmedStart(w, s + w');
    GapTrimmedEnd(s, w');
  }

  lemma SpacedEnds(s: Node, w: string, p: Verb, w': string, o: Node)
    requires IsNode(s) && IsNode(o)
    ensures var t := Spaced(s, w, p, w', o); t != [] && Trimmed(t) && t[0] != '#'
  {
    var t := Spaced(s, w, p, w', o);
    TextTrimmed(s);
    TextTrimmed(o);
    assert t[0] == Text(s)[0] && t[|t| - 1] == Text(o)[|Text(o)| - 1];
    if s.QuotedTriple? {
      TriplePart([], s.triple, "");
      QuotedBegins(Text(s));
    } else {
      assert Text(s)[0] == '<' || Text(s)[0] == '_' || Text(s)[0] == '"';
    }
  }

  /** A line of a statement, with white space in front of it, between its parts, and around the dot. */
  function DottedText(before: string, s: Node, w: string, p: Verb, w': string, o: Node, dot: string,
                      after: string): string {
    before + ((Spaced(s, w, p, w', o) + (dot + ".")) + after)
  }

  lemma DottedStatement(text: string, dot: string, before: string, after: string)
    requires text != [] && Trimmed(text) && text[0] != '#' && Gap(before) && Gap(dot) && Gap(after)
    ensures LineStatements(before + ((text + (dot + ".")) + after))
         == var st := ParseLine(text); if st.Some? then [st.value] else []
  {
    var l := text + (dot + ".");
    DottedPieces(text, dot);
    GapsTrimmed(before, l, after);
    GapTrimmed(text, dot);
    LineIsDotted(before + (l + after), l, text);
  }

  lemma DottedPieces(text: string, dot: string)
    requires text != []
    ensures var l := text + (dot + ".");
      l[0] == text[0] && l[|l| - 1] == '.' && l[..|l| - 1] == text + dot
  {
  }

  lemma LineIsDotted(line: string, l: string, text: string)
    requires Trim(line) == l && l != [] && l[0] != '#' && l[|l| - 1] == '.' && Trim(l[..|l| - 1]) == text
    ensures LineStatements(line) == var st := ParseLine(text); if st.Some? then [st.value] else []
  {
  }

  lemma GapTrimmed(s: string, w: string)
    requires Gap(w) && s != [] && Trimmed(s)
    ensures Trim(s + w) == s
  {
    assert (s + w)[0] == s[0];
    GapTrimmedEnd(s, w);
  }

  /** Every such line is read as its statement. */
  lemma LineRead(before: string, s: Node, w: string, p: Verb, w': string, o: Node, dot: string, after: string)
    requires IsNode(s) && IsVerb(p) && IsNode(o)
    requires Gap(before) && Gap(w) && w != [] && Gap(w') && w' != [] && Gap(dot) && Gap(after)
    ensures LineStatements(DottedText(before, s, w, p, w', o, dot, after))
         == [Statement(Meaning(s), VerbMeaning(p), Meaning(o))]
  {
    SpacedEnds(s, w, p, w', o);
    StatementRead(s, w, p, w', o);
    DottedStatement(Spaced(s, w, p, w', o), dot, before, after);
  }

  // ---------------------------------------------------------------- lines that add nothing

  /** A line that begins with a number sign gives no statement. */
  lemma CommentRead(before: string, text: string)
    requires Gap(before)
    ensures LineStatements(before + ("#" + text)) == []
  {
    var line := before + ("#" + text);
    GapTrimmedStart(before, "#" + text);
    TrimEndKeepsFirst("#" + text);
  }

  lemma {:induction false} TrimEndKeepsFirst(s: string)
    requires s != [] && !IsBlank(s[0])
    ensures TrimEnd(s) != [] && TrimEnd(s)[0] == s[0]
  {
    if IsBlank(s[|s| - 1]) {
      TrimEndKeepsFirst(s[..|s| - 1]);
    }
  }

  /** A line whose last character other than white space is no dot gives no statement. */
  lemma UndottedRead(text: string, after: string)
    requires text != [] && Trimmed(text) && text[|text| - 1] != '.' && Gap(after)
    ensures LineStatements(text + after) == []
  {
    GapTrimmed(text, after);
  }

  lemma {:induction false} GapRead(w: string)
    requires Gap(w)
    ensures LineStatements(w) == []
  {
    if w != [] {
      GapRead(w[1..]);
      assert TrimStart(w) == TrimStart(w[1..]);
    }
  }

  // ---------------------------------------------------------------- lines in documents

  /** Whole lines, each with its line feed. */
  predicate WholeLines(s: string) {
    s == [] || s[|s| - 1] == '\n'
  }

  lemma {:induction false} FindFirst(c: char, s: string, k: string)
    requires Find(c, s).Some?
    ensures Find(c, s + k) == Find(c, s)
  {
    assert (s + k)[0] == s[0] && (s + k)[1..] == s[1..] + k;
    if s[0] != c {
      FindFirst(c, s[1..], k);
    }
  }

  lemma {:induction false} LastIsFound(c: char, s: string)
    requires s != [] && s[|s| - 1] == c
    ensures Find(c, s).Some?
  {
    if s[0] != c {
      assert s[1..][|s[1..]| - 1] == c;
      LastIsFound(c, s[1..]);
    }
  }

  lemma {:induction false} LinesAppend(s: string, k: string)
    requires WholeLines(s)
    ensures Lines(s + k) == Lines(s) + Lines(k)
    decreases |s|
  {
    if s == [] {
      assert s + k == k;
    } else {
      LastIsFound('\n', s);
      FindFirst('\n', s, k);
      var end := Find('\n', s).value;
      var rest := s[end + 1..];
      LinesStep(s, end);
      assert (s + k)[..end] == s[..end] && (s + k)[end + 1..] == rest + k;
      LinesStep(s + k, end);
      assert rest != [] ==> rest[|rest| - 1] == '\n';
      LinesAppend(rest, k);
      LineThenTwo(StripReturn(s[..end]), Lines(rest), Lines(k));
    }
  }

  lemma LinesStep(s: string, end: nat)
    requires Find('\n', s) == Some(end)
    ensures Lines(s) == [StripReturn(s[..end])] + Lines(s[end + 1..])
  {
  }

  lemma LineThenTwo(line: string, a: seq<string>, b: seq<string>)
    ensures [line] + (a + b) == [line] + a + b
  {
  }

  /** The line endings: a line feed, or a carriage return and a line feed. */
  lemma OneLineFirst(line: string, k: string)
    requires !Has('\n', line) && (line != [] ==> line[|line| - 1] != '\r')
    ensures Lines(line + ("\n" + k)) == [line] + Lines(k)
    ensures Lines(line + ("\r\n" + k)) == [line] + Lines(k)
  {
    LineFirst(line, line, k);
    ReturnBehind(line, k);
    LineFirst(line + "\r", line, k);
  }

  lemma ReturnBehind(line: string, k: string)
    requires !Has('\n', line)
    ensures !Has('\n', line + "\r") && StripReturn(line + "\r") == line
    ensures line + "\r" + ("\n" + k) == line + ("\r\n" + k)
  {
    HasAppend('\n', line, "\r");
    assert "\r" + ("\n" + k) == "\r\n" + k;
  }

  lemma LineFirst(line: string, stripped: string, k: string)
    requires !Has('\n', line) && StripReturn(line) == stripped
    ensures Lines(line + ("\n" + k)) == [stripped] + Lines(k)
  {
    var s := line + ("\n" + k);
    FindIn('\n', line, "\n" + k);
    assert s[..|line|] == line && s[|line| + 1..] == k;
  }

  lemma LastLine(line: string)
    requires !Has('\n', line) && line != []
    ensures Lines(line) == [line]
  {
    FindIn('\n', line, "");
    assert line + "" == line;
  }

  /** A line of a document gives its statements in its place, whatever is around it, and also as the last one without a
      line feed. */
  lemma LineInDocument(before: string, line: string, after: string)
    requires WholeLines(before) && line != [] && !Has('\n', line) && line[|line| - 1] != '\r'
    ensures ParseNTriples(before + (line + ("\n" + after)))
         == ParseNTriples(before) + (LineStatements(line) + ParseNTriples(after))
    ensures ParseNTriples(before + (line + ("\r\n" + after)))
         == ParseNTriples(before) + (LineStatements(line) + ParseNTriples(after))
    ensures ParseNTriples(before + line) == ParseNTriples(before) + LineStatements(line)
  {
    LinesAppend(before, line + ("\n" + after));
    LinesAppend(before, line + ("\r\n" + after));
    LinesAppend(before, line);
    OneLineFirst(line, after);
    LastLine(line);
    FlatMapAppend(LineStatements, Lines(before), [line] + Lines(after));
    FlatMapAppend(LineStatements, Lines(before), [line]);
    FlatMapAppend(LineStatements, [line], Lines(after));
    FlatMapOne(LineStatements, line);
  }

  lemma PlainOnOneLine(s: string)
    requires forall i | 0 <= i < |s| :: IsPlainChar(s[i])
    ensures !Has('\n', s)
  {
  }

  lemma TagOnOneLine(s: string)
    requires IsTag(s)
    ensures !Has('\n', s)
  {
  }

  lemma LiteralOnOneLine(v: string, suffix: string)
    requires !Has('\n', v) && !Has('\n', suffix)
    ensures !Has('\n', "\"" + (v + ("\"" + suffix)))
  {
    HasAppend('\n', "\"", suffix);
    HasAppend('\n', v, "\"" + suffix);
    HasAppend('\n', "\"", v + ("\"" + suffix));
  }

  lemma SuffixOnOneLine(n: Node)
    requires IsNode(n) && IsLiteralNode(n)
    ensures !Has('\n', Suffix(n))
  {
    match n
    case Plain(_) =>
    case Typed(_, d) =>
      HasAppend('\n', d, ">");
      HasAppend('\n', "^^<", d + ">");
    case Abbreviated(_, d) =>
      PlainOnOneLine(d);
      HasAppend('\n', "^^", d);
    case Tagged(_, tag) =>
      TagOnOneLine(tag);
      HasAppend('\n', "@", tag);
  }

  lemma NodeOnOneLine(n: Node)
    requires IsNode(n)
    ensures !Has('\n', Text(n))
  {
    match n
    case Iri(address) => DelimitedHas('\n', address);
    case BlankNode(name) =>
      PlainOnOneLine(name);
      HasAppend('\n', "_:", name);
    case QuotedTriple(_) =>
    case Escaped(value, more) =>
      ValueHas(value);
      ValueHas(more);
      HasAppend('\n', more, "\"");
      HasAppend('\n', "\\\"", more + "\"");
      HasAppend('\n', value, "\\\"" + (more + "\""));
      HasAppend('\n', "\"", value + ("\\\"" + (more + "\"")));
    case _ =>
      ValueHas(n.value);
      SuffixOnOneLine(n);
      TextOfLiteral(n);
      LiteralOnOneLine(n.value, Suffix(n));
  }

  lemma VerbOnOneLine(p: Verb)
    requires IsVerb(p)
    ensures !Has('\n', VerbText(p))
  {
    if p.Address? {
      DelimitedHas('\n', p.address);
    }
  }

  lemma GapOnOneLine(w: string)
    requires Gap(w)
    ensures !Has('\n', w)
  {
  }

  lemma DottedOnOneLine(before: string, s: Node, w: string, p: Verb, w': string, o: Node, dot: string, after: string)
    requires IsNode(s) && IsVerb(p) && IsNode(o) && Gap(before) && Gap(w) && Gap(w') && Gap(dot) && Gap(after)
    ensures var line := DottedText(before, s, w, p, w', o, dot, after);
      line != [] && !Has('\n', line) && line[|line| - 1] != '\r'
  {
    var a, b, c := Text(s), VerbText(p), Text(o);
    NodeOnOneLine(s);
    VerbOnOneLine(p);
    NodeOnOneLine(o);
    GapOnOneLine(before);
    GapOnOneLine(w);
    GapOnOneLine(w');
    GapOnOneLine(dot);
    GapOnOneLine(after);
    HasAppend('\n', w', c);
    HasAppend('\n', b, w' + c);
    HasAppend('\n', w, b + (w' + c));
    HasAppend('\n', a, w + (b + (w' + c)));
    var text := Spaced(s, w, p, w', o);
    HasAppend('\n', dot, ".");
    HasAppend('\n', text, dot + ".");
    HasAppend('\n', text + (dot + "."), after);
    HasAppend('\n', before, text + (dot + ".") + after);
    DottedLast(before, text, dot, after);
  }

  lemma DottedLast(before: string, text: string, dot: string, after: string)
    requires Gap(after)
    ensures var line := before + ((text + (dot + ".")) + after); line != [] && line[|line| - 1] != '\r'
  {
    var line := before + ((text + (dot + ".")) + after);
    assert line[|line| - 1] == if after == [] then '.' else after[|after| - 1];
  }

  /** A statement anywhere in a document adds itself, and nothing else. */
  lemma StatementInDocument(front: string, before: string, s: Node, w: string, p: Verb, w': string, o: Node,
                            dot: string, after: string, back: string)
    requires WholeLines(front) && IsNode(s) && IsVerb(p) && IsNode(o)
    requires Gap(before) && Gap(w) && w != [] && Gap(w') && w' != [] && Gap(dot) && Gap(after)
    ensures var line, st := DottedText(before, s, w, p, w', o, dot, after),
                            Statement(Meaning(s), VerbMeaning(p), Meaning(o));
      && ParseNTriples(front + (line + ("\n" + back))) == ParseNTriples(front) + ([st] + ParseNTriples(back))
      && ParseNTriples(front + (line + ("\r\n" + back))) == ParseNTriples(front) + ([st] + ParseNTriples(back))
      && ParseNTriples(front + line) == ParseNTriples(front) + [st]
  {
    var line := DottedText(before, s, w, p, w', o, dot, after);
    LineRead(before, s, w, p, w', o, dot, after);
    DottedOnOneLine(before, s, w, p, w', o, dot, after);
    LineInDocument(front, line, back);
  }

  /** A comment adds nothing to any document. */
  lemma CommentInDocument(front: string, before: string, text: string, back: string)
    requires WholeLines(front) && Gap(before) && !Has('\n', text) && (text != [] ==> text[|text| - 1] != '\r')
    ensures ParseNTriples(front + (before + ("#" + text) + ("\n" + back))) == ParseNTriples(front) + ParseNTriples(back)
  {
    var line := before + ("#" + text);
    CommentRead(before, text);
    GapOnOneLine(before);
    HasAppend('\n', "#", text);
    HasAppend('\n', before, "#" + text);
    assert line[|line| - 1] == if text == [] then '#' else text[|text| - 1];
    LineInDocument(front, line, back);
  }

  /** Neither does a line without a dot at its end. */
  lemma UndottedInDocument(front: string, text: string, after: string, back: string)
    requires WholeLines(front) && text != [] && Trimmed(text) && text[|text| - 1] != '.' && Gap(after)
        && !Has('\n', text)
    ensures ParseNTriples(front + (text + after + ("\n" + back))) == ParseNTriples(front) + ParseNTriples(back)
  {
    UndottedRead(text, after);
    GapOnOneLine(after);
    HasAppend('\n', text, after);
    NoReturnLast(text, after);
    LineInDocument(front, text + after, back);
  }

  lemma NoReturnLast(text: string, after: string)
    requires text != [] && Trimmed(text) && Gap(after)
    ensures var line := text + after; line != [] && line[|line| - 1] != '\r'
  {
    var line := text + after;
    assert line[|line| - 1] == if after == [] then text[|text| - 1] else after[|after| - 1];
  }

  // ---------------------------------------------------------------- documents of one line

  lemma OneStatement(s: Node, p: Verb, o: Node, line: string)
    requires IsNode(s) && IsVerb(p) && IsNode(o)
    requires line == Text(s) + " " + VerbText(p) + " " + Text(o) + " ."
    ensures ParseNTriples(line) == [Statement(Meaning(s), VerbMeaning(p), Meaning(o))]
  {
    OneStatementText(Text(s), VerbText(p), Text(o));
    assert Lines("") == [];
    StatementInDocument("", "", s, " ", p, " ", o, " ", "", "");
  }

  lemma OneStatementText(a: string, b: string, c: string)
    ensures "" + ("" + ((a + (" " + (b + (" " + c))) + (" " + ".")) + "")) == a + " " + b + " " + c + " ."
  {
  }

  /** The literals of N-Triples, a plain statement of identifiers, and the type of a thing. */
  lemma LiteralDocuments(s: string, p: string, o: string, v: string, d: string, tag: string)
    requires LoadableUri(s) && LoadableUri(p) && LoadableUri(o) && IsValue(v) && !Has('>', d) && !Has('\n', d)
    requires IsTag(tag)
    ensures ParseNTriples("<" + s + ">" + " " + ("<" + p + ">") + " " + ("<" + o + ">") + " .") == [Statement(s, p, o)]
    ensures ParseNTriples("<" + s + ">" + " " + ("<" + p + ">") + " " + ("\"" + (v + ("\"" + ""))) + " .")
         == [Statement(s, p, v)]
    ensures ParseNTriples("<" + s + ">" + " " + ("<" + p + ">") + " " + ("\"" + (v + ("\"" + ("^^<" + (d + ">")))))
        + " .")
         == [Statement(s, p, v)]
    ensures ParseNTriples("<" + s + ">" + " " + ("<" + p + ">") + " " + ("\"" + (v + ("\"" + ("@" + tag)))) + " .")
         == [Statement(s, p, v + ("@" + tag))]
    ensures ParseNTriples("<" + s + ">" + " " + "a" + " " + ("<" + o + ">") + " .")
         == [Statement(s, "http://www.w3.org/1999/02/22-rdf-syntax-ns#type", o)]
  {
    var a, b, c := Text(Iri(s)), VerbText(Address(p)), Text(Iri(o));
    OneStatement(Iri(s), Address(p), Iri(o), a + " " + b + " " + c + " .");
    OneStatement(Iri(s), Address(p), Plain(v), a + " " + b + " " + Text(Plain(v)) + " .");
    OneStatement(Iri(s), Address(p), Typed(v, d), a + " " + b + " " + Text(Typed(v, d)) + " .");
    OneStatement(Iri(s), Address(p), Tagged(v, tag), a + " " + b + " " + Text(Tagged(v, tag)) + " .");
    OneStatement(Iri(s), TypeVerb, Iri(o), a + " " + "a" + " " + c + " .");
  }

  // ---------------------------------------------------------------- the text that is written

  /** A statement is written on a line of its own, with a web address as an identifier and any other object as a
      literal; quoted triples stand as they are. */
  lemma WrittenLines(s: string, p: string, o: string, rest: seq<Statement>)
    requires !HasPrefix(s, "<<")
    ensures HasPrefix(o, "http://") || HasPrefix(o, "https://") ==>
      WriteNTriples([Statement(s, p, o)] + rest) == ("<" + s + "> <" + p + "> <" + o + "> .\n") + WriteNTriples(rest)
    ensures !HasPrefix(o, "http://") && !HasPrefix(o, "https://") && !HasPrefix(o, "<<") ==>
      WriteNTriples([Statement(s, p, o)] + rest) == ("<" + s + "> <" + p + "> \"" + o + "\" .\n") + WriteNTriples(rest)
    ensures HasPrefix(o, "<<") ==>
      WriteNTriples([Statement(s, p, o)] + rest) == ("<" + s + "> <" + p + "> " + o + " .\n") + WriteNTriples(rest)
  {
    var st := Statement(s, p, o);
    assert ([st] + rest)[0] == st && ([st] + rest)[1..] == rest;
    assert HasPrefix(o, "<<") ==> o[0] == '<';
    assert HasPrefix(o, "http://") || HasPrefix(o, "https://") ==> o[0] == 'h';
    WrittenText3(s, p, WriteObject(o));
    ObjectTexts(s, p, o);
  }

  lemma WrittenText3(s: string, p: string, o: string)
    ensures Bracketed(s) + " " + Bracketed(p) + " " + o + " .\n" == "<" + s + "> <" + p + "> " + o + " .\n"
  {
    assert "<" + s + ">" + " " + ("<" + p + ">") + " " == "<" + s + "> <" + p + "> ";
  }

  lemma ObjectTexts(s: string, p: string, o: string)
    ensures "<" + s + "> <" + p + "> " + ("<" + o + ">") + " .\n" == "<" + s + "> <" + p + "> <" + o + "> .\n"
    ensures "<" + s + "> <" + p + "> " + ("\"" + o + "\"") + " .\n" == "<" + s + "> <" + p + "> \"" + o + "\" .\n"
  {
    var front := "<" + s + "> <" + p;
    assert front + "> " + ("<" + o + ">") == front + "> <" + o + ">";
    assert front + "> " + ("\"" + o + "\"") == front + "> \"" + o + "\"";
  }
}
