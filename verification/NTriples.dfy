/** Reading and writing N-Triples (section 2 of RDF 1.1 N-Triples). */
module NTriples {
  import opened Options
  import opened Bags
  import opened TermText
  import opened QuotedTriples
  import opened TermStore
  import opened PatternJoin
  import opened Sequences

  // ---------------------------------------------------------------- the line scanner

  datatype LineScan = LineScan(parts: seq<string>, current: string, inUri: bool, inLiteral: bool, escaped: bool,
                               depth: nat)

  const LINE_START := LineScan([], "", false, false, false, 0)

  function PushPart(st: LineScan): LineScan {
    st.(parts := st.parts + [Trim(st.current)], current := "")
  }

  function PushPartAtTop(st: LineScan): LineScan {
    if st.depth == 0 then PushPart(st) else st
  }

  predicate IsLanguageChar(c: char) {
    'a' <= c <= 'z' || 'A' <= c <= 'Z' || '0' <= c <= '9' || c == '-'
  }

  function LanguageLength(s: string): (n: nat)
    ensures n <= |s|
  {
    if s != [] && IsLanguageChar(s[0]) then 1 + LanguageLength(s[1..]) else 0
  }

  /** The characters of a datatype: up to a closing bracket, or up to white space. */
  function DatatypeLength(s: string): (n: nat)
    ensures n <= |s|
  {
    if s == [] then 0
    else if s[0] == '<' then
      var close := Find('>', s[1..]);
      if close.Some? then close.value + 2 else |s|
    else if IsBlank(s[0]) then 0
    else 1 + DatatypeLength(s[1..])
  }

  /** What belongs to a literal behind its closing quote. */
  function SuffixLength(s: string): (n: nat)
    ensures n <= |s|
  {
    if s == [] then 0
    else if s[0] == '^' then (if |s| > 1 && s[1] == '^' then 2 + DatatypeLength(s[2..]) else 1)
    else if s[0] == '@' then 1 + LanguageLength(s[1..])
    else 0
  }

  /** One turn of the loop: the next state, and the number of characters consumed. */
  function Advance(st: LineScan, s: string): (r: (LineScan, nat))
    requires s != []
    ensures 1 <= r.1 <= |s|
  {
    var c := s[0];
    var doubled := |s| > 1 && s[1] == c;
    var one := st.(current := st.current + [c]);
    var two := st.(current := st.current + [c, c]);
    if c == '<' && !st.inLiteral && !st.escaped then
      if doubled && (!st.inUri || st.depth > 0) then (two.(depth := st.depth + 1), 2)
      else if st.depth > 0 then (one, 1)
      else (one.(inUri := true), 1)
    else if c == '>' && !st.inLiteral && !st.escaped then
      if st.depth > 0 && !st.inUri then
        if doubled then (PushPartAtTop(two.(depth := st.depth - 1)), 2) else (one, 1)
      else if st.inUri then (PushPartAtTop(one.(inUri := false)), 1)
      else (one, 1)
    else if c == '"' && !st.inUri && !st.escaped then
      if !st.inLiteral then (one.(inLiteral := true), 1)
      else
        var n := SuffixLength(s[1..]);
        (PushPartAtTop(one.(inLiteral := false, current := one.current + s[1..1 + n])), 1 + n)
    else if c == '\\' && (st.inUri || st.inLiteral) && !st.escaped then (one.(escaped := true), 1)
    else if (c == ' ' || c == '\t') && !st.inUri && !st.inLiteral && !st.escaped && st.depth == 0 then
      (if st.current != [] then PushPart(st) else st, 1)
    else (one.(escaped := false), 1)
  }

  function ScanLine(st: LineScan, s: string): LineScan
    decreases |s|
  {
    if s == [] then st else
    var (next, n) := Advance(st, s);
    ScanLine(next, s[n..])
  }

  function FinishLine(st: LineScan): seq<string> {
    if st.current != [] then st.parts + [Trim(st.current)] else st.parts
  }

  /** What the predicate `a` stands for. */
  const RDF_TYPE := "http://www.w3.org/1999/02/22-rdf-syntax-ns#type"

  /** A part without brackets or quotes; a language tag stays glued to the value. */
  function CleanTerm(part: string): string {
    var t := Trim(part);
    if LooksQuoted(t) then t
    else if |t| >= 2 && t[0] == '<' && t[|t| - 1] == '>' then t[1..|t| - 1]
    else if t != [] && t[0] == '"' then
      var close := Find('"', t[1..]);
      if close.None? then t else
      var value, rest := t[1..close.value + 1], t[close.value + 2..];
      if rest == [] || HasPrefix(rest, "^^") then value
      else if HasPrefix(rest, "@") then value + rest
      else t
    else t
  }

  function ParseParts(parts: seq<string>): Option<Statement> {
    if |parts| != 3 then None
    else
      var pred := if parts[1] == "a" then RDF_TYPE else CleanTerm(parts[1]);
      Some(Statement(CleanTerm(parts[0]), pred, CleanTerm(parts[2])))
  }

  function ParseLine(line: string): Option<Statement> {
    ParseParts(FinishLine(ScanLine(LINE_START, line)))
  }

  // ---------------------------------------------------------------- documents

  function StripReturn(line: string): string {
    if line != [] && line[|line| - 1] == '\r' then line[..|line| - 1] else line
  }

  /** The lines of a text; a carriage return before the line feed belongs to the line ending. */
  function Lines(s: string): seq<string>
    decreases |s|
  {
    if s == [] then [] else
    var end := Find('\n', s);
    if end.None? then [s] else [StripReturn(s[..end.value])] + Lines(s[end.value + 1..])
  }

  /** The statements of one line: none for blanks, comments and lines without the final dot. */
  function LineStatements(line: string): seq<Statement> {
    var l := Trim(line);
    if l == [] || l[0] == '#' || l[|l| - 1] != '.' then [] else
    var st := ParseLine(Trim(l[..|l| - 1]));
    if st.Some? then [st.value] else []
  }

  function ParseNTriples(text: string): seq<Statement> {
    FlatMap(LineStatements, Lines(text))
  }

  /** The statement as it is decoded again after loading. */
  function Stored(st: Statement): Statement {
    Statement(Normal(st.subj), Normal(st.pred), Normal(st.obj))
  }

  function Load(text: string): set<Statement> {
    set st | st in ParseNTriples(text) :: Stored(st)
  }

  // ---------------------------------------------------------------- writing

  function Bracketed(s: string): string {
    "<" + s + ">"
  }

  function WriteSubject(s: string): string {
    if HasPrefix(s, "<<") then s else Bracketed(s)
  }

  predicate IsWebAddress(s: string) {
    HasPrefix(s, "http://") || HasPrefix(s, "https://")
  }

  function WriteObject(o: string): string {
    if HasPrefix(o, "<<") then o else if IsWebAddress(o) then Bracketed(o) else "\"" + o + "\""
  }

  function WriteStatement(st: Statement): string {
    WriteSubject(st.subj) + " " + Bracketed(st.pred) + " " + WriteObject(st.obj) + " .\n"
  }

  /** The document for the statements of the store, in the order of the store. */
  function WriteNTriples(sts: seq<Statement>): string {
    FlatMap(WriteStatement, sts)
  }

  // ---------------------------------------------------------------- the loops

  /** Consumes the characters up to the first closing bracket, or all of them. */
  method ReadBracketed(s: string) returns (n: nat)
    ensures n == var close := Find('>', s); if close.Some? then close.value + 1 else |s|
  {
    n := 0;
    while n < |s|
      invariant 0 <= n <= |s|
      invariant Find('>', s) == var rest := Find('>', s[n..]); if rest.None? then None else Some(rest.value + n)
    {
      n := n + 1;
      assert s[n - 1..][1..] == s[n..];
      if s[n - 1] == '>' {
        return;
      }
    }
  }

  /** Consumes a datatype: up to the first closing bracket, or up to white space. */
  method ReadDatatype(s: string) returns (n: nat)
    ensures n == DatatypeLength(s)
  {
    n := 0;
    while n < |s|
      invariant 0 <= n <= |s|
      invariant DatatypeLength(s) == n + DatatypeLength(s[n..])
    {
      assert s[n..][1..] == s[n + 1..];
      if s[n] == '<' {
        var inside := ReadBracketed(s[n + 1..]);
        n := n + 1 + inside;
        return;
      }
      if IsBlank(s[n]) {
        return;
      }
      n := n + 1;
    }
  }

  /** Consumes a datatype or language tag behind a literal. */
  method ReadSuffix(s: string) returns (n: nat)
    ensures n == SuffixLength(s)
  {
    n := 0;
    if s == [] {
      return;
    }
    if s[0] == '^' {
      n := 1;
      if |s| > 1 && s[1] == '^' {
        n := ReadDatatype(s[2..]);
        n := n + 2;
      }
    } else if s[0] == '@' {
      n := 1;
      while n < |s| && IsLanguageChar(s[n])
        invariant 1 <= n <= |s|
        invariant SuffixLength(s) == n + LanguageLength(s[n..])
      {
        assert s[n..][1..] == s[n + 1..];
        n := n + 1;
      }
    }
  }

  /** One turn of the loop over the characters that are left: the next state, and how many of them are used up. */
  method ReadCharacter(st: LineScan, s: string) returns (next: LineScan, n: nat)
    requires s != []
    ensures (next, n) == Advance(st, s)
  {
    var c := s[0];
    var doubled := |s| > 1 && s[1] == c;
    next, n := st.(current := st.current + [c]), 1;
    if c == '<' && !st.inLiteral && !st.escaped {
      if doubled && !st.inUri {
        next, n := st.(current := st.current + [c, c], depth := st.depth + 1), 2;
      } else if st.depth > 0 {
        if doubled {
          next, n := st.(current := st.current + [c, c], depth := st.depth + 1), 2;
        }
      } else {
        next := next.(inUri := true);
      }
    } else if c == '>' && !st.inLiteral && !st.escaped {
      if st.depth > 0 && !st.inUri {
        if doubled {
          next, n := PushPartAtTop(st.(current := st.current + [c, c], depth := st.depth - 1)), 2;
        }
      } else if st.inUri {
        next := PushPartAtTop(next.(inUri := false));
      }
    } else if c == '"' && !st.inUri && !st.escaped {
      next := next.(inLiteral := !st.inLiteral);
      if st.inLiteral {
        next, n := ReadLiteralEnd(next, s);
      }
    } else if c == '\\' && (st.inUri || st.inLiteral) && !st.escaped {
      next := next.(escaped := true);
    } else if (c == ' ' || c == '\t') && !st.inUri && !st.inLiteral && !st.escaped && st.depth == 0 {
      next := if st.current != [] then PushPart(st) else st;
    } else {
      next := next.(escaped := false);
    }
  }

  /** The closing quote has been read; its datatype or language tag belongs to the same part. */
  method ReadLiteralEnd(st: LineScan, s: string) returns (next: LineScan, n: nat)
    requires s != []
    ensures n == 1 + SuffixLength(s[1..])
    ensures next == PushPartAtTop(st.(current := st.current + s[1..n]))
  {
    var suffix := ReadSuffix(s[1..]);
    n := 1 + suffix;
    next := PushPartAtTop(st.(current := st.current + s[1..n]));
  }

  lemma ScanStep(st: LineScan, line: string, i: nat, next: LineScan, n: nat)
    requires i < |line| && (next, n) == Advance(st, line[i..])
    ensures i + n <= |line| && ScanLine(st, line[i..]) == ScanLine(next, line[i + n..])
  {
    assert line[i..][n..] == line[i + n..];
  }

  /** One turn at position `i` of the line. */
  method ReadOn(st: LineScan, line: string, i: nat) returns (next: LineScan, j: nat)
    requires i < |line|
    ensures i < j <= |line| && ScanLine(st, line[i..]) == ScanLine(next, line[j..])
  {
    var n;
    next, n := ReadCharacter(st, line[i..]);
    ScanStep(st, line, i, next, n);
    j := i + n;
  }

  method ParseNTriplesLine(line: string) returns (r: Option<Statement>)
    ensures r == ParseLine(line)
  {
    var st := LINE_START;
    var i := 0;
    assert line[0..] == line;
    while i < |line|
      invariant i <= |line|
      invariant ScanLine(LINE_START, line) == ScanLine(st, line[i..])
      decreases |line| - i
    {
      st, i := ReadOn(st, line, i);
    }
    assert line[i..] == [];
    r := ParseParts(FinishLine(st));
  }

  /** Line by line: blanks, comments and lines without a final dot are passed over. */
  method ParseDocument(text: string) returns (sts: seq<Statement>)
    ensures sts == ParseNTriples(text)
  {
    sts := [];
    var lines := Lines(text);
    for i := 0 to |lines|
      invariant sts == FlatMap(LineStatements, lines[..i])
    {
      FlatMapStep(LineStatements, lines, i);
      var line := Trim(lines[i]);
      if line == [] || line[0] == '#' {
        continue;
      }
      if line[|line| - 1] != '.' {
        continue;
      }
      var st := ParseNTriplesLine(Trim(line[..|line| - 1]));
      if st.Some? {
        sts := sts + [st.value];
      }
    }
    TakeAll(lines);
  }
}
