/** Quoted triples as texts: the scanner that splits `s p o` at the top level, and its inverse. */
module QuotedTriples {
  import opened TermText
  import Sequences

  // ---------------------------------------------------------------- the scanner

  datatype Scan = Scan(parts: seq<string>, current: string, depth: nat, inUri: bool, inLiteral: bool, escaped: bool)

  const START := Scan([], "", 0, false, false, false)

  /** The state after one character. */
  function Step(st: Scan, c: char): Scan {
    var pushed := st.current + [c];
    if st.escaped then st.(current := pushed, escaped := false)
    else if c == '\\' && st.inLiteral then st.(current := pushed, escaped := true)
    else if c == '"' && !st.inUri then st.(current := pushed, inLiteral := !st.inLiteral)
    else if c == '<' && !st.inLiteral then
      if HasSuffix(pushed, "<<") then st.(current := pushed, depth := st.depth + 1)
      else if st.depth == 0 then st.(current := pushed, inUri := true)
      else st.(current := pushed)
    else if c == '>' && !st.inLiteral then
      if st.inUri then st.(current := pushed, inUri := false)
      else if HasSuffix(pushed, ">>") && st.depth > 0 then st.(current := pushed, depth := st.depth - 1)
      else st.(current := pushed)
    else if IsSpace(c) && st.depth == 0 && !st.inUri && !st.inLiteral then
      var part := Trim(st.current);
      if part != [] then st.(parts := st.parts + [part], current := "") else st
    else st.(current := pushed)
  }

  function Run(st: Scan, s: string): Scan
    decreases |s|
  {
    if s == [] then st else Run(Step(st, s[0]), s[1..])
  }

  function Finish(st: Scan): seq<string> {
    var last := Trim(st.current);
    if last != [] then st.parts + [last] else st.parts
  }

  function Join(parts: seq<string>): string {
    if parts == [] then "" else if |parts| == 1 then parts[0] else parts[0] + " " + Join(parts[1..])
  }

  datatype Content = Content(subj: string, pred: string, obj: string)

  function PartAt(parts: seq<string>, i: nat): string {
    if i < |parts| then parts[i] else ""
  }

  /** Everything behind the second part belongs to the object. */
  function ContentOf(parts: seq<string>): Content {
    if |parts| >= 3 then Content(parts[0], parts[1], Join(parts[2..]))
    else Content(PartAt(parts, 0), PartAt(parts, 1), "")
  }

  function Split(content: string): Content {
    ContentOf(Finish(Run(START, content)))
  }

  lemma RunStep(st: Scan, content: string, i: nat)
    requires i < |content|
    ensures Run(st, content[i..]) == Run(Step(st, content[i]), content[i + 1..])
  {
    assert content[i..][1..] == content[i + 1..];
  }

  method SplitQuotedTripleContent(content: string) returns (r: Content)
    ensures r == Split(content)
  {
    var parts: seq<string>, current := [], "";
    var depth, inUri, inLiteral, escaped := 0, false, false, false;
    assert content[0..] == content;
    for i := 0 to |content|
      invariant depth >= 0
      invariant Run(START, content) == Run(Scan(parts, current, depth, inUri, inLiteral, escaped), content[i..])
    {
      var c := content[i];
      RunStep(Scan(parts, current, depth, inUri, inLiteral, escaped), content, i);
      if escaped {
        current, escaped := current + [c], false;
        continue;
      }
      if c == '\\' && inLiteral {
        current, escaped := current + [c], true;
      } else if c == '"' && !inUri {
        inLiteral, current := !inLiteral, current + [c];
      } else if c == '<' && !inLiteral {
        current := current + [c];
        if HasSuffix(current, "<<") {
          depth := depth + 1;
        } else if depth == 0 {
          inUri := true;
        }
      } else if c == '>' && !inLiteral {
        current := current + [c];
        if inUri {
          inUri := false;
        } else if HasSuffix(current, ">>") && depth > 0 {
          depth := depth - 1;
        }
      } else if IsSpace(c) && depth == 0 && !inUri && !inLiteral {
        var part := Trim(current);
        if part != [] {
          parts, current := parts + [part], "";
        }
      } else {
        current := current + [c];
      }
    }
    var last := Trim(current);
    if last != [] {
      parts := parts + [last];
    }
    r := ContentOf(parts);
  }

  // ---------------------------------------------------------------- parts are shorter than the content

  /** The characters the parts account for, one separator included for each. */
  function Weight(parts: seq<string>): nat {
    if parts == [] then 0 else Weight(parts[..|parts| - 1]) + |parts[|parts| - 1]| + 1
  }

  lemma {:induction false} RunWeight(st: Scan, s: string)
    ensures Weight(Run(st, s).parts) + |Run(st, s).current| <= Weight(st.parts) + |st.current| + |s|
    decreases |s|
  {
    if s != [] {
      RunWeight(Step(st, s[0]), s[1..]);
    }
  }

  lemma {:induction false} PartWeight(parts: seq<string>, i: nat)
    requires i < |parts|
    ensures |parts[i]| + 1 <= Weight(parts)
  {
    if i < |parts| - 1 {
      PartWeight(parts[..|parts| - 1], i);
    }
  }

  lemma JoinWeight(parts: seq<string>, from: nat)
    requires from < |parts|
    ensures |Join(parts[from..])| + 1 <= Weight(parts)
    decreases |parts| - from
  {
    WeightFrom(parts, from);
    JoinLength(parts[from..]);
  }

  lemma {:induction false} WeightFirst(parts: seq<string>)
    requires parts != []
    ensures Weight(parts) == |parts[0]| + 1 + Weight(parts[1..])
  {
    if |parts| > 1 {
      var n := |parts| - 1;
      WeightFirst(parts[..n]);
      assert parts[1..][..n - 1] == parts[..n][1..];
    } else {
      assert parts[..0] == [] && parts[1..] == [];
    }
  }

  lemma {:induction false} WeightFrom(parts: seq<string>, from: nat)
    requires from <= |parts|
    ensures Weight(parts[from..]) <= Weight(parts)
    decreases from
  {
    if from > 0 {
      WeightFirst(parts);
      WeightFrom(parts[1..], from - 1);
      assert parts[1..][from - 1..] == parts[from..];
    } else {
      assert parts[0..] == parts;
    }
  }

  lemma {:induction false} JoinLength(parts: seq<string>)
    requires parts != []
    ensures |Join(parts)| + 1 == Weight(parts)
  {
    WeightFirst(parts);
    if |parts| > 1 {
      JoinLength(parts[1..]);
    } else {
      assert parts[1..] == [];
    }
  }

  /** Every component of the split is at most as long as the content. */
  lemma SplitShortens(content: string)
    ensures var c := Split(content); |c.subj| <= |content| && |c.pred| <= |content| && |c.obj| <= |content|
  {
    var st := Run(START, content);
    var parts := Finish(st);
    RunWeight(START, content);
    assert Weight(parts) <= |content| + 1 by {
      assert st.parts + [Trim(st.current)] == parts ==> parts[..|parts| - 1] == st.parts;
    }
    if |parts| > 0 { PartWeight(parts, 0); }
    if |parts| > 1 { PartWeight(parts, 1); }
    if |parts| > 2 { JoinWeight(parts, 2); }
  }

  // ---------------------------------------------------------------- written terms

  /** A term as it is written: a token, a literal in quotes with what is attached to it, or a quoted triple of terms. */
  datatype Term =
    | Token(text: string)
    | Literal(body: string, suffix: string)
    | Quoted(subj: Term, pred: Term, obj: Term)

  predicate IsPlainChar(c: char) {
    !IsBlank(c) && c != '<' && c != '>' && c != '"' && c != '\\'
  }

  predicate IsPlainToken(text: string) {
    text != [] && forall i | 0 <= i < |text| :: IsPlainChar(text[i])
  }

  predicate IsUriChar(c: char) {
    c != '<' && c != '>' && c != '"'
  }

  /** An identifier in angle brackets; it may contain white space. */
  predicate IsBracketed(text: string) {
    && |text| > 2 && text[0] == '<' && text[|text| - 1] == '>'
    && forall i | 1 <= i < |text| - 1 :: IsUriChar(text[i])
  }

  predicate IsToken(text: string) {
    IsPlainToken(text) || IsBracketed(text)
  }

  /** What stands between the quotes of a literal: every quote in it is escaped, and nothing is left to escape. Angle
      brackets are left out: below the top level the scanner may still be looking for the end of an identifier. */
  predicate IsBody(escaped: bool, s: string)
    decreases |s|
  {
    if s == [] then !escaped
    else s[0] != '<' && s[0] != '>' && (escaped || s[0] != '"') && IsBody(!escaped && s[0] == '\\', s[1..])
  }

  /** A language tag or a datatype behind a literal. */
  predicate IsSuffix(s: string) {
    || (forall i | 0 <= i < |s| :: IsPlainChar(s[i]))
    || (|s| > 2 && s[0] == '^' && s[1] == '^' && IsBracketed(s[2..]))
  }

  predicate Written(t: Term) {
    match t
    case Token(text) => IsToken(text)
    case Literal(body, suffix) => IsBody(false, body) && IsSuffix(suffix)
    case Quoted(s, p, o) => Written(s) && Written(p) && Written(o)
  }

  /** The text the TRIPLE function builds. */
  function TripleText(s: string, p: string, o: string): string {
    "<< " + s + " " + p + " " + o + " >>"
  }

  function Render(t: Term): string {
    match t
    case Token(text) => text
    case Literal(body, suffix) => "\"" + (body + ("\"" + suffix))
    case Quoted(s, p, o) => TripleText(Render(s), Render(p), Render(o))
  }

  lemma {:induction false} RunAppend(st: Scan, a: string, b: string)
    ensures Run(st, a + b) == Run(Run(st, a), b)
    decreases |a|
  {
    if a == [] {
      assert a + b == b;
    } else {
      assert (a + b)[1..] == a[1..] + b;
      RunAppend(Step(st, a[0]), a[1..], b);
    }
  }

  /** The scanner is outside literals. */
  predicate Calm(st: Scan) {
    !st.inLiteral && !st.escaped
  }

  /** The state after reading `s` as part of the current text, with the flag for identifiers set to `uri`. */
  function Grown(st: Scan, s: string, uri: bool): Scan {
    st.(current := st.current + s, inUri := uri)
  }

  lemma {:induction false} PlainRun(st: Scan, s: string)
    requires Calm(st) && forall i | 0 <= i < |s| :: IsPlainChar(s[i])
    ensures Run(st, s) == Grown(st, s, st.inUri)
    decreases |s|
  {
    if s == [] {
      assert st.current + s == st.current;
    } else {
      var next := Step(st, s[0]);
      assert next == st.(current := st.current + [s[0]]);
      PlainRun(next, s[1..]);
      assert st.current + [s[0]] + s[1..] == st.current + s;
    }
  }

  /** Inside an identifier, or below the top level, white space does not split. */
  lemma {:induction false} UriRun(st: Scan, s: string)
    requires Calm(st) && (st.inUri || st.depth > 0) && forall i | 0 <= i < |s| :: IsUriChar(s[i])
    ensures Run(st, s) == Grown(st, s, st.inUri)
    decreases |s|
  {
    if s == [] {
      assert st.current + s == st.current;
    } else {
      var next := Step(st, s[0]);
      assert next == st.(current := st.current + [s[0]]);
      UriRun(next, s[1..]);
      assert st.current + [s[0]] + s[1..] == st.current + s;
    }
  }

  /** A text behind which a bracket stands alone. */
  predicate BracketStands(current: string) {
    current == [] || (current[|current| - 1] != '<' && current[|current| - 1] != '>')
  }

  lemma LoneBracket(current: string, c: char)
    requires BracketStands(current) && (c == '<' || c == '>')
    ensures !HasSuffix(current + [c], [c, c])
  {
    if |current| > 0 {
      assert (current + [c])[|current| - 1..][0] == current[|current| - 1];
    }
  }

  lemma GrownTwice(st: Scan, a: string, b: string, u: bool, v: bool)
    ensures Grown(Grown(st, a, u), b, v) == Grown(st, a + b, v)
  {
  }

  lemma OpenBracket(st: Scan)
    requires Calm(st) && BracketStands(st.current)
    ensures Run(st, "<") == Grown(st, "<", st.inUri || st.depth == 0)
  {
    LoneBracket(st.current, '<');
  }

  lemma CloseBracket(st: Scan)
    requires Calm(st) && BracketStands(st.current)
    ensures Run(st, ">") == Grown(st, ">", false)
  {
    LoneBracket(st.current, '>');
  }

  lemma TwoBrackets(current: string, c: char)
    ensures current + [c] + [c] == current + [c, c] && HasSuffix(current + [c] + [c], [c, c])
  {
  }

  lemma TwoSteps(st: Scan, c: char, d: char)
    ensures Run(st, [c, d]) == Step(Step(st, c), d)
  {
    assert [c, d][1..] == [d] && [d][1..] == [];
    assert Run(Step(st, c), [d]) == Run(Step(Step(st, c), d), []);
  }

  lemma OpenRun(st: Scan)
    requires Calm(st) && BracketStands(st.current)
    ensures Run(st, "<<") == Grown(st, "<<", st.inUri || st.depth == 0).(depth := st.depth + 1)
  {
    LoneBracket(st.current, '<');
    TwoBrackets(st.current, '<');
    TwoSteps(st, '<', '<');
  }

  lemma CloseRun(st: Scan)
    requires Calm(st) && st.depth > 0 && BracketStands(st.current)
    ensures Run(st, ">>") == Grown(st, ">>", false).(depth := st.depth - 1)
  {
    LoneBracket(st.current, '>');
    TwoBrackets(st.current, '>');
    TwoSteps(st, '>', '>');
  }

  lemma BlankRun(st: Scan)
    requires Calm(st) && st.depth > 0
    ensures Run(st, " ") == Grown(st, " ", st.inUri)
  {
  }

  lemma BracketedText(text: string)
    requires IsBracketed(text)
    ensures text == "<" + (text[1..|text| - 1] + ">")
  {
  }

  lemma BracketedRun(st: Scan, text: string)
    requires Calm(st) && BracketStands(st.current) && IsBracketed(text)
    ensures Run(st, text) == Grown(st, text, false)
  {
    var u := text[1..|text| - 1];
    BracketedText(text);
    OpenBracket(st);
    var one := Grown(st, "<", st.inUri || st.depth == 0);
    UriRun(one, u);
    var two := Grown(one, u, one.inUri);
    CloseBracket(two);
    RunAppend(st, "<", u + ">");
    RunAppend(one, u, ">");
    GrownTwice(one, u, ">", one.inUri, false);
    GrownTwice(st, "<", u + ">", one.inUri, false);
  }

  // Literals.

  /** Between the quotes nothing splits, and nothing but an unescaped quote ends the literal. */
  lemma {:induction false} BodyRun(st: Scan, s: string)
    requires st.inLiteral && !st.inUri && IsBody(st.escaped, s)
    ensures Run(st, s) == st.(current := st.current + s, escaped := false)
    decreases |s|
  {
    if s == [] {
      assert st.current + s == st.current;
    } else {
      var next := Step(st, s[0]);
      BodyRun(next, s[1..]);
      assert st.current + [s[0]] + s[1..] == st.current + s;
    }
  }

  /** Inside an identifier that has not been closed the quotes are characters like any others. */
  lemma {:induction false} UnclosedRun(st: Scan, s: string)
    requires Calm(st) && st.inUri && forall i | 0 <= i < |s| :: s[i] != '<' && s[i] != '>'
    ensures Run(st, s) == Grown(st, s, true)
    decreases |s|
  {
    if s == [] {
      assert st.current + s == st.current;
    } else {
      var next := Step(st, s[0]);
      assert next == st.(current := st.current + [s[0]]);
      UnclosedRun(next, s[1..]);
      assert st.current + [s[0]] + s[1..] == st.current + s;
    }
  }

  lemma {:induction false} BodyWithoutBrackets(escaped: bool, s: string)
    requires IsBody(escaped, s)
    ensures forall i | 0 <= i < |s| :: s[i] != '<' && s[i] != '>'
    decreases |s|
  {
    if s != [] {
      BodyWithoutBrackets(!escaped && s[0] == '\\', s[1..]);
    }
  }

  lemma QuoteRun(st: Scan)
    requires !st.escaped && !st.inUri
    ensures Run(st, "\"") == st.(current := st.current + "\"", inLiteral := !st.inLiteral)
  {
    assert "\""[1..] == "";
  }

  /** The quotes and what is between them, wherever the scanner is. */
  lemma QuotesRun(st: Scan, body: string)
    requires Calm(st) && IsBody(false, body)
    ensures Run(st, "\"" + (body + "\"")) == Grown(st, "\"" + (body + "\""), st.inUri)
  {
    if st.inUri {
      BodyWithoutBrackets(false, body);
      UnclosedRun(st, "\"" + (body + "\""));
    } else {
      var one := st.(current := st.current + "\"", inLiteral := true);
      var two := one.(current := one.current + body);
      QuoteRun(st);
      BodyRun(one, body);
      QuoteRun(two);
      ThreeRuns(st, "\"", body, "\"");
      assert two.current + "\"" == st.current + ("\"" + (body + "\""));
    }
  }

  lemma SuffixRun(st: Scan, suffix: string) returns (uri: bool)
    requires Calm(st) && BracketStands(st.current) && IsSuffix(suffix)
    ensures Run(st, suffix) == Grown(st, suffix, uri) && (!st.inUri ==> !uri)
  {
    if forall i | 0 <= i < |suffix| :: IsPlainChar(suffix[i]) {
      PlainRun(st, suffix);
      uri := st.inUri;
    } else {
      var iri := suffix[2..];
      assert suffix == "^^" + iri;
      PlainRun(st, "^^");
      var one := Grown(st, "^^", st.inUri);
      assert one.current[|one.current| - 1] == '^';
      BracketedRun(one, iri);
      RunAppend(st, "^^", iri);
      GrownTwice(st, "^^", iri, st.inUri, false);
      uri := false;
    }
  }

  lemma LiteralText(body: string, suffix: string)
    ensures "\"" + (body + ("\"" + suffix)) == "\"" + (body + "\"") + suffix
  {
  }

  lemma LiteralRun(st: Scan, body: string, suffix: string) returns (uri: bool)
    requires Calm(st) && IsBody(false, body) && IsSuffix(suffix)
    ensures Run(st, Render(Literal(body, suffix))) == Grown(st, Render(Literal(body, suffix)), uri)
    ensures !st.inUri ==> !uri
  {
    var front := "\"" + (body + "\"");
    LiteralText(body, suffix);
    QuotesRun(st, body);
    var one := Grown(st, front, st.inUri);
    assert one.current[|one.current| - 1] == '"';
    uri := SuffixRun(one, suffix);
    RunAppend(st, front, suffix);
    GrownTwice(st, front, suffix, st.inUri, uri);
  }

  lemma LiteralEnds(body: string, suffix: string)
    requires IsSuffix(suffix)
    ensures Trimmed(Render(Literal(body, suffix)))
  {
    var s := Render(Literal(body, suffix));
    LiteralText(body, suffix);
    if suffix != [] {
      assert s[|s| - 1] == suffix[|suffix| - 1];
    } else {
      assert s[|s| - 1] == '"';
    }
  }

  lemma RenderEnds(t: Term)
    requires Written(t)
    ensures Render(t) != [] && Trimmed(Render(t))
    ensures t.Token? && IsPlainToken(t.text) ==> BracketStands(Render(t))
  {
    if t.Literal? {
      LiteralEnds(t.body, t.suffix);
    }
  }

  /** A blank and the term behind it, below the top level. */
  lemma {:induction false} BlankThenTerm(st: Scan, t: Term) returns (uri: bool)
    requires Calm(st) && st.depth > 0 && Written(t)
    ensures Run(st, " " + Render(t)) == Grown(st, " " + Render(t), uri)
    decreases t, 2
  {
    RunAppend(st, " ", Render(t));
    BlankRun(st);
    var one := Grown(st, " ", st.inUri);
    assert BracketStands(one.current) by {
      assert one.current[|one.current| - 1] == ' ';
    }
    uri := NestedRun(one, t);
    GrownTwice(st, " ", Render(t), st.inUri, uri);
  }

  /** A term below the top level is read into the current text, and the depth comes back. */
  lemma {:induction false} NestedRun(st: Scan, t: Term) returns (uri: bool)
    requires Calm(st) && st.depth > 0 && BracketStands(st.current) && Written(t)
    ensures Run(st, Render(t)) == Grown(st, Render(t), uri)
    decreases t, 1
  {
    match t
    case Token(text) =>
      if IsPlainToken(text) {
        PlainRun(st, text);
        uri := st.inUri;
      } else {
        BracketedRun(st, text);
        uri := false;
      }
    case Literal(body, suffix) =>
      uri := LiteralRun(st, body, suffix);
    case Quoted(_, _, _) =>
      QuotedRun(st, t);
      uri := false;
  }

  /** A quoted triple is read at any depth. */
  lemma {:induction false} QuotedRun(st: Scan, t: Term)
    requires t.Quoted? && Calm(st) && BracketStands(st.current) && Written(t)
    ensures Run(st, Render(t)) == Grown(st, Render(t), false)
    decreases t, 0
  {
    var s, p, o := t.subj, t.pred, t.obj;
    var a, b, c := " " + Render(s), " " + Render(p), " " + Render(o);
    OpenRun(st);
    var inside := Grown(st, "<<", st.inUri || st.depth == 0).(depth := st.depth + 1);
    var u := BlankThenTerm(inside, s);
    var afterS := Grown(inside, a, u);
    var v := BlankThenTerm(afterS, p);
    var afterP := Grown(afterS, b, v);
    var w := BlankThenTerm(afterP, o);
    var afterO := Grown(afterP, c, w);
    BlankRun(afterO);
    var afterBlank := Grown(afterO, " ", w);
    CloseRun(afterBlank);
    QuotedPieces(st, a, b, c, inside, afterS, afterP, afterO, afterBlank);
    QuotedText(Render(s), Render(p), Render(o));
    QuotedCurrent(st.current, a, b, c);
  }

  lemma QuotedText(s: string, p: string, o: string)
    ensures TripleText(s, p, o) == "<<" + ((" " + s) + ((" " + p) + ((" " + o) + (" " + ">>"))))
  {
  }

  lemma QuotedCurrent(current: string, a: string, b: string, c: string)
    ensures current + "<<" + a + b + c + " " + ">>" == current + ("<<" + (a + (b + (c + (" " + ">>")))))
  {
  }

  lemma QuotedPieces(st: Scan, a: string, b: string, c: string, inside: Scan, afterS: Scan, afterP: Scan, afterO: Scan,
                     afterBlank: Scan)
    requires Run(st, "<<") == inside && Run(inside, a) == afterS && Run(afterS, b) == afterP && Run(afterP, c) == afterO
    requires Run(afterO, " ") == afterBlank
    ensures Run(st, "<<" + (a + (b + (c + (" " + ">>"))))) == Run(afterBlank, ">>")
  {
    RunAppend(st, "<<", a + (b + (c + (" " + ">>"))));
    RunAppend(inside, a, b + (c + (" " + ">>")));
    RunAppend(afterS, b, c + (" " + ">>"));
    RunAppend(afterP, c, " " + ">>");
    RunAppend(afterO, " ", ">>");
  }

  /** A term at the top level becomes the current text. */
  lemma TopRun(st: Scan, t: Term)
    requires Calm(st) && st.depth == 0 && !st.inUri && st.current == "" && Written(t)
    ensures Run(st, Render(t)) == Grown(st, Render(t), false)
  {
    match t
    case Token(text) =>
      if IsPlainToken(text) {
        PlainRun(st, text);
      } else {
        BracketedRun(st, text);
      }
    case Literal(body, suffix) =>
      var uri := LiteralRun(st, body, suffix);
    case Quoted(_, _, _) =>
      QuotedRun(st, t);
  }

  lemma PartRun(st: Scan, t: Term)
    requires Calm(st) && st.depth == 0 && !st.inUri && st.current == "" && Written(t)
    ensures Run(st, Render(t) + " ") == st.(parts := st.parts + [Render(t)])
  {
    var part := Render(t);
    Sequences.AppendNothing(part, st.current);
    TopRun(st, t);
    RenderEnds(t);
    RunAppend(st, part, " ");
    SeparatorRun(st, part);
  }

  lemma SeparatorRun(st: Scan, part: string)
    requires Calm(st) && st.depth == 0 && part != [] && Trimmed(part)
    ensures Run(st.(current := part, inUri := false), " ")
         == st.(parts := st.parts + [part], current := "", inUri := false)
  {
    TrimTrimmed(part);
    assert " "[1..] == "";
  }

  function ContentText(s: Term, p: Term, o: Term): string {
    Render(s) + " " + Render(p) + " " + Render(o)
  }

  /** The scanner splits at the top level only: the three terms come back whole, however deep they are nested. */
  lemma SplitRendered(s: Term, p: Term, o: Term)
    requires Written(s) && Written(p) && Written(o)
    ensures Split(ContentText(s, p, o)) == Content(Render(s), Render(p), Render(o))
  {
    ThreeParts(s, p, o);
    RenderEnds(o);
    TrimTrimmed(Render(o));
    ContentOfThree(Render(s), Render(p), Render(o));
  }

  lemma ContentOfThree(a: string, b: string, c: string)
    ensures ContentOf([a, b] + [c]) == Content(a, b, c)
  {
    assert ([a, b] + [c])[2..] == [c];
  }

  lemma ThreeParts(s: Term, p: Term, o: Term)
    requires Written(s) && Written(p) && Written(o)
    ensures Run(START, ContentText(s, p, o)) == START.(parts := [Render(s), Render(p)], current := Render(o))
  {
    var one := START.(parts := [Render(s)]);
    var two := START.(parts := [Render(s), Render(p)]);
    assert Run(START, Render(s) + " ") == one by {
      PartRun(START, s);
      assert [] + [Render(s)] == [Render(s)];
    }
    assert Run(one, Render(p) + " ") == two by {
      PartRun(one, p);
      assert [Render(s)] + [Render(p)] == [Render(s), Render(p)];
    }
    assert Run(two, Render(o)) == two.(current := Render(o)) by {
      TopRun(two, o);
      assert "" + Render(o) == Render(o);
    }
    ThreeRuns(START, Render(s) + " ", Render(p) + " ", Render(o));
    ContentPieces(Render(s), Render(p), Render(o));
  }

  lemma ThreeRuns(st: Scan, a: string, b: string, c: string)
    ensures Run(st, a + (b + c)) == Run(Run(Run(st, a), b), c)
  {
    RunAppend(st, a, b + c);
    RunAppend(Run(st, a), b, c);
  }

  lemma ContentPieces(s: string, p: string, o: string)
    ensures s + " " + p + " " + o == (s + " ") + ((p + " ") + o)
  {
  }

  // ---------------------------------------------------------------- brackets in literals

  predicate Without(s: string, cs: string) {
    forall i | 0 <= i < |s| :: s[i] !in cs
  }

  /** A literal that is never closed takes everything. */
  lemma {:induction false} OpenLiteralRun(st: Scan, s: string)
    requires st.inLiteral && !st.escaped && !st.inUri && Without(s, "\"\\")
    ensures Run(st, s) == st.(current := st.current + s)
    decreases |s|
  {
    if s == [] {
      assert st.current + s == st.current;
    } else {
      var next := Step(st, s[0]);
      assert next == st.(current := st.current + [s[0]]);
      OpenLiteralRun(next, s[1..]);
      assert st.current + [s[0]] + s[1..] == st.current + s;
    }
  }

  /** Behind the two brackets that open a quoted triple the scanner also waits for the end of an identifier. A closing
      bracket in a literal is taken for it, the closing quote for an opening one, and nothing is split any more: so with
      `<< a p "x>y" >> q r`. */
  lemma BracketInLiteral(x: string, y: string, rest: string)
    requires Without(x, "<>") && Without(y, "<>\"\\") && Without(rest, "\"\\")
    ensures var content := "<<" + (x + (">" + (y + ("\"" + rest))));
      Split(content) == Content(PartAt(Finish(START.(current := content)), 0), "", "")
  {
    var a := Grown(START, "<<", true).(depth := 1);
    var b := Grown(a, x, true);
    var c := Grown(b, ">", false);
    var d := Grown(c, y, false);
    var e := d.(current := d.current + "\"", inLiteral := true);
    OpenRun(START);
    UnclosedRun(a, x);
    EndOfUri(b);
    UriRun(c, y);
    QuoteRun(d);
    OpenLiteralRun(e, rest);
    RunAppend(d, "\"", rest);
    FiveRuns(START, "<<", x, ">", y, "\"" + rest);
    OnePart(e.(current := e.current + rest));
    BracketTexts(x, y, rest);
  }

  lemma EndOfUri(st: Scan)
    requires Calm(st) && st.inUri
    ensures Run(st, ">") == Grown(st, ">", false)
  {
    assert ">"[1..] == "";
  }

  lemma OnePart(st: Scan)
    requires st.parts == []
    ensures ContentOf(Finish(st)) == Content(PartAt(Finish(START.(current := st.current)), 0), "", "")
  {
  }

  lemma BracketTexts(x: string, y: string, rest: string)
    ensures "" + "<<" + x + ">" + y + "\"" + rest == "<<" + (x + (">" + (y + ("\"" + rest))))
  {
  }

  lemma FiveRuns(st: Scan, a: string, b: string, c: string, d: string, e: string)
    ensures Run(st, a + (b + (c + (d + e)))) == Run(Run(Run(Run(Run(st, a), b), c), d), e)
  {
    RunAppend(st, a, b + (c + (d + e)));
    RunAppend(Run(st, a), b, c + (d + e));
    RunAppend(Run(Run(st, a), b), c, d + e);
    RunAppend(Run(Run(Run(st, a), b), c), d, e);
  }

  // ---------------------------------------------------------------- TRIPLE, SUBJECT, PREDICATE and OBJECT

  predicate LooksQuoted(s: string) {
    HasPrefix(s, "<<") && HasSuffix(s, ">>")
  }

  /** The components of a value that looks like a quoted triple. */
  function Components(value: string): Content
    requires LooksQuoted(value)
  {
    assert value[1] == '<' && value[|value| - 2..][0] == '>';
    Split(Trim(value[2..|value| - 2]))
  }

  lemma TripleInside(s: Term, p: Term, o: Term)
    requires Written(s) && Written(p) && Written(o)
    ensures var v := TripleText(Render(s), Render(p), Render(o));
      LooksQuoted(v) && Trim(v[2..|v| - 2]) == ContentText(s, p, o)
  {
    var inner := ContentText(s, p, o);
    PaddedText(Render(s), Render(p), Render(o));
    ContentTrimmed(s, p, o);
    InsideText(inner);
  }

  lemma ContentTrimmed(s: Term, p: Term, o: Term)
    requires Written(s) && Written(p) && Written(o)
    ensures ContentText(s, p, o) != [] && Trimmed(ContentText(s, p, o))
  {
    var inner := ContentText(s, p, o);
    RenderEnds(s);
    RenderEnds(o);
    assert inner[0] == Render(s)[0] && inner[|inner| - 1] == Render(o)[|Render(o)| - 1];
  }

  lemma PaddedText(s: string, p: string, o: string)
    ensures TripleText(s, p, o) == "<<" + (" " + (s + " " + p + " " + o) + " ") + ">>"
  {
  }

  lemma InsideText(inner: string)
    requires inner != [] && Trimmed(inner)
    ensures var v := "<<" + (" " + inner + " ") + ">>";
      LooksQuoted(v) && Trim(v[2..|v| - 2]) == inner
  {
    var v := "<<" + (" " + inner + " ") + ">>";
    assert v[2..|v| - 2] == " " + inner + " ";
    assert v[..2] == "<<" && v[|v| - 2..] == ">>";
    TrimPadded(inner);
  }

  /** SUBJECT, PREDICATE and OBJECT undo TRIPLE. */
  lemma ComponentsOfTriple(s: Term, p: Term, o: Term)
    requires Written(s) && Written(p) && Written(o)
    ensures var v := TripleText(Render(s), Render(p), Render(o));
      LooksQuoted(v) && Components(v) == Content(Render(s), Render(p), Render(o))
  {
    TripleInside(s, p, o);
    SplitRendered(s, p, o);
  }

  /** A body ends at the first quote that is not escaped. */
  lemma {:induction false} BodyEnds(escaped: bool, a: string, x: string, b: string, y: string)
    requires IsBody(escaped, a) && IsBody(escaped, b) && a + ("\"" + x) == b + ("\"" + y)
    ensures a == b && x == y
    decreases |a|
  {
    var s, t := a + ("\"" + x), b + ("\"" + y);
    if a == [] || b == [] {
      assert s[0] == '"' && t[0] == '"';
      assert a == [] && b == [];
      assert s[1..] == x && t[1..] == y;
    } else {
      assert s[0] == a[0] && t[0] == b[0];
      assert s[1..] == a[1..] + ("\"" + x) && t[1..] == b[1..] + ("\"" + y);
      BodyEnds(!escaped && a[0] == '\\', a[1..], x, b[1..], y);
    }
  }

  /** Distinct terms are written differently. */
  lemma {:induction false} RenderInjective(a: Term, b: Term)
    requires Written(a) && Written(b) && Render(a) == Render(b)
    ensures a == b
  {
    FirstCharacters(a);
    FirstCharacters(b);
    if a.Quoted? && b.Quoted? {
      ComponentsOfTriple(a.subj, a.pred, a.obj);
      ComponentsOfTriple(b.subj, b.pred, b.obj);
      RenderInjective(a.subj, b.subj);
      RenderInjective(a.pred, b.pred);
      RenderInjective(a.obj, b.obj);
    } else if a.Literal? && b.Literal? {
      var s := Render(a);
      assert s[1..] == a.body + ("\"" + a.suffix) && s[1..] == b.body + ("\"" + b.suffix);
      BodyEnds(false, a.body, a.suffix, b.body, b.suffix);
    }
  }

  /** The kind of a term shows in its text. */
  lemma FirstCharacters(t: Term)
    requires Written(t)
    ensures Render(t) != []
    ensures t.Literal? <==> Render(t)[0] == '"'
    ensures t.Quoted? <==> LooksQuoted(Render(t))
  {
    match t
    case Token(text) =>
      TokenIsNotQuoted(text);
      if IsPlainToken(text) {
        assert IsPlainChar(text[0]);
      }
    case Literal(body, suffix) =>
    case Quoted(s, p, o) => ComponentsOfTriple(s, p, o);
  }

  lemma TokenIsNotQuoted(text: string)
    requires IsToken(text)
    ensures !LooksQuoted(text)
  {
    if IsPlainToken(text) {
      assert IsPlainChar(text[0]);
    } else {
      assert IsUriChar(text[1]);
    }
  }
}
