/** The hand-written precedence parser for arithmetic expressions. */
module ArithmeticGrammar {
  import opened TermText

  datatype Arithmetic =
    | Operand(text: string)
    | Add(left: Arithmetic, right: Arithmetic)
    | Subtract(left: Arithmetic, right: Arithmetic)
    | Multiply(left: Arithmetic, right: Arithmetic)
    | Divide(left: Arithmetic, right: Arithmetic)

  datatype Parsed<+T> = Failure | Success(value: T, rest: string)

  // ---------------------------------------------------------------- characters and tokens

  predicate IsDigit(c: char) {
    '0' <= c <= '9'
  }

  predicate IsNumeric(c: char) {
    IsDigit(c) || c == '.'
  }

  predicate IsNameChar(c: char) {
    IsDigit(c) || 'a' <= c <= 'z' || 'A' <= c <= 'Z' || c == '_' || c == '-'
  }

  predicate NotQuote(c: char) {
    c != '"'
  }

  /** The length of the longest prefix whose characters satisfy `p`. */
  function Span(p: char -> bool, s: string): (n: nat)
    ensures n <= |s| && (forall i | 0 <= i < n :: p(s[i])) && (n < |s| ==> !p(s[n]))
  {
    if s == [] || !p(s[0]) then 0 else 1 + Span(p, s[1..])
  }

  /** The text without its leading white space. */
  function Skip(s: string): (r: string)
    ensures |r| <= |s| && (r == [] || !IsSpace(r[0]))
  {
    if s != [] && IsSpace(s[0]) then Skip(s[1..]) else s
  }

  /** At least one character satisfying `p`. */
  function TakeWhile1(p: char -> bool, s: string): (r: Parsed<string>)
    ensures r.Success? ==> |r.rest| < |s|
  {
    var n := Span(p, s);
    if n == 0 then Failure else Success(s[..n], s[n..])
  }

  function ParseChar(c: char, s: string): (r: Parsed<char>)
    ensures r.Success? ==> |r.rest| < |s|
  {
    if s != [] && s[0] == c then Success(c, s[1..]) else Failure
  }

  function ParseVariable(s: string): (r: Parsed<string>)
    ensures r.Success? ==> |r.rest| < |s|
  {
    if s == [] || s[0] != '?' then Failure else
    var name := TakeWhile1(IsNameChar, s[1..]);
    if name.Failure? then Failure else Success(['?'] + name.value, name.rest)
  }

  /** A literal in double quotes; its value is the text between them. */
  function ParseLiteral(s: string): (r: Parsed<string>)
    ensures r.Success? ==> |r.rest| < |s|
  {
    if s == [] || s[0] != '"' then Failure else
    var body := TakeWhile1(NotQuote, s[1..]);
    if body.Failure? then Failure else
    var close := ParseChar('"', body.rest);
    if close.Failure? then Failure else Success(body.value, close.rest)
  }

  /** A variable, a literal, or a run of characters satisfying `numeric`. */
  function ParseAtom(numeric: char -> bool, s: string): (r: Parsed<string>)
    ensures r.Success? ==> |r.rest| < |s|
  {
    var v := ParseVariable(s);
    if v.Success? then v else
    var l := ParseLiteral(s);
    if l.Success? then l else TakeWhile1(numeric, s)
  }

  function ParseOperand(s: string): (r: Parsed<Arithmetic>)
    ensures r.Success? ==> |r.rest| < |s|
  {
    var atom := ParseAtom(IsNumeric, Skip(s));
    if atom.Failure? then Failure else Success(Operand(atom.value), Skip(atom.rest))
  }

  // ---------------------------------------------------------------- the grammar

  function ParseGroup(s: string): (r: Parsed<Arithmetic>)
    ensures r.Success? ==> |r.rest| < |s|
    decreases |s|, 0
  {
    var open := ParseChar('(', Skip(s));
    if open.Failure? then Failure else
    var e := ParseExpression(open.rest);
    if e.Failure? then Failure else
    var close := ParseChar(')', Skip(e.rest));
    if close.Failure? then Failure else Success(e.value, Skip(close.rest))
  }

  function ParseTerm(s: string): (r: Parsed<Arithmetic>)
    ensures r.Success? ==> |r.rest| < |s|
    decreases |s|, 1
  {
    var operand := ParseOperand(s);
    if operand.Success? then operand else ParseGroup(s)
  }

  function ParseFactor(s: string): (r: Parsed<Arithmetic>)
    ensures r.Success? ==> |r.rest| < |s|
    decreases |s|, 2
  {
    var first := ParseTerm(s);
    if first.Failure? then Failure else FactorTail(first.value, first.rest)
  }

  predicate StartsWith(s: string, a: char, b: char) {
    s != [] && (s[0] == a || s[0] == b)
  }

  /** The multiplication loop: `left` has been parsed, `s` is left. */
  function FactorTail(left: Arithmetic, s: string): (r: Parsed<Arithmetic>)
    ensures r.Success? ==> |r.rest| <= |s|
    decreases |s|, 0
  {
    var remaining := Skip(s);
    if !StartsWith(remaining, '*', '/') then Success(left, s) else
    var right := ParseTerm(Skip(remaining[1..]));
    if right.Failure? then Failure else
    FactorTail(if remaining[0] == '*' then Multiply(left, right.value) else Divide(left, right.value), right.rest)
  }

  function ParseExpression(s: string): (r: Parsed<Arithmetic>)
    ensures r.Success? ==> |r.rest| < |s|
    decreases |s|, 3
  {
    var first := ParseFactor(s);
    if first.Failure? then Failure else ExpressionTail(first.value, first.rest)
  }

  /** The addition loop. */
  function ExpressionTail(left: Arithmetic, s: string): (r: Parsed<Arithmetic>)
    ensures r.Success? ==> |r.rest| <= |s|
    decreases |s|, 0
  {
    var remaining := Skip(s);
    if !StartsWith(remaining, '+', '-') then Success(left, s) else
    var right := ParseFactor(Skip(remaining[1..]));
    if right.Failure? then Failure else
    ExpressionTail(if remaining[0] == '+' then Add(left, right.value) else Subtract(left, right.value), right.rest)
  }

  // ---------------------------------------------------------------- the loops

  method ArithTerm(s: string) returns (r: Parsed<Arithmetic>)
    ensures r == ParseTerm(s)
    decreases |s|, 1
  {
    r := ParseOperand(s);
    if r.Success? {
      return;
    }
    r := ArithGroup(s);
  }

  method ArithGroup(s: string) returns (r: Parsed<Arithmetic>)
    ensures r == ParseGroup(s)
    decreases |s|, 0
  {
    var open := ParseChar('(', Skip(s));
    if open.Failure? {
      return Failure;
    }
    r := ArithExpression(open.rest);
    if r.Success? {
      var close := ParseChar(')', Skip(r.rest));
      r := if close.Failure? then Failure else Success(r.value, Skip(close.rest));
    }
  }

  method ArithFactor(s: string) returns (r: Parsed<Arithmetic>)
    ensures r == ParseFactor(s)
    decreases |s|, 2
  {
    r := ArithTerm(s);
    if r.Failure? {
      return;
    }
    var input, left := r.rest, r.value;
    while true
      invariant |input| < |s|
      invariant ParseFactor(s) == FactorTail(left, input)
      decreases |input|
    {
      var remaining := Skip(input);
      if !StartsWith(remaining, '*', '/') {
        break;
      }
      var right := ArithTerm(Skip(remaining[1..]));
      if right.Failure? {
        return Failure;
      }
      left := if remaining[0] == '*' then Multiply(left, right.value) else Divide(left, right.value);
      input := right.rest;
    }
    r := Success(left, input);
  }

  method ArithExpression(s: string) returns (r: Parsed<Arithmetic>)
    ensures r == ParseExpression(s)
    decreases |s|, 3
  {
    r := ArithFactor(s);
    if r.Failure? {
      return;
    }
    var input, left := r.rest, r.value;
    while true
      invariant |input| < |s|
      invariant ParseExpression(s) == ExpressionTail(left, input)
      decreases |input|
    {
      var remaining := Skip(input);
      if !StartsWith(remaining, '+', '-') {
        break;
      }
      var right := ArithFactor(Skip(remaining[1..]));
      if right.Failure? {
        return Failure;
      }
      left := if remaining[0] == '+' then Add(left, right.value) else Subtract(left, right.value);
      input := right.rest;
    }
    r := Success(left, input);
  }
}
