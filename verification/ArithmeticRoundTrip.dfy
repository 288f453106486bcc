/** Printing an arithmetic expression with the fewest parentheses and parsing it gives it back. */
module ArithmeticRoundTrip {
  import opened TermText
  import opened ArithmeticGrammar

  // ---------------------------------------------------------------- printing

  /** A question mark and a name of letters, digits, underscores and hyphens. */
  predicate IsVariableText(text: string) {
    && |text| > 1 && text[0] == '?'
    && forall i | 1 <= i < |text| ::
      'a' <= text[i] <= 'z' || 'A' <= text[i] <= 'Z' || '0' <= text[i] <= '9' || text[i] == '_' || text[i] == '-'
  }

  /** Digits and points. */
  predicate IsNumberText(text: string) {
    text != [] && forall i | 0 <= i < |text| :: '0' <= text[i] <= '9' || text[i] == '.'
  }

  /** An operand can be written down when it is not empty and contains no quote. */
  predicate Printable(text: string) {
    text != [] && forall i | 0 <= i < |text| :: text[i] != '"'
  }

  function PrintOperand(text: string): string {
    if IsVariableText(text) || IsNumberText(text) then text else "\"" + text + "\""
  }

  predicate WellFormed(e: Arithmetic) {
    match e
    case Operand(text) => Printable(text)
    case Add(l, r) => WellFormed(l) && WellFormed(r)
    case Subtract(l, r) => WellFormed(l) && WellFormed(r)
    case Multiply(l, r) => WellFormed(l) && WellFormed(r)
    case Divide(l, r) => WellFormed(l) && WellFormed(r)
  }

  function PrintExpression(e: Arithmetic): string
    decreases e, 2
  {
    match e
    case Add(l, r) => PrintExpression(l) + " + " + PrintFactor(r)
    case Subtract(l, r) => PrintExpression(l) + " - " + PrintFactor(r)
    case _ => PrintFactor(e)
  }

  function PrintFactor(e: Arithmetic): string
    decreases e, 1
  {
    match e
    case Multiply(l, r) => PrintFactor(l) + " * " + PrintTerm(r)
    case Divide(l, r) => PrintFactor(l) + " / " + PrintTerm(r)
    case _ => PrintTerm(e)
  }

  function PrintTerm(e: Arithmetic): string
    decreases e, 0
  {
    match e
    case Operand(text) => PrintOperand(text)
    case Add(l, r) => "(" + (PrintExpression(l) + " + " + PrintFactor(r)) + ")"
    case Subtract(l, r) => "(" + (PrintExpression(l) + " - " + PrintFactor(r)) + ")"
    case Multiply(l, r) => "(" + (PrintFactor(l) + " * " + PrintTerm(r)) + ")"
    case Divide(l, r) => "(" + (PrintFactor(l) + " / " + PrintTerm(r)) + ")"
  }

  lemma PrintTermGroups(e: Arithmetic)
    ensures !e.Operand? ==> PrintTerm(e) == "(" + PrintExpression(e) + ")"
  {
  }

  // ---------------------------------------------------------------- tokens

  /** No operand runs on into `k`. */
  predicate Ends(k: string) {
    k == [] || !(IsNameChar(k[0]) || k[0] == '.')
  }

  lemma SpanPrefix(p: char -> bool, a: string, k: string)
    requires forall i | 0 <= i < |a| :: p(a[i])
    requires k == [] || !p(k[0])
    ensures Span(p, a + k) == |a|
  {
    assert forall i | 0 <= i < |a| :: (a + k)[i] == a[i];
    if k != [] {
      assert (a + k)[|a|] == k[0];
    }
  }

  lemma SkipNothing(s: string)
    requires s == [] || !IsSpace(s[0])
    ensures Skip(s) == s
  {
  }

  lemma TakePrefix(p: char -> bool, a: string, k: string)
    requires a != [] && forall i | 0 <= i < |a| :: p(a[i])
    requires k == [] || !p(k[0])
    ensures TakeWhile1(p, a + k) == Success(a, k)
  {
    SpanPrefix(p, a, k);
    assert (a + k)[..|a|] == a && (a + k)[|a|..] == k;
  }

  lemma VariablePrinted(text: string, k: string)
    requires IsVariableText(text) && (k == [] || !IsNameChar(k[0]))
    ensures ParseVariable(text + k) == Success(text, k)
  {
    assert (text + k)[1..] == text[1..] + k;
    TakePrefix(IsNameChar, text[1..], k);
    assert ['?'] + text[1..] == text;
  }

  lemma LiteralPrinted(text: string, k: string)
    requires Printable(text)
    ensures ParseLiteral("\"" + text + "\"" + k) == Success(text, k)
  {
    var s := "\"" + text + "\"" + k;
    assert s[1..] == text + ("\"" + k);
    TakePrefix(NotQuote, text, "\"" + k);
    assert ("\"" + k)[1..] == k;
  }

  lemma AtomPrinted(text: string, k: string)
    requires Printable(text) && Ends(k)
    ensures ParseAtom(IsNumeric, PrintOperand(text) + k) == Success(text, k)
  {
    var s := PrintOperand(text) + k;
    assert s[0] == PrintOperand(text)[0];
    if IsVariableText(text) {
      VariablePrinted(text, k);
    } else if IsNumberText(text) {
      assert IsNumeric(text[0]);
      TakePrefix(IsNumeric, text, k);
    } else {
      LiteralPrinted(text, k);
    }
  }

  lemma OperandPrinted(text: string, k: string)
    requires Printable(text) && Ends(k)
    ensures ParseOperand(PrintOperand(text) + k) == Success(Operand(text), Skip(k))
  {
    AtomPrinted(text, k);
    assert (PrintOperand(text) + k)[0] == PrintOperand(text)[0];
  }

  // ---------------------------------------------------------------- round trip

  lemma {:induction false} FirstChar(e: Arithmetic)
    requires WellFormed(e)
    ensures PrintTerm(e) != [] && !IsSpace(PrintTerm(e)[0])
    ensures PrintFactor(e) != [] && !IsSpace(PrintFactor(e)[0])
    ensures PrintExpression(e) != [] && !IsSpace(PrintExpression(e)[0])
  {
    if !e.Operand? {
      FirstChar(e.left);
    }
  }

  lemma AfterOperator(op: char, x: string, k: string)
    requires op in "+-*/" && x != [] && !IsSpace(x[0])
    ensures var tail := [' ', op, ' '] + x + k;
      && Ends(tail) && Skip(tail) != [] && Skip(tail)[0] == op
      && Skip(Skip(tail)) == Skip(tail)
      && Skip(Skip(tail)[1..]) == x + k
  {
  }

  /** A group whose inside is read up to the closing parenthesis. */
  lemma GroupReadBack(e: Arithmetic, s: string, close: string)
    requires s != [] && s[0] == '(' && close != [] && close[0] == ')'
    requires ParseExpression(s[1..]) == Success(e, close)
    ensures ParseTerm(s) == Success(e, Skip(close[1..]))
  {
  }

  /** Where the three levels of the printer call each other on the same expression. */
  function Rank(e: Arithmetic, level: nat): nat {
    match e
    case Operand(_) => level
    case Add(_, _) => (level + 1) % 3
    case Subtract(_, _) => (level + 1) % 3
    case Multiply(_, _) => (level + 2) % 3
    case Divide(_, _) => (level + 2) % 3
  }

  lemma FactorPrinted(e: Arithmetic, k: string)
    requires e.Multiply? || e.Divide?
    ensures PrintFactor(e) + k
         == PrintFactor(e.left) + ([' ', if e.Multiply? then '*' else '/', ' '] + PrintTerm(e.right) + k)
  {
  }

  lemma ExpressionPrinted(e: Arithmetic, k: string)
    requires e.Add? || e.Subtract?
    ensures PrintExpression(e) + k
         == PrintExpression(e.left) + ([' ', if e.Add? then '+' else '-', ' '] + PrintFactor(e.right) + k)
  {
  }

  /** An operand or a group is read back, and the blanks behind it are consumed. */
  lemma {:induction false} TermReadBack(e: Arithmetic, k: string)
    requires WellFormed(e) && Ends(k)
    ensures ParseTerm(PrintTerm(e) + k) == Success(e, Skip(k))
    decreases e, Rank(e, 0)
  {
    if e.Operand? {
      OperandPrinted(e.text, k);
    } else {
      var inner := PrintExpression(e);
      PrintTermGroups(e);
      ExpressionContinues(e, ")" + k);
      var s := PrintTerm(e) + k;
      assert s[0] == '(' && s[1..] == inner + (")" + k);
      assert (")" + k)[1..] == k;
      GroupReadBack(e, s, ")" + k);
    }
  }

  /** Parsing a printed factor followed by `k` continues the multiplication loop at `k`. */
  lemma {:induction false} FactorContinues(e: Arithmetic, k: string)
    requires WellFormed(e) && Ends(k)
    ensures ParseFactor(PrintFactor(e) + k) == FactorTail(e, Skip(k))
    decreases e, Rank(e, 1)
  {
    if e.Multiply? || e.Divide? {
      var op := if e.Multiply? then '*' else '/';
      var l, r := e.left, e.right;
      var tail := [' ', op, ' '] + PrintTerm(r) + k;
      FirstChar(r);
      TermReadBack(r, k);
      AfterOperator(op, PrintTerm(r), k);
      FactorContinues(l, tail);
      FactorPrinted(e, k);
    } else {
      assert PrintFactor(e) == PrintTerm(e);
      TermReadBack(e, k);
    }
  }

  /** Parsing a printed expression followed by `k` continues the addition loop at `k`. */
  lemma {:induction false} ExpressionContinues(e: Arithmetic, k: string)
    requires WellFormed(e) && Ends(k) && !StartsWith(Skip(k), '*', '/')
    ensures ParseExpression(PrintExpression(e) + k) == ExpressionTail(e, Skip(k))
    decreases e, Rank(e, 2)
  {
    if e.Add? || e.Subtract? {
      var op := if e.Add? then '+' else '-';
      var l, r := e.left, e.right;
      var tail := [' ', op, ' '] + PrintFactor(r) + k;
      FirstChar(r);
      FactorContinues(r, k);
      AfterOperator(op, PrintFactor(r), k);
      ExpressionContinues(l, tail);
      ExpressionPrinted(e, k);
    } else {
      assert PrintExpression(e) == PrintFactor(e);
      FactorContinues(e, k);
    }
  }

  /** Printing and parsing is the identity on every well-formed expression, and consumes all of the text. */
  lemma ExpressionRoundTrip(e: Arithmetic)
    requires WellFormed(e)
    ensures ParseExpression(PrintExpression(e)) == Success(e, "")
  {
    ExpressionContinues(e, "");
    assert PrintExpression(e) + "" == PrintExpression(e);
  }

  // ---------------------------------------------------------------- the parser only builds printable trees

  lemma {:induction false} TermIsWellFormed(s: string)
    ensures ParseTerm(s).Success? ==> WellFormed(ParseTerm(s).value)
    decreases |s|, 1
  {
    var open := ParseChar('(', Skip(s));
    if ParseOperand(s).Failure? && open.Success? {
      ExpressionIsWellFormed(open.rest);
    }
  }

  lemma {:induction false} FactorTailIsWellFormed(left: Arithmetic, s: string)
    requires WellFormed(left)
    ensures FactorTail(left, s).Success? ==> WellFormed(FactorTail(left, s).value)
    decreases |s|, 0
  {
    var remaining := Skip(s);
    if StartsWith(remaining, '*', '/') {
      TermIsWellFormed(Skip(remaining[1..]));
      var right := ParseTerm(Skip(remaining[1..]));
      if right.Success? {
        var next := if remaining[0] == '*' then Multiply(left, right.value) else Divide(left, right.value);
        FactorTailIsWellFormed(next, right.rest);
      }
    }
  }

  lemma {:induction false} FactorIsWellFormed(s: string)
    ensures ParseFactor(s).Success? ==> WellFormed(ParseFactor(s).value)
    decreases |s|, 2
  {
    TermIsWellFormed(s);
    if ParseTerm(s).Success? {
      FactorTailIsWellFormed(ParseTerm(s).value, ParseTerm(s).rest);
    }
  }

  lemma {:induction false} ExpressionTailIsWellFormed(left: Arithmetic, s: string)
    requires WellFormed(left)
    ensures ExpressionTail(left, s).Success? ==> WellFormed(ExpressionTail(left, s).value)
    decreases |s|, 0
  {
    var remaining := Skip(s);
    if StartsWith(remaining, '+', '-') {
      FactorIsWellFormed(Skip(remaining[1..]));
      var right := ParseFactor(Skip(remaining[1..]));
      if right.Success? {
        var next := if remaining[0] == '+' then Add(left, right.value) else Subtract(left, right.value);
        ExpressionTailIsWellFormed(next, right.rest);
      }
    }
  }

  lemma {:induction false} ExpressionIsWellFormed(s: string)
    ensures ParseExpression(s).Success? ==> WellFormed(ParseExpression(s).value)
    decreases |s|, 3
  {
    FactorIsWellFormed(s);
    if ParseFactor(s).Success? {
      ExpressionTailIsWellFormed(ParseFactor(s).value, ParseFactor(s).rest);
    }
  }

  /** The well-formed trees are exactly those the parser can return, and printing normalises its input. */
  lemma ParsedExactly(e: Arithmetic)
    ensures WellFormed(e) <==> exists s :: ParseExpression(s).Success? && ParseExpression(s).value == e
  {
    if WellFormed(e) {
      ExpressionRoundTrip(e);
    }
    forall s | ParseExpression(s).Success? && ParseExpression(s).value == e ensures WellFormed(e) {
      ExpressionIsWellFormed(s);
    }
  }
}
