/** Whole filter clauses: exactly which comparisons and values are accepted, and what a parenthesis inside a literal
    does. */
module FilterClauses {
  import opened ArithmeticGrammar
  import opened ArithmeticRoundTrip
  import opened FilterGrammar
  import opened FilterTexts
  import opened FilterRoundTrip
  import opened ClosingParentheses

  function Clause(body: string): string {
    "FILTER" + ("(" + body)
  }

  /** The clause parser wants a closing parenthesis right behind the expression. */
  lemma ClauseEnds(body: string, e: FilterExpression, rest: string)
    requires ParseOr(body) == Success(e, rest) && rest != []
    ensures ParseFilter(Clause(body)) == if rest[0] == ')' then Success(e, rest[1..]) else Failure
  {
  }

  /** A decimal is read up to its point. */
  lemma DecimalLeavesPoint(l: string, op: string, r: string, k: string)
    requires Printable(l) && IsComparator(op) && Printable(r) && Ends(k) && CutsDecimal(l, r)
    ensures var c := ParseCondition(PrintCondition(Comparison(l, op, r)) + k);
      c.Success? && c.rest != [] && c.rest[0] == '.'
  {
    var s := PrintCondition(Comparison(l, op, r)) + k;
    var y := PrintOperand(r) + k;
    var tail := " " + (op + (" " + y));
    ComparisonPrinted(l, op, r, k);
    OperandHere(l, tail);
    OperatorBehind(op, y);
    DigitsPrinted(l, tail);
    OperandHere(r, k);
    DigitsPrinted(r, k);
    var right := ParseAtom(IsDigit, y);
    SkipNothing(right.rest);
    ComparisonSteps(s, l, tail, op, " " + y, right.value, right.rest);
    OperandNotACall(l, tail);
  }

  /** A clause with one comparison is accepted, and read as written, exactly when its right side is not a decimal
      that gets cut; otherwise the whole clause is rejected. */
  lemma ComparisonClauseExactly(l: string, op: string, r: string)
    requires Printable(l) && IsComparator(op) && Printable(r)
    ensures ParseFilter(Clause(PrintCondition(Comparison(l, op, r)) + ")"))
         == if CutsDecimal(l, r) then Failure else Success(Comparison(l, op, r), "")
  {
    var body := PrintCondition(Comparison(l, op, r)) + ")";
    if CutsDecimal(l, r) {
      DecimalLeavesPoint(l, op, r, ")");
    } else {
      ComparisonReadBack(l, op, r, ")");
    }
    ConditionEnds(body, ParseCondition(body).value, ParseCondition(body).rest);
  }

  lemma ConditionEnds(body: string, e: FilterExpression, rest: string)
    requires ParseCondition(body) == Success(e, rest) && rest != [] && rest[0] in ".)"
    ensures ParseFilter(Clause(body)) == if rest[0] == ')' then Success(e, rest[1..]) else Failure
  {
    assert ParseOr(body) == Success(e, rest);
    ClauseEnds(body, e, rest);
  }

  /** An unquoted number with a fraction: the clause `FILTER(?x > 1.5)` is rejected. */
  lemma DecimalBoundRejected()
    ensures ParseFilter(Clause(PrintCondition(Comparison("?x", ">", "1.5")) + ")")).Failure?
    ensures PrintOperand("1.5") == "1.5" && PrintOperand("?x") == "?x"
  {
    assert "1.5"[1] == '.';
    assert IsNumberText("1.5") && HasPoint("1.5");
    ComparisonClauseExactly("?x", ">", "1.5");
  }

  /** A group followed by a comparison operator is taken as the text of an arithmetic side, up to its first
      closing parenthesis, wherever that is. */
  lemma GroupTakenAsSide(inner: string, op: string, r: string, k: string)
    requires (forall i | 0 <= i < |inner| :: inner[i] != ')') && IsComparator(op) && Printable(r) && Ends(k)
    ensures ParseCondition("(" + inner + ")" + (" " + (op + (" " + (PrintOperand(r) + k)))))
         == Success(Comparison("(" + inner + ")", op, r), Skip(k))
  {
    var y := PrintOperand(r) + k;
    var tail := " " + (op + (" " + y));
    var s := "(" + inner + ")" + tail;
    GroupSideText(inner, tail);
    OperatorBehind(op, y);
    RightSideRead(r, k);
    GroupIsNoComparison(s);
    ArithmeticSteps(s, "(" + inner + ")", tail, op, " " + y, r, k);
  }

  lemma RightSideRead(r: string, k: string)
    requires Printable(r) && Ends(k)
    ensures ParseRightSide(Skip(" " + (PrintOperand(r) + k))) == Success(r, k)
  {
    OperandHere(r, k);
    AtomPrinted(r, k);
    RightAtom(PrintOperand(r) + k, r, k);
  }

  lemma GroupIsNoComparison(s: string)
    requires s != [] && s[0] == '('
    ensures ParseCall(s).Failure? && ParseComparison(s).Failure?
  {
    NotACallBySymbol(s);
    LeftFails(s);
  }

  lemma GroupSideText(inner: string, tail: string)
    requires forall i | 0 <= i < |inner| :: inner[i] != ')'
    ensures var s := "(" + inner + ")" + tail;
      s[0] == '(' && Skip(s) == s && ParseLeftSide(s) == Success("(" + inner + ")", tail)
  {
    var s := "(" + inner + ")" + tail;
    assert s[1..] == inner + (")" + tail);
    SpanPrefix(NotClose, inner, ")" + tail);
    assert s[..|inner| + 2] == "(" + inner + ")" && s[|inner| + 2..] == tail;
  }

  /** A closing parenthesis inside a literal is not protected: the printed group `(?x = "a) = 5" ...` is read as
      a comparison of the text `(?x = "a)` with the number 5. */
  lemma LiteralSplitsGroup(more: string)
    ensures ParseCondition("(" + (PrintCondition(Comparison("?x", "=", "a) = 5")) + more))
         == Success(Comparison("(" + "?x = \"a" + ")", "=", "5"), "\"" + more)
  {
    LiteralText(more);
    SplitAtLiteral("?x = \"a", "\"" + more);
  }

  lemma SplitAtLiteral(inner: string, k: string)
    requires (forall i | 0 <= i < |inner| :: inner[i] != ')') && Ends(k)
    ensures ParseCondition("(" + inner + ")" + (" " + ("=" + (" " + ("5" + k)))))
         == Success(Comparison("(" + inner + ")", "=", "5"), Skip(k))
  {
    assert PrintOperand("5") == "5";
    GroupTakenAsSide(inner, "=", "5", k);
  }

  lemma LiteralText(more: string)
    ensures "(" + (PrintCondition(Comparison("?x", "=", "a) = 5")) + more)
         == "(" + "?x = \"a" + ")" + (" " + ("=" + (" " + ("5" + ("\"" + more)))))
  {
    LiteralWritten();
    LiteralSplit("?x = \"a) = 5\"", more);
  }

  lemma LiteralWritten()
    ensures PrintCondition(Comparison("?x", "=", "a) = 5")) == "?x = \"a) = 5\""
  {
    assert PrintOperand("?x") == "?x";
    QuotedLiteral("a) = 5");
    assert "\"" + "a) = 5" + "\"" == "\"a) = 5\"";
    assert "?x" + (" " + ("=" + (" " + "\"a) = 5\""))) == "?x = \"a) = 5\"";
  }

  lemma QuotedLiteral(text: string)
    requires text != [] && text[0] == 'a'
    ensures PrintOperand(text) == "\"" + text + "\""
  {
  }

  lemma LiteralSplit(c: string, more: string)
    requires c == "?x = \"a) = 5\""
    ensures "(" + (c + more) == "(" + "?x = \"a" + ")" + (" " + ("=" + (" " + ("5" + ("\"" + more)))))
  {
  }

  // ---------------------------------------------------------------- bare values

  lemma ValueAlone(e: Arithmetic, k: string)
    ensures PrintOr(Value(e)) == PrintExpression(e)
    ensures ReadsOr(Value(e), k) <==> ReadsValue(e, k)
  {
    assert PrintAnd(Value(e)) == PrintCondition(Value(e));
    assert ReadsAnd(Value(e), k) == ReadsCondition(Value(e), k);
  }

  lemma OperatorLeft(body: string, e: FilterExpression, rest: string)
    requires ParseCondition(body) == Success(e, rest) && rest != [] && rest[0] in "+-*/"
    ensures ParseFilter(Clause(body)).Failure?
  {
    PassedUp(e, body, rest);
    ClauseEnds(body, e, rest);
  }

  /** A clause with a bare value is read back exactly when `ReadsValue` says so; when the value is taken for the group
      it begins with, the whole clause is rejected. */
  lemma ValueClauseExactly(e: Arithmetic)
    requires WellFormed(e)
    ensures ParseFilter(Clause(PrintExpression(e) + ")")) == Success(Value(e), "") <==> ReadsValue(e, ")")
    ensures !ReadsValue(e, ")") && !SplitsGroup(PrintExpression(e) + ")") ==>
      ParseFilter(Clause(PrintExpression(e) + ")")).Failure?
  {
    var body := PrintExpression(e) + ")";
    ValueAlone(e, ")");
    ClauseReadExactly(Value(e));
    if !ReadsValue(e, ")") && !SplitsGroup(body) {
      LeadGroupRejected(e, body);
    }
  }

  lemma LeadGroupRejected(e: Arithmetic, body: string)
    requires WellFormed(e) && body == PrintExpression(e) + ")"
    requires !ReadsValue(e, ")") && !SplitsGroup(body)
    ensures ParseFilter(Clause(body)).Failure?
  {
    ValueReadExactly(e, ")");
    var r := ParseCondition(body);
    OperatorLeft(body, r.value, r.rest);
  }

  lemma PlainVariable(text: string)
    requires IsVariableText(text) && text[0] != ')'
    ensures Plain(text)
  {
  }

  lemma ProductOfSum(a: string, b: string, c: string)
    requires IsVariableText(a) && IsVariableText(b) && IsVariableText(c)
    ensures PrintExpression(Multiply(Add(Operand(a), Operand(b)), Operand(c)))
         == "(" + (a + " + " + b) + ")" + " * " + c
  {
    var sum := Add(Operand(a), Operand(b));
    assert PrintExpression(Operand(a)) == PrintFactor(Operand(a)) == PrintOperand(a);
    assert PrintFactor(Operand(b)) == PrintOperand(b);
    assert PrintTerm(Operand(c)) == PrintOperand(c);
    FactorText(Multiply(sum, Operand(c)));
    assert PrintFactor(sum) == PrintTerm(sum) == "(" + (a + " + " + b) + ")";
  }

  /** A sum of variables times a variable is rejected: the sum is taken for the whole value. */
  lemma ProductOfSumRejected(a: string, b: string, c: string)
    requires IsVariableText(a) && IsVariableText(b) && IsVariableText(c)
    ensures ParseFilter(Clause(PrintExpression(Multiply(Add(Operand(a), Operand(b)), Operand(c))) + ")")).Failure?
  {
    var e := Multiply(Add(Operand(a), Operand(b)), Operand(c));
    PlainVariable(a);
    PlainVariable(b);
    assert PlainArithmetic(Operand(a)) && PlainArithmetic(Operand(b));
    assert WellFormed(Operand(a)) && WellFormed(Operand(b)) && WellFormed(Operand(c));
    assert WellFormed(e.left) && PlainArithmetic(e.left) && LeadsWithOperand(e.left.left);
    assert !LeadsWithOperand(e) && LeadGroup(e) == e.left && LeadsWithOperand(e.left) && !ReadsBack(e);
    SafeValue(e, ")");
    ValueClauseExactly(e);
  }

  /** The clause `FILTER((?a + ?b) * ?c)`. */
  lemma GroupTakenForValue()
    ensures ParseFilter(Clause("(?a + ?b) * ?c" + ")")).Failure?
  {
    assert "?a" + " + " + "?b" == "?a + ?b";
    assert "(" + "?a + ?b" + ")" == "(?a + ?b)";
    assert "(?a + ?b)" + " * " + "?c" == "(?a + ?b) * ?c";
    ProductOfSum("?a", "?b", "?c");
    ProductOfSumRejected("?a", "?b", "?c");
  }
}
