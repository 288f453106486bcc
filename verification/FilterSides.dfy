/** What the text of one side of a comparison is worth, and where comparisons at the top level of a filter differ from
    comparisons below a connective. */
module FilterSides {
  import opened SolutionMappings
  import BasicGraphPattern
  import opened ArithmeticGrammar
  import opened ArithmeticRoundTrip
  import opened FilterGrammar
  import opened FilterTexts
  import opened FilterRoundTrip
  import opened FilterClauses
  import opened FilterEvaluation

  // ---------------------------------------------------------------- texts and expressions

  lemma PrintedHasOperator(e: Arithmetic)
    requires !e.Operand?
    ensures HasOperator(PrintExpression(e))
  {
    var op := if e.Add? then '+' else if e.Subtract? then '-' else if e.Multiply? then '*' else '/';
    var left := if e.Add? || e.Subtract? then PrintExpression(e.left) else PrintFactor(e.left);
    if e.Multiply? || e.Divide? {
      FactorText(e);
    }
    assert PrintExpression(e)[|left| + 1] == op;
  }

  lemma OperatorInFront(x: string, tail: string)
    requires HasOperator(x)
    ensures HasOperator(x + tail)
  {
    var i :| 0 <= i < |x| && x[i] in "+-*/";
    assert (x + tail)[i] == x[i];
  }

  /** The text of an arithmetic side in parentheses has the value of the expression that was printed. */
  lemma GroupTextValue<N>(n: Numbers<N>, row: Row, e: Arithmetic)
    requires WellFormed(e) && !e.Operand?
    ensures EvaluateText(n, row, "(" + PrintExpression(e) + ")") == EvaluateArithmetic(n, row, e)
  {
    var inner := PrintExpression(e);
    var s := "(" + inner + ")";
    assert s[1..|s| - 1] == inner;
    ExpressionRoundTrip(e);
    PrintedHasOperator(e);
  }

  /** A comparison with such a side reads the variables of the expression, and not its text. */
  lemma GroupedSideReads(e: Arithmetic, op: string, r: string)
    requires WellFormed(e) && !e.Operand?
    ensures TopVariables(Comparison("(" + PrintExpression(e) + ")", op, r))
         == ArithmeticVariables(e) + ValueVariables(r)
  {
    var inner := PrintExpression(e);
    var s := "(" + inner + ")";
    assert s[1..|s| - 1] == inner;
    ExpressionRoundTrip(e);
    PrintedHasOperator(e);
    OperatorInside(inner);
  }

  lemma OperatorInside(x: string)
    requires HasOperator(x)
    ensures HasOperator("(" + x + ")")
  {
    var i :| 0 <= i < |x| && x[i] in "+-*/";
    assert ("(" + x + ")")[i + 1] == x[i];
  }

  predicate FactorEnds(e: Arithmetic) {
    match e
    case Operand(_) => false
    case Multiply(_, r) => !r.Operand?
    case Divide(_, r) => !r.Operand?
    case _ => true
  }

  /** The printed expression ends with a parenthesis. */
  predicate EndsWithGroup(e: Arithmetic) {
    FactorEnds(if e.Add? || e.Subtract? then e.right else e)
  }

  lemma OperandCharacters(text: string)
    requires Printable(text)
    ensures var s := PrintOperand(text); s != [] && s[0] != '(' && s[|s| - 1] != ')'
  {
    OperandHere(text, "");
    assert PrintOperand(text) + "" == PrintOperand(text);
  }

  lemma TermLast(e: Arithmetic)
    requires WellFormed(e)
    ensures var s := PrintTerm(e); s != [] && (s[|s| - 1] == ')' <==> !e.Operand?)
  {
    if e.Operand? {
      OperandCharacters(e.text);
    } else {
      PrintTermGroups(e);
    }
  }

  lemma FactorLast(e: Arithmetic)
    requires WellFormed(e)
    ensures var s := PrintFactor(e); s != [] && (s[|s| - 1] == ')' <==> FactorEnds(e))
  {
    if e.Multiply? || e.Divide? {
      TermLast(e.right);
      FactorText(e);
    } else {
      TermLast(e);
      assert PrintFactor(e) == PrintTerm(e);
    }
  }

  lemma ExpressionLast(e: Arithmetic)
    requires WellFormed(e)
    ensures var s := PrintExpression(e); s != [] && (s[|s| - 1] == ')' <==> EndsWithGroup(e))
  {
    if e.Add? || e.Subtract? {
      FactorLast(e.right);
      ExpressionText(e);
    } else {
      FactorLast(e);
      assert PrintExpression(e) == PrintFactor(e);
    }
  }

  lemma ExpressionFirst(e: Arithmetic)
    requires WellFormed(e)
    ensures var s := PrintExpression(e); s != [] && (s[0] == '(' <==> !LeadsWithOperand(e))
  {
    if LeadsWithOperand(e) {
      var text, tail := Leading(e);
      OperandCharacters(text);
    } else {
      var tail := LeadingGroup(e);
    }
  }

  /** The expression whose value the evaluator finds in a printed text: outer parentheses are cut off even when they
      belong to two groups, and then the first group is all that is read. */
  function Evaluated(e: Arithmetic): Arithmetic {
    if !LeadsWithOperand(e) && EndsWithGroup(e) then LeadGroup(e) else e
  }

  lemma CutBetweenGroups(e: Arithmetic) returns (rest: string)
    requires WellFormed(e) && !LeadsWithOperand(e) && EndsWithGroup(e)
    ensures Unwrapped(PrintExpression(e)) == PrintExpression(LeadGroup(e)) + (")" + rest)
  {
    var g, s := LeadGroup(e), PrintExpression(e);
    var tail := LeadingGroup(e);
    ExpressionFirst(e);
    ExpressionLast(e);
    rest := tail[..|tail| - 1];
    assert s[1..|s| - 1] == PrintExpression(g) + (")" + rest);
  }

  lemma LeadGroupValue<N>(n: Numbers<N>, row: Row, g: Arithmetic, s: string, rest: string)
    requires WellFormed(g) && !g.Operand? && Unwrapped(s) == PrintExpression(g) + (")" + rest)
    ensures EvaluateText(n, row, s) == EvaluateArithmetic(n, row, g)
  {
    ExpressionContinues(g, ")" + rest);
    PrintedHasOperator(g);
    OperatorInFront(PrintExpression(g), ")" + rest);
  }

  /** The text of a printed expression has the value of that expression, unless the text both begins and ends with a
      group: then it has the value of its first group. */
  lemma PrintedTextValue<N>(n: Numbers<N>, row: Row, e: Arithmetic)
    requires WellFormed(e) && !e.Operand?
    ensures EvaluateText(n, row, PrintExpression(e)) == EvaluateArithmetic(n, row, Evaluated(e))
  {
    if !LeadsWithOperand(e) && EndsWithGroup(e) {
      var rest := CutBetweenGroups(e);
      LeadGroupIsWellFormed(e);
      LeadGroupValue(n, row, LeadGroup(e), PrintExpression(e), rest);
    } else {
      ExpressionFirst(e);
      ExpressionLast(e);
      ExpressionRoundTrip(e);
      PrintedHasOperator(e);
    }
  }

  /** Every operand is a variable or a number. */
  predicate BareOperands(e: Arithmetic) {
    match e
    case Operand(text) => IsVariableText(text) || IsNumberText(text)
    case Add(l, r) => BareOperands(l) && BareOperands(r)
    case Subtract(l, r) => BareOperands(l) && BareOperands(r)
    case Multiply(l, r) => BareOperands(l) && BareOperands(r)
    case Divide(l, r) => BareOperands(l) && BareOperands(r)
  }

  lemma PrintableOperation(a: string, op: char, b: string)
    requires Printable(a) && Printable(b) && op in "+-*/"
    ensures Printable(a + ([' ', op, ' '] + b))
  {
  }

  lemma {:induction false} BareTexts(e: Arithmetic)
    requires BareOperands(e)
    ensures WellFormed(e)
    ensures Printable(PrintTerm(e)) && Printable(PrintFactor(e)) && Printable(PrintExpression(e))
  {
    if !e.Operand? {
      BareTexts(e.left);
      BareTexts(e.right);
      if e.Add? || e.Subtract? {
        PrintableOperation(PrintExpression(e.left), if e.Add? then '+' else '-', PrintFactor(e.right));
        ExpressionText(e);
      } else {
        PrintableOperation(PrintFactor(e.left), if e.Multiply? then '*' else '/', PrintTerm(e.right));
        FactorText(e);
      }
      BareGroup(e);
    }
  }

  lemma BareGroup(e: Arithmetic)
    requires Printable(PrintExpression(e)) && !e.Operand?
    ensures Printable(PrintTerm(e)) && Printable(PrintFactor(e))
  {
    PrintTermGroups(e);
    assert PrintFactor(e) == PrintTerm(e) || PrintFactor(e) == PrintExpression(e);
  }

  /** Such a text reaches the evaluator as a quoted side: the clause is accepted, and the side is worth what
      `Evaluated` says. */
  lemma QuotedSideValue<N>(n: Numbers<N>, row: Row, e: Arithmetic, op: string, r: string)
    requires BareOperands(e) && !e.Operand? && IsComparator(op) && Printable(r) && !IsDecimal(r)
    ensures var c := ParseFilter(Clause(PrintCondition(Comparison(PrintExpression(e), op, r)) + ")"));
      && c == Success(Comparison(PrintExpression(e), op, r), "")
      && EvaluateText(n, row, c.value.left) == EvaluateArithmetic(n, row, Evaluated(e))
  {
    BareTexts(e);
    ComparisonClauseExactly(PrintExpression(e), op, r);
    PrintedTextValue(n, row, e);
  }

  /** For example `(a + b) * c * (d + e)` is worth `a + b`. */
  lemma TwoGroupsLoseTheRest<N>(n: Numbers<N>, row: Row, first: Arithmetic, c: Arithmetic, last: Arithmetic)
    requires WellFormed(first) && WellFormed(c) && WellFormed(last) && first.Add? && last.Add?
    ensures EvaluateText(n, row, PrintExpression(Multiply(Multiply(first, c), last)))
         == EvaluateArithmetic(n, row, first)
  {
    var inner := Multiply(first, c);
    var whole := Multiply(inner, last);
    assert !LeadsWithOperand(inner) && LeadGroup(inner) == first;
    assert !LeadsWithOperand(whole) && LeadGroup(whole) == LeadGroup(inner);
    PrintedTextValue(n, row, whole);
  }

  // ---------------------------------------------------------------- the top level and below

  /** Integers are read as floating-point numbers that compare like them; a question mark or a parenthesis does not
      begin a number. */
  ghost predicate Consistent<N>(n: Numbers<N>) {
    && (forall t: string :: n.integer(t).Some? ==> n.float(t).Some? && t != [] && t[0] != '?' && t[0] != '(')
    && (forall s: string, t: string :: n.integer(s).Some? && n.integer(t).Some? ==>
          ComparesAlike(n, n.float(s).value, n.float(t).value, n.integer(s).value, n.integer(t).value))
  }

  ghost predicate ComparesAlike<N>(n: Numbers<N>, x: N, y: N, a: int, b: int) {
    (n.equal(x, y) <==> a == b) && (n.greater(x, y) <==> a > b) && (n.atLeast(x, y) <==> a >= b)
  }

  predicate IsEquality(op: string) {
    op == "=" || op == "!="
  }

  /** Both values are integers. */
  predicate Integers<N>(n: Numbers<N>, x: string, y: string) {
    n.integer(x).Some? && n.integer(y).Some?
  }

  /** When a comparison has the same outcome at the top level as below a connective. With a sign both sides must have
      values, or the texts must fail the test as well. Without a sign and with a left side that stands for the value it
      is bound to, two integers always agree; other numbers agree under an equality when they are equal just if their
      texts are, and under an order when the order fails; texts agree under an equality unless the right side is a bound
      variable that would make a difference. A constant bound to another value is tested by that value at the top level
      and by itself below. */
  ghost predicate SameOutcome<N>(n: Numbers<N>, row: Row, l: string, op: string, r: string)
    requires l in row
  {
    var a, b := EvaluateText(n, row, l), EvaluateText(n, row, r);
    var numbers := a.Some? && b.Some?;
    if IsSigned(Comparison(l, op, r)) then numbers || !CompareTexts(TextOf(row, l), op, TextOf(row, r))
    else if TextOf(row, l) != row[l] then
      if IsEquality(op) then
        (if Integers(n, row[l], r) then n.integer(row[l]) == n.integer(r) else row[l] == r)
        <==> (if numbers then n.equal(a.value, b.value) else l == TextOf(row, r))
      else
        (Integers(n, row[l], r) && CompareIntegers(n.integer(row[l]).value, op, n.integer(r).value))
        <==> (numbers && CompareNumbers(n, a.value, op, b.value))
    else if Integers(n, row[l], r) then true
    else if numbers then
      if IsEquality(op) then row[l] == r <==> n.equal(a.value, b.value)
      else !CompareNumbers(n, a.value, op, b.value)
    else
      IsEquality(op) && (row[l] == r || row[l] == TextOf(row, r)) ==> r == TextOf(row, r)
  }

  lemma IntegersAgree<N>(n: Numbers<N>, row: Row, l: string, op: string, r: string)
    requires Consistent(n) && l in row && TextOf(row, l) == row[l]
    requires !HasOperator(l) && !HasOperator(r) && n.integer(row[l]).Some? && n.integer(r).Some?
    ensures HoldsOnTop(n, row, Comparison(l, op, r)) == Holds(n, row, Comparison(l, op, r))
  {
    assert EvaluateText(n, row, r) == n.float(r);
    assert EvaluateText(n, row, l) == n.float(row[l]);
    var x, y := n.float(row[l]).value, n.float(r).value;
    assert ComparesAlike(n, x, y, n.integer(row[l]).value, n.integer(r).value);
    assert ComparesAlike(n, y, x, n.integer(r).value, n.integer(row[l]).value);
  }

  /** Exactly when the two evaluators agree on a comparison whose left side the row binds. */
  lemma TopAgreesExactly<N>(n: Numbers<N>, row: Row, l: string, op: string, r: string)
    requires Consistent(n) && l in row
    ensures HoldsOnTop(n, row, Comparison(l, op, r)) == Holds(n, row, Comparison(l, op, r))
      <==> SameOutcome(n, row, l, op, r)
  {
    if !IsSigned(Comparison(l, op, r)) {
      if TextOf(row, l) != row[l] {
        assert TextOf(row, l) == l;
      } else if Integers(n, row[l], r) {
        IntegersAgree(n, row, l, op, r);
      }
    }
  }

  /** A constant subject may be bound to another value, and then `"alice" = "alice"` fails at the top level and holds
      below a connective. */
  lemma ConstantBoundElsewhere<N>(n: Numbers<N>)
    requires n.integer("alice").None? && n.integer("bob").None? && n.float("alice").None?
    ensures var row: Row := map["alice" := "bob"];
      && !HoldsOnTop(n, row, Comparison("alice", "=", "alice"))
      && Holds(n, row, Comparison("alice", "=", "alice"))
  {
    assert !HasOperator("alice") && Unwrapped("alice") == "alice";
    assert "alice"[0] != "bob"[0];
  }

  /** At the top level the right side of a plain comparison is not looked up: two variables are equal only when the
      value of the first is the name of the second. Below a connective both sides are looked up. */
  lemma TopLevelTakesRightSideLiterally<N>(n: Numbers<N>, row: Row)
    requires n.integer("?y").None? && "?x" in row && "?y" in row
    requires n.float(row["?x"]).None?
    ensures HoldsOnTop(n, row, Comparison("?x", "=", "?y")) <==> row["?x"] == "?y"
    ensures Holds(n, row, Comparison("?x", "=", "?y")) <==> row["?x"] == row["?y"]
  {
    assert !HasOperator("?x") && !HasOperator("?y");
    assert Unwrapped("?x") == "?x";
  }

  /** At the top level a decimal is no number: the row with 1.5 does not pass `?x > 1`, and passes it below a
      connective. */
  lemma DecimalDroppedOnTop<N>(n: Numbers<N>, row: Row)
    requires "?x" in row && row["?x"] == "1.5"
    requires n.integer("1.5").None? && n.float("1.5").Some? && n.float("1").Some?
    requires n.greater(n.float("1.5").value, n.float("1").value)
    ensures !HoldsOnTop(n, row, Comparison("?x", ">", "1"))
    ensures Holds(n, row, And(Comparison("?x", ">", "1"), Comparison("?x", ">", "1")))
  {
    assert !HasOperator("?x") && !HasOperator("1");
    assert Unwrapped("?x") == "?x" && Unwrapped("1") == "1";
  }

  /** A left side the row does not bind fails at the top level, whatever the operator; below a connective a bare
      inequality of texts holds. */
  lemma UnboundFailsOnTop<N>(n: Numbers<N>, row: Row, v: string, op: string, r: string)
    requires v !in row && !HasOperator(v) && !HasOperator(r)
    ensures !HoldsOnTop(n, row, Comparison(v, op, r))
    ensures BasicGraphPattern.IsVariable(v) && op == "!=" ==>
        (Holds(n, row, Comparison(v, op, r)) <==> v != TextOf(row, r))
  {
  }
}
