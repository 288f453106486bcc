/** Which arithmetic expressions can be written, without quotes, as the left side of a comparison. */
module UnquotedSides {
  import opened TermText
  import opened ArithmeticGrammar
  import opened ArithmeticRoundTrip
  import opened FilterGrammar
  import opened FilterTexts
  import opened FilterRoundTrip
  import opened FilterClauses
  import Sequences

  /** What stands behind the left side in a clause with one comparison. */
  function Behind(op: string, r: string): string {
    " " + (op + (" " + (PrintOperand(r) + ")")))
  }

  lemma OperatorComes(op: string, r: string)
    requires IsComparator(op) && Printable(r)
    ensures var k := Behind(op, r);
      && Ends(k) && Skip(k) != [] && StartsOperator(Skip(k)) && Skip(Skip(k)) == Skip(k)
      && !StartsWith(Skip(k), '+', '-') && !StartsWith(Skip(k), '*', '/')
  {
    OperatorBehind(op, PrintOperand(r) + ")");
    OperatorRead(op, PrintOperand(r) + ")");
  }

  /** A whole clause is one comparison only when its body begins with that comparison. */
  lemma ClauseIsCondition(body: string, f: FilterExpression)
    requires f.Comparison? && ParseFilter(Clause(body)) == Success(f, "")
    ensures ParseCondition(body).Success? && ParseCondition(body).value == f
  {
    assert ParseOr(body).Success? && ParseOr(body).value == f;
    assert ParseAnd(body).Success? && ParseAnd(body).value == f;
  }

  /** A clause with something unread in front of its closing parenthesis is rejected. */
  lemma LeftOver(body: string, f: FilterExpression, rest: string)
    requires ParseCondition(body) == Success(f, rest) && rest != []
    requires !IsSpace(rest[0]) && rest[0] !in "&|)"
    ensures ParseFilter(Clause(body)).Failure?
  {
    PassedUp(f, body, rest);
    ClauseEnds(body, f, rest);
  }

  // ---------------------------------------------------------------- where a split side ends

  /** A side that is split ends at the first closing parenthesis of the text. */
  lemma SplitSide(s: string)
    requires s != [] && s[0] == '(' && SplitsGroup(s)
    ensures var c := ParseCondition(s); c.Success? && c.value.Comparison? && c.value.left == s[..Span(NotClose, s) + 1]
  {
    GroupCompared(s);
    assert Span(NotClose, s) == Span(NotClose, s[1..]) + 1;
    NotAnAtom(s);
  }

  lemma {:induction false} FirstCloseWithin(s: string, i: nat)
    requires i < |s| && s[i] == ')'
    ensures Span(NotClose, s) <= i
  {
    if i > 0 && s[0] != ')' {
      FirstCloseWithin(s[1..], i - 1);
    }
  }

  /** It is not the whole side when a parenthesis closes before the end of the side. */
  lemma SplitIsShorter(side: string, k: string, i: nat)
    requires side != [] && side[0] == '(' && i + 1 < |side| && side[i] == ')' && SplitsGroup(side + k)
    ensures var c := ParseCondition(side + k); c.Success? && c.value.Comparison? && c.value.left != side
  {
    var s := side + k;
    assert s[0] == '(' && s[i] == ')';
    SplitSide(s);
    FirstCloseWithin(s, i);
    assert |s[..Span(NotClose, s) + 1]| < |side|;
  }

  // ---------------------------------------------------------------- in parentheses

  function Grouped(e: Arithmetic): string {
    "(" + PrintExpression(e) + ")"
  }

  lemma InsideGrouped(e: Arithmetic, k: string)
    ensures var s := Grouped(e) + k; s[0] == '(' && s[1..] == PrintExpression(e) + (")" + k)
    ensures !e.Operand? ==> Grouped(e) == PrintTerm(e)
  {
    PrintTermGroups(e);
  }

  lemma CloseFollows(k: string)
    ensures Follows(")" + k) && (")" + k)[1..] == k && Skip(")" + k) == ")" + k
  {
  }

  lemma TermIsExpression(e: Arithmetic, s: string, k: string)
    requires ParseTerm(s) == Success(e, k) && Skip(k) == k
    requires !StartsWith(k, '+', '-') && !StartsWith(k, '*', '/')
    ensures ParseExpression(s) == Success(e, k)
  {
    assert ParseFactor(s) == Success(e, k);
  }

  /** A group that is not split is read as a value, whatever its inside is taken for at first. */
  lemma GroupedIsValue(e: Arithmetic, op: string, r: string)
    requires WellFormed(e) && IsComparator(op) && Printable(r)
    requires !SplitsGroup(Grouped(e) + Behind(op, r))
    ensures ParseCondition(Grouped(e) + Behind(op, r)) == Success(Value(e), Skip(Behind(op, r)))
  {
    var k := Behind(op, r);
    var s, close := Grouped(e) + k, ")" + k;
    OperatorComes(op, r);
    InsideGrouped(e, k);
    CloseFollows(k);
    SplitsInside(s);
    ValueReadExactly(e, close);
    var inside := ParseCondition(s[1..]);
    if ReadsValue(e, close) {
      PassedUp(Value(e), s[1..], close);
      GroupReadExactly(Value(e), s, close);
    } else {
      TermReadBack(e, k);
      TermIsExpression(e, s, Skip(k));
      GroupRefused(e, e, s, Skip(k));
    }
  }

  predicate NoClose(s: string) {
    forall i | 0 <= i < |s| :: s[i] != ')'
  }

  lemma PlainGroupAccepted(inner: string, op: string, r: string)
    requires NoClose(inner) && IsComparator(op) && Printable(r)
    ensures ParseFilter(Clause("(" + inner + ")" + Behind(op, r))) == Success(Comparison("(" + inner + ")", op, r), "")
  {
    GroupTakenAsSide(inner, op, r, ")");
    ConditionEnds("(" + inner + ")" + Behind(op, r), Comparison("(" + inner + ")", op, r), ")");
  }

  lemma UnsplitRejected(e: Arithmetic, op: string, r: string)
    requires WellFormed(e) && IsComparator(op) && Printable(r)
    requires !SplitsGroup(Grouped(e) + Behind(op, r))
    ensures ParseFilter(Clause(Grouped(e) + Behind(op, r))).Failure?
  {
    GroupedIsValue(e, op, r);
    OperatorComes(op, r);
    LeftOver(Grouped(e) + Behind(op, r), Value(e), Skip(Behind(op, r)));
  }

  /** A split side is not read as written when a parenthesis closes before its end. */
  lemma SplitNotAsWritten(side: string, k: string, op: string, r: string, i: nat)
    requires side != [] && side[0] == '(' && i + 1 < |side| && side[i] == ')' && SplitsGroup(side + k)
    ensures ParseFilter(Clause(side + k)) != Success(Comparison(side, op, r), "")
  {
    SplitIsShorter(side, k, i);
    if ParseFilter(Clause(side + k)) == Success(Comparison(side, op, r), "") {
      ClauseIsCondition(side + k, Comparison(side, op, r));
    }
  }

  /** In parentheses an expression is accepted as the left side of a comparison, and read as written, exactly when it
      is printed without another closing parenthesis; with one, the clause is rejected, unless a comparison operator
      and a readable side happen to stand behind the first of them. */
  lemma GroupedSideExactly(e: Arithmetic, op: string, r: string)
    requires WellFormed(e) && IsComparator(op) && Printable(r)
    ensures ParseFilter(Clause(Grouped(e) + Behind(op, r))) == Success(Comparison(Grouped(e), op, r), "")
      <==> NoClose(PrintExpression(e))
    ensures !SplitsGroup(Grouped(e) + Behind(op, r)) ==> ParseFilter(Clause(Grouped(e) + Behind(op, r))).Failure?
  {
    if !SplitsGroup(Grouped(e) + Behind(op, r)) {
      UnsplitRejected(e, op, r);
    }
    if NoClose(PrintExpression(e)) {
      PlainGroupAccepted(PrintExpression(e), op, r);
    } else if SplitsGroup(Grouped(e) + Behind(op, r)) {
      NestedCloseCut(PrintExpression(e), Behind(op, r), op, r);
    }
  }

  lemma NestedCloseCut(inner: string, k: string, op: string, r: string)
    requires !NoClose(inner) && SplitsGroup("(" + inner + ")" + k)
    ensures ParseFilter(Clause("(" + inner + ")" + k)) != Success(Comparison("(" + inner + ")", op, r), "")
  {
    var i :| 0 <= i < |inner| && inner[i] == ')';
    InnerClose(inner, i);
    SplitNotAsWritten("(" + inner + ")", k, op, r, i + 1);
  }

  lemma InnerClose(inner: string, i: nat)
    requires i < |inner| && inner[i] == ')'
    ensures var side := "(" + inner + ")"; side[0] == '(' && i + 2 < |side| && side[i + 1] == ')'
  {
  }

  // ---------------------------------------------------------------- without parentheses

  lemma ValueContinues(e: Arithmetic, op: string, r: string)
    requires WellFormed(e) && IsComparator(op) && Printable(r)
    ensures ParseExpression(PrintExpression(e) + Behind(op, r)) == Success(e, Skip(Behind(op, r)))
  {
    OperatorComes(op, r);
    ExpressionContinues(e, Behind(op, r));
  }

  /** An expression that begins with an operand is read as a value, and the comparison is left over. */
  lemma OperandLedRejected(e: Arithmetic, op: string, r: string)
    requires WellFormed(e) && !e.Operand? && LeadsWithOperand(e) && IsComparator(op) && Printable(r)
    ensures ParseFilter(Clause(PrintExpression(e) + Behind(op, r))).Failure?
  {
    var k := Behind(op, r);
    var text, tail := Leading(e);
    var s := PrintExpression(e) + k;
    Sequences.AppendTwo(PrintOperand(text), tail, k);
    OperatorTail(tail, k);
    OperationNotCompared(text, tail, k);
    TextRejected(text, tail + k);
    ValueContinues(e, op, r);
    ReadAsValue(s, e, Skip(k));
    OperatorComes(op, r);
    LeftOver(s, Value(e), Skip(k));
  }

  lemma GroupTakenLeftOver(g: Arithmetic, s: string, close: string, rest: string)
    requires s != [] && s[0] == '(' && !SplitsGroup(s) && close != [] && close[0] == ')' && rest == Skip(close[1..])
    requires ParseCondition(s[1..]) == Success(Value(g), close)
    requires rest != [] && rest[0] in "+-*/"
    ensures ParseFilter(Clause(s)).Failure?
  {
    GroupTaken(g, s, close);
    LeftOver(s, Value(g), rest);
  }

  lemma ValueLeftOver(e: Arithmetic, g: Arithmetic, s: string, rest: string)
    requires s != [] && s[0] == '(' && !SplitsGroup(s) && Misread(ParseCondition(s[1..]), g)
    requires ParseExpression(s) == Success(e, rest) && StartsOperator(rest)
    ensures ParseFilter(Clause(s)).Failure?
  {
    GroupRefused(e, g, s, rest);
    LeftOver(s, Value(e), rest);
  }

  /** An expression that begins with a group is taken for that group, or as a value; either way something is left. */
  lemma GroupLedLeftOver(e: Arithmetic, op: string, r: string)
    requires WellFormed(e) && !LeadsWithOperand(e) && IsComparator(op) && Printable(r)
    requires !SplitsGroup(PrintExpression(e) + Behind(op, r))
    ensures ParseFilter(Clause(PrintExpression(e) + Behind(op, r))).Failure?
  {
    var g, k := LeadGroup(e), Behind(op, r);
    var tail := LeadingGroup(e);
    GroupTexts(g, tail, k);
    LeadGroupIsWellFormed(e);
    SplitsInside(PrintExpression(e) + k);
    CloseFollows(tail + k);
    ValueReadExactly(g, ")" + (tail + k));
    if ReadsValue(g, ")" + (tail + k)) {
      RestOfGroup(tail, k);
      GroupTakenLeftOver(g, PrintExpression(e) + k, ")" + (tail + k), Skip(tail + k));
    } else {
      OperatorComes(op, r);
      ValueContinues(e, op, r);
      ValueLeftOver(e, g, PrintExpression(e) + k, Skip(k));
    }
  }

  /** Without parentheses an expression is never read as the left side of a comparison: the clause is rejected, unless
      it begins with a group that happens to be split. */
  lemma BareSideRejected(e: Arithmetic, op: string, r: string)
    requires WellFormed(e) && !e.Operand? && IsComparator(op) && Printable(r)
    ensures ParseFilter(Clause(PrintExpression(e) + Behind(op, r)))
         != Success(Comparison(PrintExpression(e), op, r), "")
    ensures LeadsWithOperand(e) || !SplitsGroup(PrintExpression(e) + Behind(op, r)) ==>
      ParseFilter(Clause(PrintExpression(e) + Behind(op, r))).Failure?
  {
    if LeadsWithOperand(e) {
      OperandLedRejected(e, op, r);
    } else if !SplitsGroup(PrintExpression(e) + Behind(op, r)) {
      GroupLedLeftOver(e, op, r);
    } else {
      BareGroupCut(e, op, r);
    }
  }

  lemma BareGroupCut(e: Arithmetic, op: string, r: string)
    requires WellFormed(e) && !LeadsWithOperand(e) && SplitsGroup(PrintExpression(e) + Behind(op, r))
    ensures ParseFilter(Clause(PrintExpression(e) + Behind(op, r)))
         != Success(Comparison(PrintExpression(e), op, r), "")
  {
    var g := LeadGroup(e);
    var tail := LeadingGroup(e);
    SplitNotAsWritten(PrintExpression(e), Behind(op, r), op, r, |PrintExpression(g)| + 1);
  }

  lemma SumText(a: string, b: string)
    requires IsVariableText(a) && IsVariableText(b)
    ensures var e := Add(Operand(a), Operand(b));
      && PrintExpression(e) == a + " + " + b && WellFormed(e) && LeadsWithOperand(e) && NoClose(PrintExpression(e))
  {
    assert PrintExpression(Operand(a)) == PrintFactor(Operand(a)) == a && PrintFactor(Operand(b)) == b;
    assert WellFormed(Operand(a)) && WellFormed(Operand(b)) && LeadsWithOperand(Operand(a));
  }

  /** The clause `FILTER(?a + ?b > 5)` is rejected, and `FILTER((?a + ?b) > 5)` is read as written. */
  lemma SumNeedsParentheses(a: string, b: string, r: string)
    requires IsVariableText(a) && IsVariableText(b) && Printable(r)
    ensures var e := Add(Operand(a), Operand(b));
      && PrintExpression(e) == a + " + " + b
      && ParseFilter(Clause(PrintExpression(e) + Behind(">", r))).Failure?
      && ParseFilter(Clause(Grouped(e) + Behind(">", r))) == Success(Comparison(Grouped(e), ">", r), "")
  {
    SumText(a, b);
    OperandLedRejected(Add(Operand(a), Operand(b)), ">", r);
    GroupedSideExactly(Add(Operand(a), Operand(b)), ">", r);
  }
}
