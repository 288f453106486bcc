/** When the texts inside parentheses have no comparison operator behind a closing parenthesis, printed filters are
    read back. */
module ClosingParentheses {
  import opened TermText
  import opened ArithmeticGrammar
  import opened ArithmeticRoundTrip
  import opened FilterGrammar
  import opened FilterTexts
  import opened FilterRoundTrip
  import Sequences

  /** No closing parenthesis of `s` is followed by a comparison operator. */
  predicate ClosesSafely(s: string) {
    forall i | 0 <= i < |s| && s[i] == ')' :: NoComparison(s[i + 1..])
  }

  /** The text can be written, and has no closing parenthesis with a comparison operator behind it: inside a group
      that would end the group. */
  predicate Plain(text: string) {
    Printable(text) && ClosesSafely(text)
  }

  predicate PlainArithmetic(e: Arithmetic) {
    match e
    case Operand(text) => Plain(text)
    case Add(l, r) => PlainArithmetic(l) && PlainArithmetic(r)
    case Subtract(l, r) => PlainArithmetic(l) && PlainArithmetic(r)
    case Multiply(l, r) => PlainArithmetic(l) && PlainArithmetic(r)
    case Divide(l, r) => PlainArithmetic(l) && PlainArithmetic(r)
  }

  /** Every text in the expression is plain. */
  predicate AllPlain(e: FilterExpression) {
    match e
    case Comparison(l, op, r) => Plain(l) && IsComparator(op) && Plain(r)
    case And(l, r) => AllPlain(l) && AllPlain(r)
    case Or(l, r) => AllPlain(l) && AllPlain(r)
    case Not(inner) => AllPlain(inner)
    case Value(a) => PlainArithmetic(a)
    case Call(name, args) => IsCallName(name) && args != [] && forall a | a in args :: Plain(a)
  }

  // ---------------------------------------------------------------- texts

  lemma ClosesAppend(a: string, k: string)
    requires ClosesSafely(k) && forall i | 0 <= i < |a| :: a[i] != ')'
    ensures ClosesSafely(a + k)
  {
    forall i | 0 <= i < |a + k| && (a + k)[i] == ')' ensures NoComparison((a + k)[i + 1..]) {
      assert (a + k)[i + 1..] == k[i - |a| + 1..];
    }
  }

  lemma ClosesCons(c: char, k: string)
    requires ClosesSafely(k) && NoComparison(k)
    ensures ClosesSafely([c] + k)
  {
    var s := [c] + k;
    forall i | 0 <= i < |s| && s[i] == ')' ensures NoComparison(s[i + 1..]) {
      assert s[i + 1..] == k[i..];
      if i == 0 {
        assert k[0..] == k;
      } else {
        assert k[i..] == k[i - 1 + 1..] && k[i - 1] == ')';
      }
    }
  }

  lemma ClosesClose(k: string)
    requires ClosesSafely(k) && NoComparison(k)
    ensures ClosesSafely(")" + k) && NoComparison(")" + k)
  {
    ClosesCons(')', k);
  }

  lemma GroupCloses(inner: string, k: string)
    requires ClosesSafely(inner + (")" + k))
    ensures ClosesSafely("(" + inner + ")" + k)
  {
    ClosesAppend("(", inner + (")" + k));
    assert "(" + inner + ")" + k == "(" + (inner + (")" + k));
  }

  lemma {:induction false} StopBehind(x: string, y: string)
    requires NoComparison(x) && y != [] && !IsSpace(y[0]) && !StartsOperator(y)
    ensures NoComparison(x + y)
  {
    if x == [] {
      assert x + y == y;
    } else if IsSpace(x[0]) {
      assert (x + y)[1..] == x[1..] + y;
      StopBehind(x[1..], y);
    }
  }

  lemma TextCloses(a: string, y: string)
    requires ClosesSafely(a) && ClosesSafely(y) && y != [] && !IsSpace(y[0]) && !StartsOperator(y)
    ensures ClosesSafely(a + y)
  {
    forall i | 0 <= i < |a + y| && (a + y)[i] == ')' ensures NoComparison((a + y)[i + 1..]) {
      if i < |a| {
        assert (a + y)[i + 1..] == a[i + 1..] + y;
        StopBehind(a[i + 1..], y);
      } else {
        assert (a + y)[i + 1..] == y[i - |a| + 1..];
      }
    }
  }

  lemma LiteralCloses(text: string, k: string)
    requires Plain(text) && ClosesSafely(k)
    ensures ClosesSafely("\"" + text + "\"" + k)
  {
    ClosesAppend("\"", k);
    TextCloses(text, "\"" + k);
    ClosesAppend("\"", text + ("\"" + k));
    assert "\"" + text + "\"" + k == "\"" + (text + ("\"" + k));
  }

  lemma OperandCloses(text: string, k: string)
    requires Plain(text) && ClosesSafely(k)
    ensures ClosesSafely(PrintOperand(text) + k) && ClosesSafely(PrintArgument(text) + k)
  {
    LiteralCloses(text, k);
    if IsVariableText(text) || IsNumberText(text) {
      ClosesAppend(text, k);
    }
  }

  // ---------------------------------------------------------------- everything printed

  /** The rest of a call: further arguments and the closing parenthesis. */
  lemma {:induction false} MoreCloses(args: seq<string>, k: string)
    requires (forall a | a in args :: Plain(a)) && ClosesSafely(k) && NoComparison(k)
    ensures ClosesSafely(PrintMore(args) + (")" + k))
  {
    ClosesClose(k);
    if args == [] {
      assert PrintMore(args) + (")" + k) == ")" + k;
    } else {
      var more := PrintMore(args[1..]) + (")" + k);
      MoreCloses(args[1..], k);
      OperandCloses(args[0], more);
      ClosesAppend(", ", PrintArgument(args[0]) + more);
      MorePrinted(args, ")" + k);
    }
  }

  lemma CallCloses(name: string, args: seq<string>, k: string)
    requires IsCallName(name) && args != [] && (forall a | a in args :: Plain(a)) && ClosesSafely(k)
        && NoComparison(k)
    ensures ClosesSafely(PrintCondition(Call(name, args)) + k)
  {
    var more := PrintMore(args[1..]) + (")" + k);
    MoreCloses(args[1..], k);
    OperandCloses(args[0], more);
    ClosesAppend("(", PrintArgument(args[0]) + more);
    ClosesAppend(name, "(" + (PrintArgument(args[0]) + more));
    CallPrinted(name, args, k);
  }

  lemma {:induction false} TermCloses(e: Arithmetic, k: string)
    requires PlainArithmetic(e) && ClosesSafely(k) && NoComparison(k)
    ensures ClosesSafely(PrintTerm(e) + k)
    decreases e, Rank(e, 0)
  {
    if e.Operand? {
      OperandCloses(e.text, k);
    } else {
      ClosesClose(k);
      ExpressionCloses(e, ")" + k);
      PrintTermGroups(e);
      GroupCloses(PrintExpression(e), k);
    }
  }

  lemma {:induction false} FactorCloses(e: Arithmetic, k: string)
    requires PlainArithmetic(e) && ClosesSafely(k) && NoComparison(k)
    ensures ClosesSafely(PrintFactor(e) + k)
    decreases e, Rank(e, 1)
  {
    if e.Multiply? || e.Divide? {
      var op := if e.Multiply? then '*' else '/';
      TermCloses(e.right, k);
      OperatorCloses(op, PrintTerm(e.right) + k);
      FactorCloses(e.left, " " + ([op, ' '] + (PrintTerm(e.right) + k)));
      FactorPrinted(e, k);
      Blank(op, PrintTerm(e.right), k);
    } else {
      TermCloses(e, k);
      assert PrintFactor(e) == PrintTerm(e);
    }
  }

  lemma {:induction false} ExpressionCloses(e: Arithmetic, k: string)
    requires PlainArithmetic(e) && ClosesSafely(k) && NoComparison(k)
    ensures ClosesSafely(PrintExpression(e) + k)
    decreases e, Rank(e, 2)
  {
    if e.Add? || e.Subtract? {
      var op := if e.Add? then '+' else '-';
      FactorCloses(e.right, k);
      OperatorCloses(op, PrintFactor(e.right) + k);
      ExpressionCloses(e.left, " " + ([op, ' '] + (PrintFactor(e.right) + k)));
      ExpressionPrinted(e, k);
      Blank(op, PrintFactor(e.right), k);
    } else {
      FactorCloses(e, k);
      assert PrintExpression(e) == PrintFactor(e);
    }
  }

  lemma Blank(op: char, y: string, k: string)
    ensures [' ', op, ' '] + y + k == " " + ([op, ' '] + (y + k))
  {
  }

  lemma OperatorCloses(op: char, y: string)
    requires op in "+-*/" && ClosesSafely(y)
    ensures ClosesSafely(" " + ([op, ' '] + y)) && NoComparison(" " + ([op, ' '] + y))
  {
    ClosesAppend([op, ' '], y);
    ClosesAppend(" ", [op, ' '] + y);
  }

  lemma ConnectiveCloses(tag: string, y: string)
    requires (tag == "&&" || tag == "||") && ClosesSafely(y)
    ensures ClosesSafely(" " + (tag + (" " + y))) && NoComparison(" " + (tag + (" " + y)))
  {
    ClosesAppend(" ", y);
    ClosesAppend(tag, " " + y);
    ClosesAppend(" ", tag + (" " + y));
  }

  /** Everything printed closes its parentheses safely. */
  lemma {:induction false} ConditionCloses(e: FilterExpression, k: string)
    requires AllPlain(e) && ClosesSafely(k) && NoComparison(k)
    ensures ClosesSafely(PrintCondition(e) + k)
    decreases e, Level(e, 0)
  {
    if e.Comparison? {
      ComparisonCloses(e.left, e.op, e.right, k);
    } else if e.Not? {
      ConditionCloses(e.inner, k);
      ClosesAppend("!", PrintCondition(e.inner) + k);
      NotPrinted(e.inner, k);
    } else if e.Value? {
      ExpressionCloses(e.expression, k);
    } else if e.Call? {
      CallCloses(e.name, e.args, k);
    } else {
      ClosesClose(k);
      OrCloses(e, ")" + k);
      PrintGroups(e);
      GroupCloses(PrintOr(e), k);
    }
  }

  lemma ComparisonCloses(l: string, op: string, r: string, k: string)
    requires Plain(l) && IsComparator(op) && Plain(r) && ClosesSafely(k)
    ensures ClosesSafely(PrintCondition(Comparison(l, op, r)) + k)
  {
    OperandCloses(r, k);
    ComparisonPrinted(l, op, r, k);
    assert op == "=" || op == "!=" || op == ">=" || op == "<=" || op == ">" || op == "<";
    ClosesAppend(" ", PrintOperand(r) + k);
    ClosesAppend(op, " " + (PrintOperand(r) + k));
    ClosesAppend(" ", op + (" " + (PrintOperand(r) + k)));
    OperandCloses(l, " " + (op + (" " + (PrintOperand(r) + k))));
  }

  lemma {:induction false} AndCloses(e: FilterExpression, k: string)
    requires AllPlain(e) && ClosesSafely(k) && NoComparison(k)
    ensures ClosesSafely(PrintAnd(e) + k)
    decreases e, Level(e, 1)
  {
    if e.And? {
      AndCloses(e.second, k);
      ConnectiveCloses("&&", PrintAnd(e.second) + k);
      ConditionCloses(e.first, " " + ("&&" + (" " + (PrintAnd(e.second) + k))));
      AndPrinted(e.first, e.second, k);
    } else {
      ConditionCloses(e, k);
    }
  }

  lemma {:induction false} OrCloses(e: FilterExpression, k: string)
    requires AllPlain(e) && ClosesSafely(k) && NoComparison(k)
    ensures ClosesSafely(PrintOr(e) + k)
    decreases e, Level(e, 2)
  {
    if e.Or? {
      OrCloses(e.second, k);
      ConnectiveCloses("||", PrintOr(e.second) + k);
      AndCloses(e.first, " " + ("||" + (" " + (PrintOr(e.second) + k))));
      OrPrinted(e.first, e.second, k);
    } else {
      AndCloses(e, k);
    }
  }

  // ---------------------------------------------------------------- filters that are read back

  /** A group whose own text closes safely does not split, whatever stands behind it but an operator. */
  lemma SafeGroup(inner: string, k: string)
    requires ClosesSafely("(" + inner + ")") && NoComparison(k)
    ensures !SplitsGroup("(" + inner + ")" + k)
  {
    var s, own := "(" + inner + ")" + k, "(" + inner + ")";
    assert own[|own| - 1] == ')' && forall i | 0 <= i < |own| :: s[i] == own[i];
    var n := Span(NotClose, s);
    assert n < |own| && own[n] == ')';
    assert s[n + 1..] == own[n + 1..] + k;
    NoComparisonAppend(own[n + 1..], k);
    NoOperator(Skip(s[n + 1..]));
  }

  lemma {:induction false} NoComparisonAppend(x: string, k: string)
    requires NoComparison(x) && NoComparison(k)
    ensures NoComparison(x + k)
  {
    if x == [] {
      assert x + k == k;
    } else if IsSpace(x[0]) {
      assert (x + k)[1..] == x[1..] + k;
      NoComparisonAppend(x[1..], k);
    }
  }

  /** A condition on the tree alone: no number is cut, no value begins with a group that would be taken for it, and
      the texts inside parentheses are plain. */
  predicate SafeCondition(e: FilterExpression)
    decreases e, Level(e, 0)
  {
    match e
    case Comparison(l, _, r) => !CutsDecimal(l, r)
    case Not(inner) => SafeCondition(inner)
    case Value(a) => LeadsWithOperand(a) || (PlainArithmetic(LeadGroup(a)) && ReadsBack(a))
    case Call(_, _) => true
    case And(_, _) => AllPlain(e) && SafeOr(e)
    case Or(_, _) => AllPlain(e) && SafeOr(e)
  }

  predicate SafeAnd(e: FilterExpression)
    decreases e, Level(e, 1)
  {
    if e.And? then SafeCondition(e.first) && SafeAnd(e.second) else SafeCondition(e)
  }

  predicate SafeOr(e: FilterExpression)
    decreases e, Level(e, 2)
  {
    if e.Or? then SafeAnd(e.first) && SafeOr(e.second) else SafeAnd(e)
  }

  lemma SafeValue(e: Arithmetic, k: string)
    requires WellFormed(e) && Follows(k)
    requires !LeadsWithOperand(e) && PlainArithmetic(LeadGroup(e))
    ensures !SplitsGroup(PrintExpression(e) + k)
  {
    var g := LeadGroup(e);
    var tail := LeadingGroup(e);
    var inner := PrintExpression(g);
    ClosesClose([]);
    ExpressionCloses(g, ")" + []);
    GroupCloses(inner, []);
    Sequences.AppendNothing("(" + inner + ")", []);
    OperatorTail(tail, k);
    SafeGroup(inner, tail + k);
    Sequences.AppendTwo("(" + inner + ")", tail, k);
  }

  lemma SafeBooleanGroup(e: FilterExpression, k: string)
    requires (e.And? || e.Or?) && AllPlain(e) && NoComparison(k)
    ensures !SplitsGroup(PrintCondition(e) + k)
  {
    PrintGroups(e);
    ConditionCloses(e, []);
    Sequences.AppendNothing(PrintCondition(e), []);
    SafeGroup(PrintOr(e), k);
  }

  lemma {:induction false} SafeConditionReads(e: FilterExpression, k: string)
    requires Writable(e) && SafeCondition(e) && Follows(k)
    ensures ReadsCondition(e, k)
    decreases e, Level(e, 0)
  {
    if e.Not? {
      SafeConditionReads(e.inner, k);
    } else if e.Value? {
      if !LeadsWithOperand(e.expression) {
        SafeValue(e.expression, k);
      }
    } else if e.And? || e.Or? {
      SafeBooleanGroup(e, k);
      SafeOrReads(e, ")" + k);
    }
  }

  lemma {:induction false} SafeAndReads(e: FilterExpression, k: string)
    requires Writable(e) && SafeAnd(e) && Follows(k)
    ensures ReadsAnd(e, k)
    decreases e, Level(e, 1)
  {
    if e.And? {
      ConditionLead(e.second);
      Connective("&&", PrintAnd(e.second), k);
      SafeConditionReads(e.first, Joined("&&", PrintAnd(e.second), k));
      SafeAndReads(e.second, k);
    } else {
      SafeConditionReads(e, k);
    }
  }

  lemma {:induction false} SafeOrReads(e: FilterExpression, k: string)
    requires Writable(e) && SafeOr(e) && Follows(k)
    ensures ReadsOr(e, k)
    decreases e, Level(e, 2)
  {
    if e.Or? {
      ConditionLead(e.second);
      Connective("||", PrintOr(e.second), k);
      SafeAndReads(e.first, Joined("||", PrintOr(e.second), k));
      SafeOrReads(e.second, k);
    } else {
      SafeAndReads(e, k);
    }
  }

  /** A clause that is safe in this sense is read back whole. */
  lemma SafeRoundTrip(e: FilterExpression)
    requires Writable(e) && SafeOr(e)
    ensures ParseFilter("FILTER" + ("(" + (PrintOr(e) + ")"))) == Success(e, "")
  {
    SafeOrReads(e, ")");
    ClauseReadExactly(e);
  }
}
