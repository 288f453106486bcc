/** Filter clauses as they are typed: which operators, names and connectives the parser knows, where white space may
    stand, and how the connectives and the arithmetic signs bind. */
module ClauseTexts {
  import opened TermText
  import opened ArithmeticGrammar
  import opened ArithmeticRoundTrip
  import opened FilterGrammar
  import opened FilterTexts
  import opened FilterRoundTrip
  import opened ClosingParentheses

  // ---------------------------------------------------------------- nothing but the known names is parsed

  /** Every comparison has one of the six operators, and every call one of the five names. */
  predicate KnownNames(e: FilterExpression) {
    match e
    case Comparison(_, op, _) => IsComparator(op)
    case And(a, b) => KnownNames(a) && KnownNames(b)
    case Or(a, b) => KnownNames(a) && KnownNames(b)
    case Not(a) => KnownNames(a)
    case Value(_) => true
    case Call(name, args) => IsCallName(name) && args != []
  }

  predicate Known(r: Parsed<FilterExpression>) {
    r.Success? ==> KnownNames(r.value)
  }

  lemma {:induction false} ArgumentsKept(args: seq<string>, s: string)
    ensures |ParseArguments(args, s).value| >= |args|
    decreases |s|
  {
    var comma := ParseChar(',', Skip(s));
    if comma.Success? {
      var next := ParseArgument(Skip(comma.rest));
      if next.Success? {
        ArgumentsKept(args + [next.value], next.rest);
      }
    }
  }

  lemma CallKnown(s: string)
    ensures Known(ParseCall(s))
  {
    OperatorsAre();
    if ParseCall(s).Success? {
      var name := ParseTags(CALL_NAMES, Skip(s));
      var open := ParseChar('(', Skip(name.rest));
      var first := ParseArgument(Skip(open.rest));
      ArgumentsKept([first.value], first.rest);
    }
  }

  lemma ComparisonKnown(s: string)
    ensures Known(ParseComparison(s)) && Known(ParseArithmeticComparison(s))
  {
    OperatorsAre();
  }

  lemma {:induction false} ConditionKnown(s: string)
    ensures Known(ParseCondition(s))
    decreases |s|, 2
  {
    CallKnown(s);
    ComparisonKnown(s);
    var open, bang := ParseChar('(', Skip(s)), ParseChar('!', Skip(s));
    if open.Success? {
      OrKnown(open.rest);
    }
    if bang.Success? {
      ConditionKnown(Skip(bang.rest));
    }
  }

  lemma {:induction false} AndKnown(s: string)
    ensures Known(ParseAnd(s))
    decreases |s|, 3
  {
    ConditionKnown(s);
    var left := ParseCondition(s);
    if left.Success? {
      var tag := ParseTag("&&", Skip(left.rest));
      if tag.Success? {
        AndKnown(Skip(tag.rest));
      }
    }
  }

  lemma {:induction false} OrKnown(s: string)
    ensures Known(ParseOr(s))
    decreases |s|, 4
  {
    AndKnown(s);
    var left := ParseAnd(s);
    if left.Success? {
      var tag := ParseTag("||", Skip(left.rest));
      if tag.Success? {
        OrKnown(Skip(tag.rest));
      }
    }
  }

  /** Whatever is parsed, from whatever text, has no other operator and no other name. */
  lemma ClauseKnown(s: string)
    ensures Known(ParseFilter(s))
  {
    var keyword := ParseTag("FILTER", s);
    if keyword.Success? {
      var open := ParseChar('(', Skip(keyword.rest));
      if open.Success? {
        OrKnown(open.rest);
      }
    }
  }

  // ---------------------------------------------------------------- white space

  /** Blanks, tabs and line breaks. */
  predicate Blanks(w: string) {
    forall i | 0 <= i < |w| :: w[i] == ' ' || w[i] == '\t' || w[i] == '\r' || w[i] == '\n'
  }

  lemma {:induction false} SkipBlanks(w: string, s: string)
    requires Blanks(w) && (s == [] || !IsSpace(s[0]))
    ensures Skip(w + s) == s
  {
    if w == [] {
      assert w + s == s;
      SkipNothing(s);
    } else {
      assert (w + s)[1..] == w[1..] + s;
      SkipBlanks(w[1..], s);
    }
  }

  /** A variable, a run of digits, or a quoted text. */
  predicate IsSide(text: string) {
    Printable(text) && !IsDecimal(text)
  }

  lemma BlanksEnd(w: string, t: string)
    requires Blanks(w) && Ends(t)
    ensures Ends(w + t)
  {
    assert w + t != [] ==> (w + t)[0] == if w == [] then t[0] else w[0];
  }

  /** One side of a comparison with white space in front of it. */
  lemma SideTyped(w: string, text: string, k: string)
    requires Blanks(w) && IsSide(text) && Ends(k)
    ensures ParseAtom(IsDigit, Skip(w + (PrintOperand(text) + k))) == Success(text, k)
  {
    OperandHere(text, k);
    SkipBlanks(w, PrintOperand(text) + k);
    DigitsPrinted(text, k);
  }

  lemma OperatorBetween(w: string, op: string, y: string)
    requires Blanks(w) && IsComparator(op) && (y == [] || y[0] != '=')
    ensures ParseOperator(Skip(w + (op + y))) == Success(op, y) && Ends(w + (op + y))
  {
    ComparatorBegins(op);
    OperatorTyped(op, y);
    var t := op + y;
    assert t[0] == op[0];
    SkipBlanks(w, t);
    BlanksEnd(w, t);
  }

  /** A comparison may have white space around each of its parts, or none at all. */
  lemma ComparisonTyped(w: string, l: string, w': string, op: string, w'': string, r: string, k: string)
    requires Blanks(w) && Blanks(w') && Blanks(w'') && IsSide(l) && IsComparator(op) && IsSide(r) && Ends(k)
    ensures ParseComparison(w + (PrintOperand(l) + (w' + (op + (w'' + (PrintOperand(r) + k))))))
         == Success(Comparison(l, op, r), Skip(k))
  {
    var b := w'' + (PrintOperand(r) + k);
    var a := w' + (op + b);
    OperandHere(r, k);
    assert b[0] == if w'' == [] then (PrintOperand(r) + k)[0] else w''[0];
    SideTyped(w'', r, k);
    OperatorBetween(w', op, b);
    SideTyped(w, l, a);
    ComparisonSteps(w + (PrintOperand(l) + a), l, a, op, b, r, k);
  }

  lemma NotACallBehind(w: string, text: string, k: string)
    requires Blanks(w) && Printable(text)
    ensures ParseCall(w + (PrintOperand(text) + k)).Failure?
  {
    OperandHere(text, k);
    SkipBlanks(w, PrintOperand(text) + k);
    assert (PrintOperand(text) + k)[0] == PrintOperand(text)[0];
    NotACall(w + (PrintOperand(text) + k));
  }

  /** The clause is read with any of the six operators, whatever white space stands between its parts. */
  lemma ClauseTyped(w0: string, w1: string, l: string, w2: string, op: string, w3: string, r: string, w4: string)
    requires Blanks(w0) && Blanks(w1) && Blanks(w2) && Blanks(w3) && Blanks(w4) && IsSide(l) && IsSide(r)
    requires op in {"=", "!=", ">", ">=", "<", "<="}
    ensures ParseFilter("FILTER" + w0 + "(" + w1 + PrintOperand(l) + w2 + op + w3 + PrintOperand(r) + w4 + ")")
         == Success(Comparison(l, op, r), "")
  {
    var k := w4 + ")";
    var rest := w2 + (op + (w3 + (PrintOperand(r) + k)));
    var body := w1 + (PrintOperand(l) + rest);
    BlanksEnd(w4, ")");
    ComparisonTyped(w1, l, w2, op, w3, r, k);
    NotACallBehind(w1, l, rest);
    SkipBlanks(w4, ")");
    SkipBlanks(w0, "(" + body);
    KeywordRead(w0, body);
    OneCondition(body, Comparison(l, op, r));
    ClauseText(w0, w1, PrintOperand(l), w2, op, w3, PrintOperand(r), w4);
  }

  lemma ClauseText(w0: string, w1: string, l: string, w2: string, op: string, w3: string, r: string, w4: string)
    ensures "FILTER" + w0 + "(" + w1 + l + w2 + op + w3 + r + w4 + ")"
         == "FILTER" + (w0 + ("(" + (w1 + (l + (w2 + (op + (w3 + (r + (w4 + ")")))))))))
  {
    var k := w4 + ")";
    var b := w3 + (r + k);
    var a := w2 + (op + b);
    assert w3 + r + w4 + ")" == b;
    assert w2 + op + b == a;
    var front := "FILTER" + w0 + "(" + w1 + l;
    assert front + w2 + op + w3 + r + w4 + ")" == front + a;
    assert front + a == "FILTER" + (w0 + ("(" + (w1 + (l + a))));
  }

  lemma KeywordRead(w: string, body: string)
    requires Skip(w + ("(" + body)) == "(" + body
    ensures ParseFilter("FILTER" + (w + ("(" + body))) ==
      var e := ParseOr(body);
      if e.Failure? then Failure else
      var close := ParseChar(')', e.rest);
      if close.Failure? then Failure else Success(e.value, close.rest)
  {
    var s := "FILTER" + (w + ("(" + body));
    assert s[..6] == "FILTER" && s[6..] == w + ("(" + body) && ("(" + body)[1..] == body;
  }

  lemma OneCondition(body: string, e: FilterExpression)
    requires ParseCondition(body) == Success(e, ")")
    ensures ParseOr(body) == Success(e, ")")
  {
    PassedUp(e, body, ")");
  }

  // ---------------------------------------------------------------- connectives

  /** A variable compared with another variable or with a whole number. */
  predicate IsSimple(e: FilterExpression) {
    && e.Comparison? && IsVariableText(e.left) && IsComparator(e.op)
    && (IsVariableText(e.right) || (IsNumberText(e.right) && !HasPoint(e.right)))
  }

  function Typed(e: FilterExpression): string
    requires e.Comparison?
  {
    e.left + " " + e.op + " " + e.right
  }

  predicate ReadsAs(text: string, e: FilterExpression) {
    ParseFilter("FILTER(" + text + ")") == Success(e, "")
  }

  // Printed texts, put together: conditions, conjunctions, disjunctions.

  predicate IsCondition(e: FilterExpression, x: string) {
    PrintCondition(e) == x && Writable(e) && AllPlain(e) && SafeCondition(e)
  }

  predicate IsConjunction(e: FilterExpression, x: string) {
    PrintAnd(e) == x && Writable(e) && AllPlain(e) && SafeAnd(e)
  }

  predicate IsDisjunction(e: FilterExpression, x: string) {
    PrintOr(e) == x && Writable(e) && AllPlain(e) && SafeOr(e)
  }

  lemma Alone(e: FilterExpression, x: string)
    requires IsCondition(e, x) && !e.And? && !e.Or?
    ensures IsConjunction(e, x) && IsDisjunction(e, x)
  {
  }

  lemma Negated(e: FilterExpression, x: string)
    requires IsCondition(e, x)
    ensures IsCondition(Not(e), "!" + x)
  {
  }

  lemma Both(a: FilterExpression, b: FilterExpression, x: string, y: string)
    requires IsCondition(a, x) && IsConjunction(b, y)
    ensures IsConjunction(And(a, b), x + " && " + y) && IsDisjunction(And(a, b), x + " && " + y)
  {
  }

  lemma Either(a: FilterExpression, b: FilterExpression, x: string, y: string)
    requires IsConjunction(a, x) && IsDisjunction(b, y)
    ensures IsDisjunction(Or(a, b), x + " || " + y)
  {
  }

  lemma InParentheses(e: FilterExpression, x: string)
    requires IsDisjunction(e, x) && (e.And? || e.Or?)
    ensures IsCondition(e, "(" + x + ")")
  {
    PrintGroups(e);
  }

  lemma ReadWhole(e: FilterExpression, x: string)
    requires IsDisjunction(e, x)
    ensures ReadsAs(x, e)
  {
    SafeRoundTrip(e);
    assert "FILTER(" == "FILTER" + "(";
    assert "FILTER(" + x + ")" == "FILTER" + ("(" + (x + ")"));
  }

  lemma SimpleText(e: FilterExpression)
    requires IsSimple(e)
    ensures IsCondition(e, Typed(e)) && IsConjunction(e, Typed(e)) && IsDisjunction(e, Typed(e))
  {
    assert forall i | 0 <= i < |e.left| :: e.left[i] != ')' && e.left[i] != '"';
    assert forall i | 0 <= i < |e.right| :: e.right[i] != ')' && e.right[i] != '"';
    assert e.left + (" " + (e.op + (" " + e.right))) == Typed(e);
    Alone(e, Typed(e));
  }

  /** The three connectives. */
  lemma ConnectivesRead(a: FilterExpression, b: FilterExpression)
    requires IsSimple(a) && IsSimple(b)
    ensures ReadsAs(Typed(a) + " && " + Typed(b), And(a, b))
    ensures ReadsAs(Typed(a) + " || " + Typed(b), Or(a, b))
    ensures ReadsAs("!" + Typed(a), Not(a))
    ensures ReadsAs("!" + ("(" + (Typed(a) + " && " + Typed(b)) + ")"), Not(And(a, b)))
  {
    SimpleText(a);
    SimpleText(b);
    Both(a, b, Typed(a), Typed(b));
    ReadWhole(And(a, b), Typed(a) + " && " + Typed(b));
    Either(a, b, Typed(a), Typed(b));
    ReadWhole(Or(a, b), Typed(a) + " || " + Typed(b));
    NegationRead(a, Typed(a));
    InParentheses(And(a, b), Typed(a) + " && " + Typed(b));
    NegationRead(And(a, b), "(" + (Typed(a) + " && " + Typed(b)) + ")");
  }

  lemma NegationRead(e: FilterExpression, x: string)
    requires IsCondition(e, x)
    ensures ReadsAs("!" + x, Not(e))
  {
    Negated(e, x);
    Alone(Not(e), "!" + x);
    ReadWhole(Not(e), "!" + x);
  }

  /** Conjunction binds tighter than disjunction, both group to the right, and parentheses overrule that. */
  lemma ConnectivesBind(a: FilterExpression, b: FilterExpression, c: FilterExpression)
    requires IsSimple(a) && IsSimple(b) && IsSimple(c)
    ensures ReadsAs((Typed(a) + " && " + Typed(b)) + " || " + Typed(c), Or(And(a, b), c))
    ensures ReadsAs(Typed(a) + " || " + (Typed(b) + " && " + Typed(c)), Or(a, And(b, c)))
    ensures ReadsAs(Typed(a) + " && " + (Typed(b) + " && " + Typed(c)), And(a, And(b, c)))
    ensures ReadsAs(Typed(a) + " || " + (Typed(b) + " || " + Typed(c)), Or(a, Or(b, c)))
    ensures ReadsAs("(" + (Typed(a) + " || " + Typed(b)) + ")" + " && " + Typed(c), And(Or(a, b), c))
  {
    var x, y, z := Typed(a), Typed(b), Typed(c);
    SimpleText(a);
    SimpleText(b);
    SimpleText(c);
    Both(a, b, x, y);
    Both(b, c, y, z);
    Either(a, b, x, y);
    Either(b, c, y, z);
    ReadEither(And(a, b), c, x + " && " + y, z);
    ReadEither(a, And(b, c), x, y + " && " + z);
    ReadEither(a, Or(b, c), x, y + " || " + z);
    ReadBoth(a, And(b, c), x, y + " && " + z);
    InParentheses(Or(a, b), x + " || " + y);
    ReadBoth(Or(a, b), c, "(" + (x + " || " + y) + ")", z);
  }

  lemma ReadEither(a: FilterExpression, b: FilterExpression, x: string, y: string)
    requires IsConjunction(a, x) && IsDisjunction(b, y)
    ensures ReadsAs(x + " || " + y, Or(a, b))
  {
    Either(a, b, x, y);
    ReadWhole(Or(a, b), x + " || " + y);
  }

  lemma ReadBoth(a: FilterExpression, b: FilterExpression, x: string, y: string)
    requires IsCondition(a, x) && IsConjunction(b, y)
    ensures ReadsAs(x + " && " + y, And(a, b))
  {
    Both(a, b, x, y);
    ReadWhole(And(a, b), x + " && " + y);
  }

  lemma VariableIsPlain(a: string)
    requires IsVariableText(a)
    ensures Plain(a) && PrintArgument(a) == a
  {
    assert forall i | 0 <= i < |a| :: a[i] != ')' && a[i] != '"';
  }

  lemma CallText(name: string, args: seq<string>, x: string)
    requires IsCallName(name) && args != [] && (forall a | a in args :: Plain(a)) && PrintArguments(args) == x
    ensures IsCondition(Call(name, args), name + ("(" + (x + ")")))
  {
  }

  lemma CallReadWhole(name: string, args: seq<string>, x: string)
    requires IsCallName(name) && args != [] && (forall a | a in args :: Plain(a)) && PrintArguments(args) == x
    ensures ReadsAs(name + ("(" + (x + ")")), Call(name, args))
    ensures ReadsAs("!" + (name + ("(" + (x + ")"))), Not(Call(name, args)))
  {
    var text := name + ("(" + (x + ")"));
    CallText(name, args, x);
    Alone(Call(name, args), text);
    ReadWhole(Call(name, args), text);
    NegationRead(Call(name, args), text);
  }

  lemma ArgumentTexts(a: string, b: string, c: string)
    requires IsVariableText(a) && IsVariableText(b) && IsVariableText(c)
    ensures PrintArguments([a]) == a && PrintArguments([a, b, c]) == a + ", " + b + ", " + c
  {
    VariableIsPlain(a);
    VariableIsPlain(b);
    VariableIsPlain(c);
    MoreTexts(PrintArgument(a), a, b, c);
  }

  lemma MoreTexts(x: string, a: string, b: string, c: string)
    requires PrintArgument(a) == x && PrintArgument(b) == b && PrintArgument(c) == c
    ensures PrintArguments([a]) == x && PrintArguments([a, b, c]) == x + ", " + b + ", " + c
  {
    assert [a][1..] == [] && [a, b, c][1..] == [b, c] && [b, c][1..] == [c] && [c][1..] == [];
    assert PrintMore([c]) == ", " + (c + "") == ", " + c;
    assert PrintMore([b, c]) == ", " + (b + (", " + c));
    assert x + (", " + (b + (", " + c))) == x + ", " + b + ", " + c;
  }

  /** The calls on quoted triples, with variables as arguments. */
  lemma CallTyped(name: string, a: string, b: string, c: string)
    requires name in {"isTRIPLE", "TRIPLE", "SUBJECT", "PREDICATE", "OBJECT"}
    requires IsVariableText(a) && IsVariableText(b) && IsVariableText(c)
    ensures ReadsAs(name + ("(" + (a + ")")), Call(name, [a]))
    ensures ReadsAs("!" + (name + ("(" + (a + ")"))), Not(Call(name, [a])))
    ensures ReadsAs(name + ("(" + (a + ", " + b + ", " + c + ")")), Call(name, [a, b, c]))
  {
    VariableIsPlain(a);
    VariableIsPlain(b);
    VariableIsPlain(c);
    ArgumentTexts(a, b, c);
    CallReadWhole(name, [a], a);
    CallReadWhole(name, [a, b, c], a + ", " + b + ", " + c);
  }

  // ---------------------------------------------------------------- arithmetic signs

  predicate IsNumberOrVariable(text: string) {
    IsVariableText(text) || IsNumberText(text)
  }

  lemma OperandText(a: string)
    requires IsNumberOrVariable(a)
    ensures WellFormed(Operand(a))
    ensures PrintTerm(Operand(a)) == a && PrintFactor(Operand(a)) == a && PrintExpression(Operand(a)) == a
  {
  }

  predicate Means(text: string, e: Arithmetic) {
    ParseExpression(text) == Success(e, "")
  }

  /** The four signs, and which of them bind tighter. */
  lemma SignsBind(a: string, b: string, c: string)
    requires IsNumberOrVariable(a) && IsNumberOrVariable(b) && IsNumberOrVariable(c)
    ensures var x, y, z := Operand(a), Operand(b), Operand(c);
      && Means(a + " + " + b, Add(x, y)) && Means(a + " - " + b, Subtract(x, y))
      && Means(a + " * " + b, Multiply(x, y)) && Means(a + " / " + b, Divide(x, y))
      && Means(a + " + " + (b + " * " + c), Add(x, Multiply(y, z)))
      && Means(a + " * " + b + " - " + c, Subtract(Multiply(x, y), z))
      && Means(a + " - " + b + " - " + c, Subtract(Subtract(x, y), z))
      && Means(a + " / " + b + " / " + c, Divide(Divide(x, y), z))
  {
    OperandText(a);
    OperandText(b);
    OperandText(c);
    var x, y, z := Operand(a), Operand(b), Operand(c);
    ExpressionRoundTrip(Add(x, y));
    ExpressionRoundTrip(Subtract(x, y));
    ExpressionRoundTrip(Multiply(x, y));
    ExpressionRoundTrip(Divide(x, y));
    ExpressionRoundTrip(Add(x, Multiply(y, z)));
    ExpressionRoundTrip(Subtract(Multiply(x, y), z));
    ExpressionRoundTrip(Subtract(Subtract(x, y), z));
    ExpressionRoundTrip(Divide(Divide(x, y), z));
  }

  /** Parentheses overrule the binding. */
  lemma GroupsBind(a: string, b: string, c: string)
    requires IsNumberOrVariable(a) && IsNumberOrVariable(b) && IsNumberOrVariable(c)
    ensures var x, y, z := Operand(a), Operand(b), Operand(c);
      && Means("(" + (a + " + " + b) + ")" + " * " + c, Multiply(Add(x, y), z))
      && Means(a + " - " + ("(" + (b + " - " + c) + ")"), Subtract(x, Subtract(y, z)))
      && Means(a + " / " + ("(" + (b + " * " + c) + ")"), Divide(x, Multiply(y, z)))
  {
    OperandText(a);
    OperandText(b);
    OperandText(c);
    var x, y, z := Operand(a), Operand(b), Operand(c);
    assert PrintTerm(Add(x, y)) == "(" + (a + " + " + b) + ")";
    assert PrintTerm(Subtract(y, z)) == "(" + (b + " - " + c) + ")";
    assert PrintTerm(Multiply(y, z)) == "(" + (b + " * " + c) + ")";
    assert PrintFactor(Subtract(y, z)) == PrintTerm(Subtract(y, z)) && PrintFactor(Add(x, y)) == PrintTerm(Add(x, y));
    ExpressionRoundTrip(Multiply(Add(x, y), z));
    ExpressionRoundTrip(Subtract(x, Subtract(y, z)));
    ExpressionRoundTrip(Divide(x, Multiply(y, z)));
  }
}
