/** What filters mean: the connectives on lists of filters, comparisons of whole numbers and of texts, the arithmetic
    signs, bare values, and the test for quoted triples. */
module FilterMeaning {
  import opened Options
  import opened Bags
  import opened SolutionMappings
  import opened PatternJoin
  import BasicGraphPattern
  import opened TermText
  import opened ArithmeticGrammar
  import opened ArithmeticRoundTrip
  import opened FilterGrammar
  import opened FilterTexts
  import opened ClauseTexts
  import opened FilterEvaluation
  import opened FilterSides

  // ---------------------------------------------------------------- connectives

  lemma PassesOne<N>(n: Numbers<N>, f: FilterExpression, row: Row)
    ensures Passes(n, [f])(row) == HoldsOnTop(n, row, f)
  {
    assert f in [f];
  }

  lemma PassesBoth<N>(n: Numbers<N>, fs: seq<FilterExpression>, gs: seq<FilterExpression>, row: Row)
    ensures Passes(n, fs + gs)(row) == (Passes(n, fs)(row) && Passes(n, gs)(row))
  {
    assert forall f | f in fs :: f in fs + gs;
    assert forall g | g in gs :: g in fs + gs;
  }

  /** A list of filters is applied by applying one part of it after the other. */
  lemma FilterLists<N>(n: Numbers<N>, fs: seq<FilterExpression>, gs: seq<FilterExpression>, rows: seq<Row>)
    ensures Filter(Passes(n, fs + gs), rows) == Filter(Passes(n, gs), Filter(Passes(n, fs), rows))
    ensures Filter(Passes(n, []), rows) == rows
  {
    forall row ensures Passes(n, fs + gs)(row) == (Passes(n, fs)(row) && Passes(n, gs)(row)) {
      PassesBoth(n, fs, gs, row);
    }
    FilterTwice(Passes(n, fs), Passes(n, gs), Passes(n, fs + gs), rows);
    FilterAll(Passes(n, []), rows);
  }

  lemma TwoFilters<N>(n: Numbers<N>, a: FilterExpression, b: FilterExpression, row: Row)
    ensures Passes(n, [a, b])(row) == (HoldsOnTop(n, row, a) && HoldsOnTop(n, row, b))
  {
    assert a in [a, b] && b in [a, b];
  }

  lemma NegatedTwice<N>(n: Numbers<N>, a: FilterExpression, row: Row)
    ensures HoldsOnTop(n, row, Not(a)) == !Holds(n, row, a)
    ensures HoldsOnTop(n, row, Not(Not(a))) == Holds(n, row, a)
  {
    assert Holds(n, row, Not(Not(a))) == !Holds(n, row, Not(a));
  }

  /** A conjunction filters like its two parts do, one after the other; a comparison is put below a connective by
      negating it twice. */
  lemma ConjunctionFilters<N>(n: Numbers<N>, a: FilterExpression, b: FilterExpression, rows: seq<Row>)
    ensures Filter(Passes(n, [And(a, b)]), rows) == Filter(Passes(n, [Not(Not(a)), Not(Not(b))]), rows)
    ensures !a.Comparison? && !b.Comparison? ==>
      Filter(Passes(n, [And(a, b)]), rows) == Filter(Passes(n, [a, b]), rows)
  {
    forall row
      ensures Passes(n, [And(a, b)])(row) == Passes(n, [Not(Not(a)), Not(Not(b))])(row)
      ensures !a.Comparison? && !b.Comparison? ==> Passes(n, [And(a, b)])(row) == Passes(n, [a, b])(row)
    {
      PassesOne(n, And(a, b), row);
      NegatedTwice(n, a, row);
      NegatedTwice(n, b, row);
      TwoFilters(n, a, b, row);
      TwoFilters(n, Not(Not(a)), Not(Not(b)), row);
    }
    FilterCongruent(Passes(n, [And(a, b)]), Passes(n, [Not(Not(a)), Not(Not(b))]), rows);
    if !a.Comparison? && !b.Comparison? {
      FilterCongruent(Passes(n, [And(a, b)]), Passes(n, [a, b]), rows);
    }
  }

  /** A negation keeps exactly the rows that the filter drops. */
  lemma NegationFilters<N>(n: Numbers<N>, a: FilterExpression, rows: seq<Row>)
    requires !a.Comparison?
    ensures Filter(Passes(n, [Not(a)]), rows) == Filter((row: Row) => !Passes(n, [a])(row), rows)
  {
    forall row ensures Passes(n, [Not(a)])(row) == !Passes(n, [a])(row) {
      PassesOne(n, Not(a), row);
      PassesOne(n, a, row);
    }
    FilterCongruent(Passes(n, [Not(a)]), (row: Row) => !Passes(n, [a])(row), rows);
  }

  /** What fails a disjunction fails both of its parts. */
  lemma DisjunctionFilters<N>(n: Numbers<N>, a: FilterExpression, b: FilterExpression, rows: seq<Row>)
    ensures Filter(Passes(n, [Not(Or(a, b))]), rows) == Filter(Passes(n, [Not(a), Not(b)]), rows)
  {
    forall row ensures Passes(n, [Not(Or(a, b))])(row) == Passes(n, [Not(a), Not(b)])(row) {
      PassesOne(n, Not(Or(a, b)), row);
      NegatedTwice(n, Or(a, b), row);
      TwoFilters(n, Not(a), Not(b), row);
    }
    FilterCongruent(Passes(n, [Not(Or(a, b))]), Passes(n, [Not(a), Not(b)]), rows);
  }

  // ---------------------------------------------------------------- values of sides

  /** A variable bound to a number, or a number. */
  predicate HasValue<N(==)>(n: Numbers<N>, row: Row, text: string, x: N) {
    if IsVariableText(text) then text in row && n.float(row[text]) == Some(x)
    else IsNumberText(text) && n.float(text) == Some(x)
  }

  lemma VariableSide<N>(n: Numbers<N>, row: Row, v: string)
    requires IsVariableText(v)
    ensures EvaluateText(n, row, v) == if v in row then n.float(row[v]) else None
  {
    OperandText(v);
    ExpressionRoundTrip(Operand(v));
  }

  lemma OperandValue<N>(n: Numbers<N>, row: Row, text: string, x: N)
    requires HasValue(n, row, text, x)
    ensures EvaluateArithmetic(n, row, Operand(text)) == Some(x)
  {
  }

  lemma SideValue<N>(n: Numbers<N>, row: Row, text: string, x: N)
    requires HasValue(n, row, text, x)
    ensures EvaluateText(n, row, text) == Some(x)
  {
    if IsVariableText(text) {
      VariableSide(n, row, text);
    } else {
      assert forall i | 0 <= i < |text| :: text[i] !in "+-*/";
    }
  }

  lemma GroupedValue<N>(n: Numbers<N>, row: Row, text: string, e: Arithmetic)
    requires Means(text, e) && HasOperator(text)
    ensures EvaluateText(n, row, "(" + text + ")") == EvaluateArithmetic(n, row, e)
    ensures HasOperator("(" + text + ")")
  {
    var s := "(" + text + ")";
    assert s[1..|s| - 1] == text;
    OperatorInside(text);
  }

  function Sign(op: Operation): string {
    match op
    case Plus => " + "
    case Minus => " - "
    case Times => " * "
    case Over => " / "
  }

  function Operated(op: Operation, l: Arithmetic, r: Arithmetic): Arithmetic {
    match op
    case Plus => Add(l, r)
    case Minus => Subtract(l, r)
    case Times => Multiply(l, r)
    case Over => Divide(l, r)
  }

  lemma SignInText(a: string, op: Operation, b: string)
    ensures HasOperator(a + Sign(op) + b) && HasOperator("(" + (a + Sign(op) + b) + ")")
  {
    assert Sign(op)[1] in "+-*/" && (a + Sign(op) + b)[|a| + 1] == Sign(op)[1];
    OperatorInside(a + Sign(op) + b);
  }

  lemma SignMeans(a: string, op: Operation, b: string)
    requires IsNumberOrVariable(a) && IsNumberOrVariable(b)
    ensures Means(a + Sign(op) + b, Operated(op, Operand(a), Operand(b)))
  {
    SignsBind(a, b, b);
  }

  lemma SignedValue<N>(n: Numbers<N>, row: Row, a: string, op: Operation, b: string)
    requires IsNumberOrVariable(a) && IsNumberOrVariable(b)
    ensures EvaluateText(n, row, "(" + (a + Sign(op) + b) + ")")
         == EvaluateArithmetic(n, row, Operated(op, Operand(a), Operand(b)))
  {
    SignMeans(a, op, b);
    SignInText(a, op, b);
    GroupedValue(n, row, a + Sign(op) + b, Operated(op, Operand(a), Operand(b)));
  }

  /** The text of an operation, in parentheses, has the value of the machine's operation; division by zero has none. */
  lemma SignValue<N>(n: Numbers<N>, row: Row, a: string, op: Operation, b: string, x: N, y: N)
    requires HasValue(n, row, a, x) && HasValue(n, row, b, y)
    ensures EvaluateText(n, row, "(" + (a + Sign(op) + b) + ")") == match op
      case Plus => Some(n.plus(x, y))
      case Minus => Some(n.minus(x, y))
      case Times => Some(n.times(x, y))
      case Over => if n.isZero(y) then None else Some(n.over(x, y))
  {
    SignedValue(n, row, a, op, b);
    OperationValue(n, row, a, op, b, x, y);
  }

  lemma OperationValue<N>(n: Numbers<N>, row: Row, a: string, op: Operation, b: string, x: N, y: N)
    requires HasValue(n, row, a, x) && HasValue(n, row, b, y)
    ensures EvaluateArithmetic(n, row, Operated(op, Operand(a), Operand(b))) == match op
      case Plus => Some(n.plus(x, y))
      case Minus => Some(n.minus(x, y))
      case Times => Some(n.times(x, y))
      case Over => if n.isZero(y) then None else Some(n.over(x, y))
  {
    OperandValue(n, row, a, x);
    OperandValue(n, row, b, y);
  }

  // ---------------------------------------------------------------- comparisons of numbers

  /** The outcome of a comparison of two machine numbers under each operator. */
  lemma NumbersCompared<N>(n: Numbers<N>, row: Row, l: string, r: string, x: N, y: N)
    requires EvaluateText(n, row, l) == Some(x) && EvaluateText(n, row, r) == Some(y) && HasOperator(l)
    ensures Passes(n, [Comparison(l, "=", r)])(row) <==> n.equal(x, y)
    ensures Passes(n, [Comparison(l, "!=", r)])(row) <==> !n.equal(x, y)
    ensures Passes(n, [Comparison(l, ">", r)])(row) <==> n.greater(x, y)
    ensures Passes(n, [Comparison(l, ">=", r)])(row) <==> n.atLeast(x, y)
    ensures Passes(n, [Comparison(l, "<", r)])(row) <==> n.greater(y, x)
    ensures Passes(n, [Comparison(l, "<=", r)])(row) <==> n.atLeast(y, x)
  {
    PassesOne(n, Comparison(l, "=", r), row);
    PassesOne(n, Comparison(l, "!=", r), row);
    PassesOne(n, Comparison(l, ">", r), row);
    PassesOne(n, Comparison(l, ">=", r), row);
    PassesOne(n, Comparison(l, "<", r), row);
    PassesOne(n, Comparison(l, "<=", r), row);
  }

  /** A side without a value fails every comparison with a sign in it. */
  lemma NoValueFails<N>(n: Numbers<N>, row: Row, l: string, op: string, r: string)
    requires HasOperator(l) || HasOperator(r)
    requires EvaluateText(n, row, l).None? || EvaluateText(n, row, r).None?
    ensures !Passes(n, [Comparison(l, op, r)])(row)
  {
    PassesOne(n, Comparison(l, op, r), row);
  }

  /** A sum, a difference, a product or a quotient against a bound. */
  lemma OperationCompared<N>(n: Numbers<N>, row: Row, a: string, op: Operation, b: string, c: string, x: N, y: N, z: N)
    requires HasValue(n, row, a, x) && HasValue(n, row, b, y) && HasValue(n, row, c, z)
    ensures Passes(n, [Comparison("(" + (a + Sign(op) + b) + ")", ">", c)])(row) <==> match op
      case Plus => n.greater(n.plus(x, y), z)
      case Minus => n.greater(n.minus(x, y), z)
      case Times => n.greater(n.times(x, y), z)
      case Over => !n.isZero(y) && n.greater(n.over(x, y), z)
  {
    var side := "(" + (a + Sign(op) + b) + ")";
    SignValue(n, row, a, op, b, x, y);
    SideValue(n, row, c, z);
    SignInText(a, op, b);
    var value := EvaluateText(n, row, side);
    if value.None? {
      NoValueFails(n, row, side, ">", c);
    } else {
      NumbersCompared(n, row, side, c, value.value, z);
    }
  }

  lemma ThreeOperandsMean(a: string, b: string, c: string)
    requires IsNumberOrVariable(a) && IsNumberOrVariable(b) && IsNumberOrVariable(c)
    ensures var x, y, z := Operand(a), Operand(b), Operand(c);
      && Means(a + " + " + (b + " * " + c), Add(x, Multiply(y, z)))
      && Means(a + " - " + b + " - " + c, Subtract(Subtract(x, y), z))
  {
    SignsBind(a, b, c);
  }

  lemma ThreeOperandsValue<N>(n: Numbers<N>, row: Row, a: string, b: string, c: string, x: N, y: N, z: N)
    requires HasValue(n, row, a, x) && HasValue(n, row, b, y) && HasValue(n, row, c, z)
    ensures var l, m, r := Operand(a), Operand(b), Operand(c);
      && EvaluateArithmetic(n, row, Add(l, Multiply(m, r))) == Some(n.plus(x, n.times(y, z)))
      && EvaluateArithmetic(n, row, Subtract(Subtract(l, m), r)) == Some(n.minus(n.minus(x, y), z))
  {
    OperandValue(n, row, a, x);
    OperandValue(n, row, b, y);
    OperandValue(n, row, c, z);
    var l, m, r := Operand(a), Operand(b), Operand(c);
    assert EvaluateArithmetic(n, row, Multiply(m, r)) == Some(n.times(y, z));
    assert EvaluateArithmetic(n, row, Subtract(l, m)) == Some(n.minus(x, y));
  }

  lemma TextCompared<N>(n: Numbers<N>, row: Row, text: string, e: Arithmetic, d: string, x: N, w: N)
    requires Means(text, e) && HasOperator(text) && EvaluateArithmetic(n, row, e) == Some(x) && HasValue(n, row, d, w)
    ensures Passes(n, [Comparison("(" + text + ")", ">", d)])(row) <==> n.greater(x, w)
  {
    SideValue(n, row, d, w);
    GroupedValue(n, row, text, e);
    NumbersCompared(n, row, "(" + text + ")", d, x, w);
  }

  /** Products bind tighter than sums, and operations of one kind group to the left. */
  lemma BindingCompared<N>(n: Numbers<N>, row: Row, a: string, b: string, c: string, d: string, x: N, y: N, z: N, w: N)
    requires HasValue(n, row, a, x) && HasValue(n, row, b, y) && HasValue(n, row, c, z) && HasValue(n, row, d, w)
    ensures Passes(n, [Comparison("(" + (a + " + " + (b + " * " + c)) + ")", ">", d)])(row)
      <==> n.greater(n.plus(x, n.times(y, z)), w)
    ensures Passes(n, [Comparison("(" + (a + " - " + b + " - " + c) + ")", ">", d)])(row)
      <==> n.greater(n.minus(n.minus(x, y), z), w)
  {
    ThreeOperandsMean(a, b, c);
    ThreeOperandsValue(n, row, a, b, c, x, y, z);
    var l, m, r := Operand(a), Operand(b), Operand(c);
    SignInText(a, Plus, b + " * " + c);
    SignInText(a + " - " + b, Minus, c);
    TextCompared(n, row, a + " + " + (b + " * " + c), Add(l, Multiply(m, r)), d, n.plus(x, n.times(y, z)), w);
    TextCompared(n, row, a + " - " + b + " - " + c, Subtract(Subtract(l, m), r), d, n.minus(n.minus(x, y), z), w);
  }

  /** An unbound variable in an operation fails every comparison. */
  lemma UnboundOperand<N>(n: Numbers<N>, row: Row, a: string, sign: Operation, b: string, op: string, c: string)
    requires IsVariableText(a) && IsNumberOrVariable(b) && a !in row
    ensures !Passes(n, [Comparison("(" + (a + Sign(sign) + b) + ")", op, c)])(row)
  {
    SignedValue(n, row, a, sign, b);
    SignInText(a, sign, b);
    NoOperandNoValue(n, row, Operand(a), sign, Operand(b));
    NoValueFails(n, row, "(" + (a + Sign(sign) + b) + ")", op, c);
  }

  lemma NoOperandNoValue<N>(n: Numbers<N>, row: Row, l: Arithmetic, op: Operation, r: Arithmetic)
    requires EvaluateArithmetic(n, row, l).None?
    ensures EvaluateArithmetic(n, row, Operated(op, l, r)).None?
  {
  }

  // ---------------------------------------------------------------- whole numbers

  /** The text of a whole number, possibly with a sign in front. */
  predicate IsWhole<N>(n: Numbers<N>, text: string, y: int) {
    n.integer(text) == Some(y) && (HasOperator(text) ==> text[0] == '-' || text[0] == '+')
  }

  /** A text that begins with none of the characters an operand begins with is no expression. */
  lemma NoExpression(text: string)
    requires text != [] && !IsSpace(text[0]) && text[0] != '?' && text[0] != '"' && text[0] != '('
        && !IsNumeric(text[0])
    ensures ParseExpression(text).Failure?
  {
    SkipNothing(text);
    assert ParseAtom(IsNumeric, text).Failure?;
    assert ParseOperand(text).Failure? && ParseGroup(text).Failure?;
    assert ParseTerm(text).Failure?;
    assert ParseFactor(text).Failure?;
  }

  lemma WholeSide<N>(n: Numbers<N>, row: Row, text: string, y: int)
    requires Consistent(n) && IsWhole(n, text, y)
    ensures EvaluateText(n, row, text) == n.float(text) && n.float(text).Some?
  {
    assert n.integer(text).Some?;
    if HasOperator(text) {
      NoExpression(text);
    }
  }

  /** The row binds the variable to the text of a whole number. */
  predicate Counts<N>(n: Numbers<N>, row: Row, v: string, x: int) {
    IsVariableText(v) && v in row && n.integer(row[v]) == Some(x)
  }

  lemma WholeValues<N>(n: Numbers<N>, row: Row, v: string, x: int, c: string, y: int)
    requires Consistent(n) && Counts(n, row, v, x) && IsWhole(n, c, y)
    ensures var a, b := EvaluateText(n, row, v), EvaluateText(n, row, c);
      && a.Some? && b.Some?
      && ComparesAlike(n, a.value, b.value, x, y) && ComparesAlike(n, b.value, a.value, y, x)
  {
    VariableSide(n, row, v);
    WholeSide(n, row, c, y);
    var s, t := row[v], c;
    assert n.integer(s).Some? && n.integer(t).Some?;
    assert ComparesAlike(n, n.float(s).value, n.float(t).value, n.integer(s).value, n.integer(t).value);
    assert ComparesAlike(n, n.float(t).value, n.float(s).value, n.integer(t).value, n.integer(s).value);
  }

  /** Whole numbers are compared as such, below a connective and at the top level. */
  lemma WholeNumbersCompared<N>(n: Numbers<N>, row: Row, v: string, x: int, c: string, y: int)
    requires Consistent(n) && Counts(n, row, v, x) && IsWhole(n, c, y)
    ensures Passes(n, [Comparison(v, "=", c)])(row) <==> x == y
    ensures Passes(n, [Comparison(v, "!=", c)])(row) <==> x != y
    ensures Passes(n, [Comparison(v, ">", c)])(row) <==> x > y
    ensures Passes(n, [Comparison(v, ">=", c)])(row) <==> x >= y
    ensures Passes(n, [Comparison(v, "<", c)])(row) <==> x < y
    ensures Passes(n, [Comparison(v, "<=", c)])(row) <==> x <= y
  {
    WholeValues(n, row, v, x, c, y);
    PassesOne(n, Comparison(v, "=", c), row);
    PassesOne(n, Comparison(v, "!=", c), row);
    PassesOne(n, Comparison(v, ">", c), row);
    PassesOne(n, Comparison(v, ">=", c), row);
    PassesOne(n, Comparison(v, "<", c), row);
    PassesOne(n, Comparison(v, "<=", c), row);
  }

  lemma WholeNumbersBelow<N>(n: Numbers<N>, row: Row, v: string, x: int, c: string, y: int)
    requires Consistent(n) && Counts(n, row, v, x) && IsWhole(n, c, y)
    ensures Holds(n, row, Comparison(v, "=", c)) <==> x == y
    ensures Holds(n, row, Comparison(v, "!=", c)) <==> x != y
    ensures Holds(n, row, Comparison(v, ">", c)) <==> x > y
    ensures Holds(n, row, Comparison(v, ">=", c)) <==> x >= y
    ensures Holds(n, row, Comparison(v, "<", c)) <==> x < y
    ensures Holds(n, row, Comparison(v, "<=", c)) <==> x <= y
  {
    WholeValues(n, row, v, x, c, y);
  }

  /** The clause that asks for a value between two bounds, from its text to the rows that pass; and the one that asks
      for a value outside of them. */
  lemma BetweenBounds<N>(n: Numbers<N>, row: Row, v: string, x: int, lo: string, l: int, hi: string, h: int)
    requires Consistent(n) && Counts(n, row, v, x) && IsWhole(n, lo, l) && IsWhole(n, hi, h)
    requires IsNumberText(lo) && !HasPoint(lo) && IsNumberText(hi) && !HasPoint(hi)
    ensures var inside := ParseFilter("FILTER(" + ((v + " > " + lo) + " && " + (v + " < " + hi)) + ")");
      inside.Success? && (Passes(n, [inside.value])(row) <==> l < x < h)
    ensures var outside := ParseFilter("FILTER(" + ((v + " < " + lo) + " || " + (v + " > " + hi)) + ")");
      outside.Success? && (Passes(n, [outside.value])(row) <==> x < l || x > h)
    ensures var not := ParseFilter("FILTER(" + ("!" + (v + " >= " + lo)) + ")");
      not.Success? && (Passes(n, [not.value])(row) <==> x < l)
  {
    BoundsRead(v, lo, hi);
    BoundsMean(n, row, v, x, lo, l, hi, h);
  }

  lemma BoundsMean<N>(n: Numbers<N>, row: Row, v: string, x: int, lo: string, l: int, hi: string, h: int)
    requires Consistent(n) && Counts(n, row, v, x) && IsWhole(n, lo, l) && IsWhole(n, hi, h)
    ensures Passes(n, [And(Comparison(v, ">", lo), Comparison(v, "<", hi))])(row) <==> l < x < h
    ensures Passes(n, [Or(Comparison(v, "<", lo), Comparison(v, ">", hi))])(row) <==> x < l || x > h
    ensures Passes(n, [Not(Comparison(v, ">=", lo))])(row) <==> x < l
  {
    WholeNumbersBelow(n, row, v, x, lo, l);
    WholeNumbersBelow(n, row, v, x, hi, h);
    PassesOne(n, And(Comparison(v, ">", lo), Comparison(v, "<", hi)), row);
    PassesOne(n, Or(Comparison(v, "<", lo), Comparison(v, ">", hi)), row);
    PassesOne(n, Not(Comparison(v, ">=", lo)), row);
  }

  lemma BoundsRead(v: string, lo: string, hi: string)
    requires IsVariableText(v) && IsNumberText(lo) && !HasPoint(lo) && IsNumberText(hi) && !HasPoint(hi)
    ensures ReadsAs((v + " > " + lo) + " && " + (v + " < " + hi), And(Comparison(v, ">", lo), Comparison(v, "<", hi)))
    ensures ReadsAs((v + " < " + lo) + " || " + (v + " > " + hi), Or(Comparison(v, "<", lo), Comparison(v, ">", hi)))
    ensures ReadsAs("!" + (v + " >= " + lo), Not(Comparison(v, ">=", lo)))
  {
    BoundText(v, ">", lo, v + " > " + lo);
    BoundText(v, "<", hi, v + " < " + hi);
    BoundText(v, "<", lo, v + " < " + lo);
    BoundText(v, ">", hi, v + " > " + hi);
    BoundText(v, ">=", lo, v + " >= " + lo);
    ConnectivesRead(Comparison(v, ">", lo), Comparison(v, "<", hi));
    ConnectivesRead(Comparison(v, "<", lo), Comparison(v, ">", hi));
    ConnectivesRead(Comparison(v, ">=", lo), Comparison(v, ">=", lo));
  }

  lemma BoundText(v: string, op: string, c: string, text: string)
    requires IsVariableText(v) && IsComparator(op) && IsNumberText(c) && !HasPoint(c)
    requires text == v + (" " + op + " ") + c
    ensures IsSimple(Comparison(v, op, c)) && Typed(Comparison(v, op, c)) == text
  {
  }

  // ---------------------------------------------------------------- texts

  /** Where one side is no number, texts are compared, and they have no order. */
  lemma TextsCompared<N>(n: Numbers<N>, row: Row, v: string, c: string)
    requires v in row && !HasOperator(v) && !HasOperator(c) && (n.integer(row[v]).None? || n.integer(c).None?)
    ensures Passes(n, [Comparison(v, "=", c)])(row) <==> row[v] == c
    ensures Passes(n, [Comparison(v, "!=", c)])(row) <==> row[v] != c
    ensures forall op | op in {">", ">=", "<", "<="} :: !Passes(n, [Comparison(v, op, c)])(row)
  {
    PassesOne(n, Comparison(v, "=", c), row);
    PassesOne(n, Comparison(v, "!=", c), row);
    forall op | op in {">", ">=", "<", "<="} ensures !Passes(n, [Comparison(v, op, c)])(row) {
      PassesOne(n, Comparison(v, op, c), row);
    }
  }

  /** A text with a sign in it, such as a web address, is taken for arithmetic at the top level: neither `=` nor `!=`
      holds, whatever the row binds. */
  lemma AddressNeverPasses<N>(n: Numbers<N>, row: Row, v: string, op: string, address: string)
    requires address != [] && ('a' <= address[0] <= 'z' || 'A' <= address[0] <= 'Z') && HasOperator(address)
    requires n.float(address).None?
    ensures !Passes(n, [Comparison(v, op, address)])(row)
  {
    NoExpression(address);
    NoValueFails(n, row, v, op, address);
  }

  // ---------------------------------------------------------------- bare values and calls

  /** A bare value holds when it is a number other than zero. */
  lemma BareValues<N>(n: Numbers<N>, row: Row, a: string, b: string, x: N, y: N)
    requires HasValue(n, row, a, x) && HasValue(n, row, b, y)
    ensures Passes(n, [Value(Operand(a))])(row) <==> !n.isZero(x)
    ensures Passes(n, [Value(Subtract(Operand(a), Operand(b)))])(row) <==> !n.isZero(n.minus(x, y))
    ensures Passes(n, [Value(Divide(Operand(a), Operand(b)))])(row) <==> !n.isZero(y) && !n.isZero(n.over(x, y))
  {
    OperandValue(n, row, a, x);
    OperandValue(n, row, b, y);
    PassesOne(n, Value(Operand(a)), row);
    PassesOne(n, Value(Subtract(Operand(a), Operand(b))), row);
    PassesOne(n, Value(Divide(Operand(a), Operand(b))), row);
  }

  /** The text begins and ends like a quoted triple. */
  predicate InDoubleBrackets(t: string) {
    |t| >= 2 && t[..2] == "<<" && t[|t| - 2..] == ">>"
  }

  /** The only call that ever holds is the test for quoted triples. */
  lemma CallsMean<N>(n: Numbers<N>, row: Row, name: string, v: string, c: string, rest: seq<string>)
    requires v != [] && v[0] == '?' && (c == [] || c[0] != '?')
    ensures Passes(n, [Call("isTRIPLE", [v] + rest)])(row) <==> v in row && InDoubleBrackets(row[v])
    ensures Passes(n, [Call("isTRIPLE", [c] + rest)])(row) <==> InDoubleBrackets(c)
    ensures name != "isTRIPLE" ==> !Passes(n, [Call(name, rest)])(row)
  {
    PassesOne(n, Call("isTRIPLE", [v] + rest), row);
    PassesOne(n, Call("isTRIPLE", [c] + rest), row);
    PassesOne(n, Call(name, rest), row);
  }
}
