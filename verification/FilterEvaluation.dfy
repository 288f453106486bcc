/** Evaluating filters on rows, and moving a filter across a join. Floating-point numbers are a parameter: any type
    with any operations, so everything here holds of the machine's numbers, rounding and not-a-number included. */
module FilterEvaluation {
  import opened Options
  import opened Bags
  import opened SolutionMappings
  import opened PatternJoin
  import opened BasicGraphPattern
  import opened ArithmeticGrammar
  import opened FilterGrammar
  import QuotedTriples
  import opened Sequences

  /** How texts are read as numbers, and what the machine does with floating-point numbers. */
  datatype Numbers<!N> = Numbers(
    float: string -> Option<N>, integer: string -> Option<int>,
    plus: (N, N) -> N, minus: (N, N) -> N, times: (N, N) -> N, over: (N, N) -> N,
    isZero: N -> bool, equal: (N, N) -> bool, greater: (N, N) -> bool, atLeast: (N, N) -> bool)

  // ---------------------------------------------------------------- evaluation

  function Lookup<N>(n: Numbers<N>, row: Row, v: string): Option<N> {
    if v in row then n.float(row[v]) else None
  }

  function EvaluateOperand<N>(n: Numbers<N>, row: Row, text: string): Option<N> {
    if IsVariable(text) then Lookup(n, row, text)
    else if forall i | 0 <= i < |text| :: IsNumeric(text[i]) then n.float(text)
    else if text[0] == '"' && text[|text| - 1] == '"' then None
    else n.float(text)
  }

  datatype Operation = Plus | Minus | Times | Over

  /** An operation fails when a side has no value, and a division also when it divides by zero. */
  function Apply<N>(n: Numbers<N>, op: Operation, a: Option<N>, b: Option<N>): Option<N> {
    if a.None? || b.None? || (op.Over? && n.isZero(b.value)) then None
    else match op
      case Plus => Some(n.plus(a.value, b.value))
      case Minus => Some(n.minus(a.value, b.value))
      case Times => Some(n.times(a.value, b.value))
      case Over => Some(n.over(a.value, b.value))
  }

  function EvaluateArithmetic<N>(n: Numbers<N>, row: Row, e: Arithmetic): Option<N> {
    match e
    case Operand(text) => EvaluateOperand(n, row, text)
    case Add(l, r) => Apply(n, Plus, EvaluateArithmetic(n, row, l), EvaluateArithmetic(n, row, r))
    case Subtract(l, r) => Apply(n, Minus, EvaluateArithmetic(n, row, l), EvaluateArithmetic(n, row, r))
    case Multiply(l, r) => Apply(n, Times, EvaluateArithmetic(n, row, l), EvaluateArithmetic(n, row, r))
    case Divide(l, r) => Apply(n, Over, EvaluateArithmetic(n, row, l), EvaluateArithmetic(n, row, r))
  }

  predicate HasOperator(s: string) {
    exists i | 0 <= i < |s| :: s[i] in "+-*/"
  }

  /** A comparison with an arithmetic sign in the text of one of its sides. */
  predicate IsSigned(f: FilterExpression) {
    f.Comparison? && (HasOperator(f.left) || HasOperator(f.right))
  }

  /** Outer parentheses are cut off without checking that they belong together. */
  function Unwrapped(s: string): string {
    if s != [] && s[0] == '(' && s[|s| - 1] == ')' then s[1..|s| - 1] else s
  }

  function EvaluateSimple<N>(n: Numbers<N>, row: Row, s: string): Option<N> {
    if IsVariable(s) then Lookup(n, row, s) else n.float(s)
  }

  /** The value of the text of one side of a comparison. */
  function EvaluateText<N>(n: Numbers<N>, row: Row, s: string): Option<N> {
    var text := Unwrapped(s);
    var parsed := ParseExpression(text);
    if HasOperator(text) && parsed.Success? then EvaluateArithmetic(n, row, parsed.value)
    else EvaluateSimple(n, row, text)
  }

  function CompareNumbers<N>(n: Numbers<N>, a: N, op: string, b: N): bool {
    if op == "=" then n.equal(a, b) else if op == "!=" then !n.equal(a, b)
    else if op == ">" then n.greater(a, b) else if op == ">=" then n.atLeast(a, b)
    else if op == "<" then n.greater(b, a) else if op == "<=" then n.atLeast(b, a) else false
  }

  function CompareIntegers(a: int, op: string, b: int): bool {
    if op == "=" then a == b else if op == "!=" then a != b
    else if op == ">" then a > b else if op == ">=" then a >= b
    else if op == "<" then a < b else if op == "<=" then a <= b else false
  }

  function CompareTexts(a: string, op: string, b: string): bool {
    if op == "=" then a == b else if op == "!=" then a != b else false
  }

  function TextOf(row: Row, s: string): string {
    if IsVariable(s) && s in row then row[s] else s
  }

  function CallHolds(row: Row, name: string, args: seq<string>): bool {
    if name == "isTRIPLE" && args != [] then
      QuotedTriples.LooksQuoted(if !IsVariable(args[0]) then args[0] else if args[0] in row then row[args[0]] else "")
    else false
  }

  /** A filter below a connective. */
  function Holds<N>(n: Numbers<N>, row: Row, f: FilterExpression): bool {
    match f
    case Comparison(l, op, r) =>
      var a, b := EvaluateText(n, row, l), EvaluateText(n, row, r);
      if a.Some? && b.Some? then CompareNumbers(n, a.value, op, b.value)
      else CompareTexts(TextOf(row, l), op, TextOf(row, r))
    case And(a, b) => Holds(n, row, a) && Holds(n, row, b)
    case Or(a, b) => Holds(n, row, a) || Holds(n, row, b)
    case Not(a) => !Holds(n, row, a)
    case Value(e) =>
      var v := EvaluateArithmetic(n, row, e);
      v.Some? && !n.isZero(v.value)
    case Call(name, args) => CallHolds(row, name, args)
  }

  /** A value against the right side as it is written: two integers are compared as numbers, anything else as texts. */
  predicate PlainTest<N>(n: Numbers<N>, x: string, op: string, r: string) {
    var a, b := n.integer(x), n.integer(r);
    if a.Some? && b.Some? then CompareIntegers(a.value, op, b.value) else CompareTexts(x, op, r)
  }

  /** A filter at the top level: a comparison without arithmetic is handled differently from one below a connective. */
  function HoldsOnTop<N>(n: Numbers<N>, row: Row, f: FilterExpression): bool {
    if !f.Comparison? then Holds(n, row, f)
    else if IsSigned(f) then
      var a, b := EvaluateText(n, row, f.left), EvaluateText(n, row, f.right);
      a.Some? && b.Some? && CompareNumbers(n, a.value, f.op, b.value)
    else f.left in row && PlainTest(n, row[f.left], f.op, f.right)
  }

  function Passes<N>(n: Numbers<N>, filters: seq<FilterExpression>): Row -> bool {
    row => forall f | f in filters :: HoldsOnTop(n, row, f)
  }

  method ApplyFilters<N>(n: Numbers<N>, rows: seq<Row>, filters: seq<FilterExpression>) returns (kept: seq<Row>)
    ensures kept == Filter(Passes(n, filters), rows)
  {
    kept := [];
    for i := 0 to |rows|
      invariant kept == Filter(Passes(n, filters), rows[..i])
    {
      var all := PassesEvery(n, rows[i], filters);
      FilterSnoc(Passes(n, filters), rows[..i], rows[i]);
      assert rows[..i + 1] == rows[..i] + [rows[i]];
      if all {
        kept := kept + [rows[i]];
      }
    }
    TakeAll(rows);
  }

  method PassesEvery<N>(n: Numbers<N>, row: Row, filters: seq<FilterExpression>) returns (all: bool)
    ensures all == Passes(n, filters)(row)
  {
    all := true;
    for j := 0 to |filters|
      invariant all == forall f | f in filters[..j] :: HoldsOnTop(n, row, f)
    {
      assert filters[..j + 1] == filters[..j] + [filters[j]];
      all := all && HoldsOnTop(n, row, filters[j]);
    }
  }

  // ---------------------------------------------------------------- what a filter reads

  function OnlyVariable(s: string): set<string> {
    if IsVariable(s) then {s} else {}
  }

  function ArithmeticVariables(e: Arithmetic): set<string> {
    match e
    case Operand(text) => OnlyVariable(text)
    case Add(l, r) => ArithmeticVariables(l) + ArithmeticVariables(r)
    case Subtract(l, r) => ArithmeticVariables(l) + ArithmeticVariables(r)
    case Multiply(l, r) => ArithmeticVariables(l) + ArithmeticVariables(r)
    case Divide(l, r) => ArithmeticVariables(l) + ArithmeticVariables(r)
  }

  /** The names that are looked up for the value of a text. */
  function ValueVariables(s: string): set<string> {
    var parsed := ParseExpression(Unwrapped(s));
    if HasOperator(Unwrapped(s)) && parsed.Success? then ArithmeticVariables(parsed.value)
    else OnlyVariable(Unwrapped(s))
  }

  /** The names a filter below a connective reads, at any depth. */
  function FilterVariables(f: FilterExpression): set<string> {
    match f
    case Comparison(l, _, r) => ValueVariables(l) + OnlyVariable(l) + ValueVariables(r) + OnlyVariable(r)
    case And(a, b) => FilterVariables(a) + FilterVariables(b)
    case Or(a, b) => FilterVariables(a) + FilterVariables(b)
    case Not(a) => FilterVariables(a)
    case Value(e) => ArithmeticVariables(e)
    case Call(_, args) => set a | a in args && IsVariable(a)
  }

  /** The names a filter at the top level reads: a comparison with a sign only those in its values, one without a sign
      only its left side, which is looked up even when it is not a variable. */
  function TopVariables(f: FilterExpression): set<string> {
    if !f.Comparison? then FilterVariables(f)
    else if IsSigned(f) then ValueVariables(f.left) + ValueVariables(f.right)
    else {f.left}
  }

  /** Unless it is a comparison without a sign whose left side is a constant, a filter reads nothing at the top level
      that it would not read below a connective. */
  lemma TopReadsVariables(f: FilterExpression)
    requires f.Comparison? && !IsSigned(f) ==> IsVariable(f.left)
    ensures TopVariables(f) <= FilterVariables(f)
  {
  }

  ghost predicate AgreeOn(a: Row, b: Row, vs: set<string>) {
    forall v | v in vs :: (v in a <==> v in b) && (v in a ==> a[v] == b[v])
  }

  lemma {:induction false} ArithmeticAgrees<N>(n: Numbers<N>, a: Row, b: Row, e: Arithmetic)
    requires AgreeOn(a, b, ArithmeticVariables(e))
    ensures EvaluateArithmetic(n, a, e) == EvaluateArithmetic(n, b, e)
  {
    if !e.Operand? {
      ArithmeticAgrees(n, a, b, e.left);
      ArithmeticAgrees(n, a, b, e.right);
    } else if IsVariable(e.text) {
      assert e.text in ArithmeticVariables(e);
    }
  }

  lemma TextAgrees<N>(n: Numbers<N>, a: Row, b: Row, s: string)
    requires AgreeOn(a, b, ValueVariables(s))
    ensures EvaluateText(n, a, s) == EvaluateText(n, b, s)
    ensures AgreeOn(a, b, OnlyVariable(s)) ==> TextOf(a, s) == TextOf(b, s)
  {
    var parsed := ParseExpression(Unwrapped(s));
    if HasOperator(Unwrapped(s)) && parsed.Success? {
      ArithmeticAgrees(n, a, b, parsed.value);
    }
  }

  /** The value of a filter below a connective depends only on the names it reads. */
  lemma {:induction false} FilterAgrees<N>(n: Numbers<N>, a: Row, b: Row, f: FilterExpression)
    requires AgreeOn(a, b, FilterVariables(f))
    ensures Holds(n, a, f) == Holds(n, b, f)
  {
    match f
    case Comparison(l, _, r) =>
      TextAgrees(n, a, b, l);
      TextAgrees(n, a, b, r);
    case And(x, y) =>
      FilterAgrees(n, a, b, x);
      FilterAgrees(n, a, b, y);
    case Or(x, y) =>
      FilterAgrees(n, a, b, x);
      FilterAgrees(n, a, b, y);
    case Not(x) => FilterAgrees(n, a, b, x);
    case Value(e) => ArithmeticAgrees(n, a, b, e);
    case Call(_, args) =>
  }

  /** The value of a filter at the top level depends only on the names it reads there. */
  lemma TopAgrees<N>(n: Numbers<N>, a: Row, b: Row, f: FilterExpression)
    requires AgreeOn(a, b, TopVariables(f))
    ensures HoldsOnTop(n, a, f) == HoldsOnTop(n, b, f)
  {
    if IsSigned(f) {
      TextAgrees(n, a, b, f.left);
      TextAgrees(n, a, b, f.right);
    } else if f.Comparison? {
      assert f.left in TopVariables(f);
    } else {
      FilterAgrees(n, a, b, f);
    }
  }
}
