/** Filter expressions as texts: how they are printed, and how comparisons and calls are read back. */
module FilterTexts {
  import opened TermText
  import opened ArithmeticGrammar
  import opened ArithmeticRoundTrip
  import opened FilterGrammar
  import Sequences

  // ---------------------------------------------------------------- printing

  function PrintOr(e: FilterExpression): string
    decreases e, 2
  {
    match e
    case Or(l, r) => PrintAnd(l) + " || " + PrintOr(r)
    case _ => PrintAnd(e)
  }

  function PrintAnd(e: FilterExpression): string
    decreases e, 1
  {
    match e
    case And(l, r) => PrintCondition(l) + " && " + PrintAnd(r)
    case _ => PrintCondition(e)
  }

  function PrintCondition(e: FilterExpression): string
    decreases e, 0
  {
    match e
    case Comparison(l, op, r) => PrintOperand(l) + (" " + (op + (" " + PrintOperand(r))))
    case Not(inner) => "!" + PrintCondition(inner)
    case Value(a) => PrintExpression(a)
    case Or(l, r) => "(" + (PrintAnd(l) + " || " + PrintOr(r)) + ")"
    case And(l, r) => "(" + (PrintCondition(l) + " && " + PrintAnd(r)) + ")"
    case Call(name, args) => name + ("(" + (PrintArguments(args) + ")"))
  }

  /** An argument of a call is a variable or a literal; numbers are quoted. */
  function PrintArgument(text: string): string {
    if IsVariableText(text) then text else "\"" + text + "\""
  }

  function PrintArguments(args: seq<string>): string {
    if args == [] then "" else PrintArgument(args[0]) + PrintMore(args[1..])
  }

  function PrintMore(args: seq<string>): string {
    if args == [] then "" else ", " + (PrintArgument(args[0]) + PrintMore(args[1..]))
  }

  lemma PrintGroups(e: FilterExpression)
    ensures e.Or? || e.And? ==> PrintCondition(e) == "(" + PrintOr(e) + ")"
  {
  }

  // ---------------------------------------------------------------- what can be written down

  predicate HasPoint(text: string) {
    exists i | 0 <= i < |text| :: text[i] == '.'
  }

  predicate IsDecimal(text: string) {
    IsNumberText(text) && HasPoint(text)
  }

  /** A number with a fraction on the right of a comparison is cut at its point, unless the left side is a
      number with a point as well. */
  predicate CutsDecimal(left: string, right: string) {
    IsDecimal(right) && IsDigit(right[0]) && !IsDecimal(left)
  }

  /** The six comparison operators. */
  predicate IsComparator(op: string) {
    op == "=" || op == "!=" || op == ">" || op == ">=" || op == "<" || op == "<="
  }

  /** The five functions on quoted triples. */
  predicate IsCallName(name: string) {
    name == "isTRIPLE" || name == "TRIPLE" || name == "SUBJECT" || name == "PREDICATE" || name == "OBJECT"
  }

  lemma OperatorsAre()
    ensures forall op :: op in OPERATORS <==> IsComparator(op)
    ensures forall name :: name in CALL_NAMES <==> IsCallName(name)
  {
    assert OPERATORS[0] == "=" && OPERATORS[1] == "!=" && OPERATORS[2] == ">=" && OPERATORS[3] == "<="
      && OPERATORS[4] == ">" && OPERATORS[5] == "<";
    assert CALL_NAMES[0] == "isTRIPLE" && CALL_NAMES[1] == "TRIPLE" && CALL_NAMES[2] == "SUBJECT"
      && CALL_NAMES[3] == "PREDICATE" && CALL_NAMES[4] == "OBJECT";
  }

  /** Everything in the expression can be written down. */
  predicate Writable(e: FilterExpression) {
    match e
    case Comparison(l, op, r) => Printable(l) && IsComparator(op) && Printable(r)
    case And(l, r) => Writable(l) && Writable(r)
    case Or(l, r) => Writable(l) && Writable(r)
    case Not(inner) => Writable(inner)
    case Value(a) => WellFormed(a)
    case Call(name, args) => IsCallName(name) && args != [] && forall a | a in args :: Printable(a)
  }

  // ---------------------------------------------------------------- printed texts

  lemma ComparisonPrinted(l: string, op: string, r: string, k: string)
    ensures PrintCondition(Comparison(l, op, r)) + k == PrintOperand(l) + (" " + (op + (" " + (PrintOperand(r) + k))))
  {
    Spaced(PrintOperand(l), op, PrintOperand(r), k);
  }

  lemma Spaced(a: string, op: string, b: string, k: string)
    ensures a + (" " + (op + (" " + b))) + k == a + (" " + (op + (" " + (b + k))))
  {
  }

  lemma MorePrinted(args: seq<string>, k: string)
    requires args != []
    ensures PrintMore(args) + k == ", " + (PrintArgument(args[0]) + (PrintMore(args[1..]) + k))
  {
  }

  lemma CallPrinted(name: string, args: seq<string>, k: string)
    requires args != []
    ensures PrintCondition(Call(name, args)) + k
         == name + ("(" + (PrintArgument(args[0]) + (PrintMore(args[1..]) + (")" + k))))
  {
  }

  lemma NotPrinted(e: FilterExpression, k: string)
    ensures PrintCondition(Not(e)) + k == "!" + (PrintCondition(e) + k)
  {
  }

  lemma AndPrinted(l: FilterExpression, r: FilterExpression, k: string)
    ensures PrintAnd(And(l, r)) + k == PrintCondition(l) + (" " + ("&&" + (" " + (PrintAnd(r) + k))))
  {
  }

  lemma OrPrinted(l: FilterExpression, r: FilterExpression, k: string)
    ensures PrintOr(Or(l, r)) + k == PrintAnd(l) + (" " + ("||" + (" " + (PrintOr(r) + k))))
  {
  }

  lemma GroupPrinted(e: FilterExpression, k: string)
    requires e.Or? || e.And?
    ensures PrintCondition(e) + k == "(" + (PrintOr(e) + (")" + k))
  {
  }

  function Level(e: FilterExpression, level: nat): nat {
    match e
    case Or(_, _) => (level + 1) % 3
    case And(_, _) => (level + 2) % 3
    case _ => level
  }

  // ---------------------------------------------------------------- operators

  predicate StartsOperator(s: string) {
    s != [] && (s[0] == '=' || s[0] == '!' || s[0] == '>' || s[0] == '<')
  }

  lemma {:induction false} NoTag(tags: seq<string>, s: string)
    requires forall t | t in tags :: t != [] && (s == [] || s[0] != t[0])
    ensures ParseTags(tags, s).Failure?
  {
    if tags != [] {
      assert tags[0] in tags && forall t | t in tags[1..] :: t in tags;
      NoTag(tags[1..], s);
    }
  }

  lemma {:induction false} TagRead(tags: seq<string>, i: nat, s: string)
    requires i < |tags| && forall t | t in tags :: t != []
    requires tags[i] <= s && forall j | 0 <= j < i :: !(tags[j] <= s)
    ensures ParseTags(tags, s) == Success(tags[i], s[|tags[i]|..])
  {
    if i > 0 {
      assert forall t | t in tags[1..] :: t in tags;
      TagRead(tags[1..], i - 1, s);
    }
  }

  lemma NoOperator(s: string)
    requires !StartsOperator(s)
    ensures ParseOperator(s).Failure?
  {
    NoTag(OPERATORS, s);
  }

  /** An operator that stands before `op` in the list is no prefix of `op` and a text that goes on with something
      else than an equals sign. */
  lemma EarlierOperator(i: nat, j: nat, s: string)
    requires j < i < |OPERATORS| && OPERATORS[i] <= s && (|s| > |OPERATORS[i]| ==> s[|OPERATORS[i]|] != '=')
    ensures !(OPERATORS[j] <= s)
  {
    assert s[0] == OPERATORS[i][0];
    assert |OPERATORS[i]| > 1 ==> s[1] == OPERATORS[i][1];
  }

  lemma ComparatorAt(op: string) returns (i: nat)
    requires IsComparator(op)
    ensures i < |OPERATORS| && OPERATORS[i] == op
  {
    OperatorsAre();
    i :| i < |OPERATORS| && OPERATORS[i] == op;
  }

  lemma ComparatorBegins(op: string)
    requires IsComparator(op)
    ensures !IsSpace(op[0]) && StartsOperator(op) && op[0] !in ".+-*/"
  {
  }

  /** An operator is read whatever comes behind it, unless that begins with an equals sign. */
  lemma OperatorTyped(op: string, y: string)
    requires IsComparator(op) && (y == [] || y[0] != '=')
    ensures ParseOperator(op + y) == Success(op, y)
  {
    var i := ComparatorAt(op);
    var s := op + y;
    assert s[..|op|] == op && s[|op|..] == y && (y != [] ==> s[|op|] == y[0]);
    forall j | 0 <= j < i ensures !(OPERATORS[j] <= s) {
      EarlierOperator(i, j, s);
    }
    TagRead(OPERATORS, i, s);
  }

  lemma OperatorRead(op: string, y: string)
    requires IsComparator(op)
    ensures ParseOperator(op + (" " + y)) == Success(op, " " + y)
    ensures !IsSpace(op[0]) && StartsOperator(op) && op[0] !in ".+-*/"
  {
    ComparatorBegins(op);
    OperatorTyped(op, " " + y);
  }

  // ---------------------------------------------------------------- comparisons

  /** What may follow a condition: nothing, a closing parenthesis, a conjunction or a disjunction. */
  predicate Follows(k: string) {
    Ends(k) && (Skip(k) == [] || Skip(k)[0] == ')' || Skip(k)[0] == '&' || Skip(k)[0] == '|')
  }

  /** Reading an atom as digits: the same as reading it as a number, unless it has a point. */
  lemma DigitsPrinted(text: string, k: string)
    requires Printable(text) && Ends(k)
    ensures !IsDecimal(text) ==> ParseAtom(IsDigit, PrintOperand(text) + k) == Success(text, k)
    ensures IsDecimal(text) ==>
      var r := ParseAtom(IsDigit, PrintOperand(text) + k);
      if IsDigit(text[0]) then r.Success? && |r.value| < |text| && r.rest != [] && r.rest[0] == '.' else r.Failure?
  {
    var s := PrintOperand(text) + k;
    assert s[0] == PrintOperand(text)[0];
    if IsVariableText(text) {
      VariablePrinted(text, k);
    } else if IsNumberText(text) {
      if IsDecimal(text) {
        DigitsCut(text, k);
      } else {
        TakePrefix(IsDigit, text, k);
      }
    } else {
      LiteralPrinted(text, k);
    }
  }

  lemma DigitsCut(text: string, k: string)
    requires IsDecimal(text)
    ensures var r := TakeWhile1(IsDigit, text + k);
      if IsDigit(text[0]) then r.Success? && |r.value| < |text| && r.rest != [] && r.rest[0] == '.' else r.Failure?
  {
    var i :| 0 <= i < |text| && text[i] == '.';
    var n := Span(IsDigit, text + k);
    assert (text + k)[i] == '.';
    assert n <= i;
    assert (text + k)[n] == text[n] && IsNumeric(text[n]);
  }

  /** The operator behind a printed left side. */
  lemma OperatorBehind(op: string, y: string)
    requires IsComparator(op)
    ensures var tail := " " + (op + (" " + y));
      && Ends(tail) && Skip(tail) == op + (" " + y)
      && ParseOperator(Skip(tail)) == Success(op, " " + y)
      && !StartsWith(Skip(tail), '+', '-') && !StartsWith(Skip(tail), '*', '/')
  {
    OperatorRead(op, y);
    assert (op + (" " + y))[0] == op[0];
  }

  lemma OperandHere(text: string, k: string)
    requires Printable(text)
    ensures Skip(" " + (PrintOperand(text) + k)) == PrintOperand(text) + k
    ensures Skip(PrintOperand(text) + k) == PrintOperand(text) + k
    ensures (PrintOperand(text) + k)[0] !in "()*/+!=><&|"
  {
  }

  // One step of the comparison parsers at a time.

  lemma LeftFails(s: string)
    requires ParseAtom(IsDigit, Skip(s)).Failure?
    ensures ParseComparison(s).Failure?
  {
  }

  lemma RightFails(s: string, l: string, a: string, op: string, b: string)
    requires ParseAtom(IsDigit, Skip(s)) == Success(l, a) && ParseOperator(Skip(a)) == Success(op, b)
    requires ParseAtom(IsDigit, Skip(b)).Failure?
    ensures ParseComparison(s).Failure?
  {
  }

  lemma ComparisonSteps(s: string, l: string, a: string, op: string, b: string, r: string, c: string)
    requires ParseAtom(IsDigit, Skip(s)) == Success(l, a) && ParseOperator(Skip(a)) == Success(op, b)
    requires ParseAtom(IsDigit, Skip(b)) == Success(r, c)
    ensures ParseComparison(s) == Success(Comparison(l, op, r), Skip(c))
  {
  }

  lemma ArithmeticSteps(s: string, l: string, a: string, op: string, b: string, r: string, c: string)
    requires ParseLeftSide(Skip(s)) == Success(l, a) && ParseOperator(Skip(a)) == Success(op, b)
    requires ParseRightSide(Skip(b)) == Success(r, c)
    ensures ParseArithmeticComparison(s) == Success(Comparison(l, op, r), Skip(c))
  {
  }

  /** A comparison of atoms without a point is read by the first alternative. */
  lemma PlainComparisonRead(l: string, op: string, r: string, k: string)
    requires Printable(l) && IsComparator(op) && Printable(r) && Ends(k)
    requires !IsDecimal(l) && !IsDecimal(r)
    ensures ParseComparison(PrintCondition(Comparison(l, op, r)) + k) == Success(Comparison(l, op, r), Skip(k))
  {
    ComparisonPrinted(l, op, r, k);
    var y := PrintOperand(r) + k;
    var tail := " " + (op + (" " + y));
    OperandHere(l, tail);
    OperatorBehind(op, y);
    DigitsPrinted(l, tail);
    OperandHere(r, k);
    DigitsPrinted(r, k);
    ComparisonSteps(PrintOperand(l) + tail, l, tail, op, " " + y, r, k);
  }

  /** With a point on the left, or a right side that begins with a point, the first alternative fails ... */
  lemma DecimalComparisonRejected(l: string, op: string, r: string, k: string)
    requires Printable(l) && IsComparator(op) && Printable(r) && Ends(k)
    requires IsDecimal(l) || (IsDecimal(r) && !IsDigit(r[0]))
    ensures ParseComparison(PrintCondition(Comparison(l, op, r)) + k).Failure?
  {
    ComparisonPrinted(l, op, r, k);
    var y := PrintOperand(r) + k;
    var tail := " " + (op + (" " + y));
    OperatorBehind(op, y);
    if IsDecimal(l) {
      DecimalLeft(l, tail);
    } else {
      OperandHere(l, tail);
      DigitsPrinted(l, tail);
      assert ParseAtom(IsDigit, Skip(" " + y)).Failure? by {
        OperandHere(r, k);
        DigitsPrinted(r, k);
      }
      RightFails(PrintOperand(l) + tail, l, tail, op, " " + y);
    }
  }

  lemma DecimalLeft(l: string, tail: string)
    requires Printable(l) && Ends(tail) && IsDecimal(l)
    ensures ParseComparison(PrintOperand(l) + tail).Failure?
  {
    var s := PrintOperand(l) + tail;
    DigitsPrinted(l, tail);
    var r := ParseAtom(IsDigit, s);
    if r.Success? {
      NoOperator(r.rest);
    }
  }

  /** ... and the second one reads it. */
  lemma DecimalComparisonRead(l: string, op: string, r: string, k: string)
    requires Printable(l) && IsComparator(op) && Printable(r) && Ends(k)
    ensures ParseArithmeticComparison(PrintCondition(Comparison(l, op, r)) + k)
         == Success(Comparison(l, op, r), Skip(k))
  {
    ComparisonPrinted(l, op, r, k);
    var y := PrintOperand(r) + k;
    var tail := " " + (op + (" " + y));
    OperandHere(l, tail);
    OperatorBehind(op, y);
    AtomPrinted(l, tail);
    OperandHere(r, k);
    AtomPrinted(r, k);
    LeftAtom(PrintOperand(l) + tail, l, tail);
    RightAtom(y, r, k);
    ArithmeticSteps(PrintOperand(l) + tail, l, tail, op, " " + y, r, k);
  }

  lemma LeftAtom(s: string, text: string, rest: string)
    requires ParseAtom(IsNumeric, s) == Success(text, rest)
    requires !StartsWith(Skip(rest), '+', '-') && !StartsWith(Skip(rest), '*', '/')
    ensures ParseLeftSide(s) == Success(text, rest)
  {
  }

  lemma RightAtom(s: string, text: string, rest: string)
    requires s != [] && s[0] != '(' && ParseAtom(IsNumeric, s) == Success(text, rest)
    ensures ParseRightSide(s) == Success(text, rest)
  {
  }

  /** A decimal on the right is cut at its point: the text read is shorter than the text written. */
  lemma DecimalIsCut(l: string, op: string, r: string, k: string)
    requires Printable(l) && IsComparator(op) && Printable(r) && Ends(k)
    requires CutsDecimal(l, r)
    ensures var c := ParseComparison(PrintCondition(Comparison(l, op, r)) + k);
      c.Success? && c.value.Comparison? && |c.value.right| < |r|
  {
    ComparisonPrinted(l, op, r, k);
    var y := PrintOperand(r) + k;
    OperandHere(l, " " + (op + (" " + y)));
    OperatorBehind(op, y);
    DigitsPrinted(l, " " + (op + (" " + y)));
    OperandHere(r, k);
    DigitsPrinted(r, k);
  }

  lemma NotACall(s: string)
    requires Skip(s) == [] || Skip(s)[0] !in "iTSPO"
    ensures ParseCall(s).Failure?
  {
    NoTag(CALL_NAMES, Skip(s));
  }

  lemma NotACallBySymbol(s: string)
    requires s != [] && (s[0] in "?\"(!" || IsNumeric(s[0]))
    ensures Skip(s) == s && ParseCall(s).Failure?
  {
    NotACall(s);
  }

  lemma OperandNotACall(text: string, k: string)
    requires Printable(text)
    ensures ParseCall(PrintOperand(text) + k).Failure?
  {
    OperandHere(text, k);
    var s := PrintOperand(text) + k;
    assert s[0] == PrintOperand(text)[0];
    NotACall(s);
  }

  /** A comparison is read back exactly when its right side is not a decimal that gets cut. */
  lemma ComparisonReadBack(l: string, op: string, r: string, k: string)
    requires Printable(l) && IsComparator(op) && Printable(r) && Ends(k)
    ensures ParseCondition(PrintCondition(Comparison(l, op, r)) + k) == Success(Comparison(l, op, r), Skip(k))
      <==> !CutsDecimal(l, r)
  {
    var s := PrintCondition(Comparison(l, op, r)) + k;
    assert s[0] == PrintOperand(l)[0];
    NotACallBySymbol(s);
    if CutsDecimal(l, r) {
      DecimalIsCut(l, op, r, k);
    } else if IsDecimal(l) || IsDecimal(r) {
      DecimalComparisonRejected(l, op, r, k);
      DecimalComparisonRead(l, op, r, k);
    } else {
      PlainComparisonRead(l, op, r, k);
    }
  }

  // ---------------------------------------------------------------- calls

  lemma ArgumentRead(text: string, k: string)
    requires Printable(text) && k != [] && !IsNameChar(k[0])
    ensures ParseArgument(PrintArgument(text) + k) == Success(text, k)
    ensures Skip(PrintArgument(text) + k) == PrintArgument(text) + k
  {
    var s := PrintArgument(text) + k;
    assert s[0] == PrintArgument(text)[0];
    if IsVariableText(text) {
      VariablePrinted(text, k);
    } else {
      LiteralPrinted(text, k);
    }
  }

  lemma MoreStarts(args: seq<string>, close: string)
    requires close != [] && close[0] == ')'
    ensures PrintMore(args) + close != []
    ensures (PrintMore(args) + close)[0] == if args == [] then ')' else ','
  {
  }

  lemma NextArgument(done: seq<string>, text: string, m: string)
    requires Printable(text) && m != [] && !IsNameChar(m[0])
    ensures ParseArguments(done, ", " + (PrintArgument(text) + m)) == ParseArguments(done + [text], m)
  {
    ArgumentRead(text, m);
    CommaRead(PrintArgument(text) + m);
  }

  lemma CommaRead(y: string)
    requires Skip(y) == y
    ensures ParseChar(',', Skip(", " + y)) == Success(',', " " + y) && Skip(" " + y) == y
  {
    assert (", " + y)[1..] == " " + y && (" " + y)[1..] == y;
  }

  lemma {:induction false} ArgumentsRead(done: seq<string>, args: seq<string>, close: string)
    requires (forall a | a in args :: Printable(a)) && close != [] && close[0] == ')'
    ensures ParseArguments(done, PrintMore(args) + close) == Success(done + args, close)
    decreases |args|
  {
    if args == [] {
      Sequences.AppendNothing(close, PrintMore(args));
      Sequences.AppendNothing(done, args);
    } else {
      var m := PrintMore(args[1..]) + close;
      MoreStarts(args[1..], close);
      MorePrinted(args, close);
      NextArgument(done, args[0], m);
      ArgumentsRead(done + [args[0]], args[1..], close);
      FirstArgument(done, args);
    }
  }

  lemma FirstArgument(done: seq<string>, args: seq<string>)
    requires args != []
    ensures done + [args[0]] + args[1..] == done + args
  {
  }

  lemma NameRead(name: string, y: string)
    requires IsCallName(name)
    ensures Skip(name + y) == name + y && ParseTags(CALL_NAMES, name + y) == Success(name, y)
  {
    var s := name + y;
    SkipNothing(s);
    assert s[..|name|] == name && s[|name|..] == y;
    OperatorsAre();
    var i :| 0 <= i < |CALL_NAMES| && CALL_NAMES[i] == name;
    forall j | 0 <= j < i ensures !(CALL_NAMES[j] <= s) {
      assert s[0] == name[0];
    }
    TagRead(CALL_NAMES, i, s);
  }

  lemma CallSteps(name: string, y: string, z: string, first: string, m: string, args: seq<string>, close: string)
    requires y != [] && y[0] == '(' && y[1..] == z
    requires ParseArgument(Skip(z)) == Success(first, m) && ParseArguments([first], m) == Success(args, close)
    requires close != [] && close[0] == ')'
    ensures ParseCallArguments(name, y) == Success(Call(name, args), close[1..])
  {
  }

  lemma ArgumentsBefore(name: string, first: string, rest: seq<string>, close: string)
    requires Printable(first) && (forall a | a in rest :: Printable(a)) && close != [] && close[0] == ')'
    ensures ParseCallArguments(name, "(" + (PrintArgument(first) + (PrintMore(rest) + close)))
         == Success(Call(name, [first] + rest), close[1..])
  {
    var m := PrintMore(rest) + close;
    var z := PrintArgument(first) + m;
    ArgumentRead(first, m);
    ArgumentsRead([first], rest, close);
    CallSteps(name, "(" + z, z, first, m, [first] + rest, close);
  }

  lemma CallTextRead(name: string, first: string, rest: seq<string>, k: string)
    requires IsCallName(name) && Printable(first) && forall a | a in rest :: Printable(a)
    ensures ParseCondition(name + ("(" + (PrintArgument(first) + (PrintMore(rest) + (")" + k)))))
         == Success(Call(name, [first] + rest), k)
  {
    var y := "(" + (PrintArgument(first) + (PrintMore(rest) + (")" + k)));
    ArgumentsBefore(name, first, rest, ")" + k);
    NameRead(name, y);
  }

  /** A call is read by the first alternative; the text behind it is left as it is. */
  lemma CallRead(name: string, args: seq<string>, k: string)
    requires IsCallName(name) && args != [] && forall a | a in args :: Printable(a)
    ensures ParseCondition(PrintCondition(Call(name, args)) + k) == Success(Call(name, args), k)
  {
    assert [args[0]] + args[1..] == args;
    CallPrinted(name, args, k);
    CallTextRead(name, args[0], args[1..], k);
  }

  // ---------------------------------------------------------------- how printed texts begin

  /** No comparison operator comes next. */
  predicate NoComparison(k: string) {
    !StartsOperator(Skip(k))
  }

  predicate IsLead(c: char) {
    c == '?' || c == '"' || c == '(' || c == '!' || IsNumeric(c)
  }

  predicate IsCapital(c: char) {
    c == 'i' || c == 'T' || c == 'S' || c == 'P' || c == 'O'
  }

  predicate IsStart(c: char) {
    IsLead(c) || IsCapital(c)
  }

  lemma {:induction false} ArithmeticLead(e: Arithmetic)
    requires WellFormed(e)
    ensures PrintTerm(e) != [] && IsLead(PrintTerm(e)[0]) && PrintTerm(e)[0] != '!'
    ensures PrintFactor(e) != [] && IsLead(PrintFactor(e)[0]) && PrintFactor(e)[0] != '!'
    ensures PrintExpression(e) != [] && IsLead(PrintExpression(e)[0]) && PrintExpression(e)[0] != '!'
  {
    if !e.Operand? {
      ArithmeticLead(e.left);
    }
  }

  lemma {:induction false} ConditionLead(e: FilterExpression)
    requires Writable(e)
    ensures PrintCondition(e) != [] && IsStart(PrintCondition(e)[0])
    ensures PrintAnd(e) != [] && IsStart(PrintAnd(e)[0])
    ensures PrintOr(e) != [] && IsStart(PrintOr(e)[0])
  {
    if e.Value? {
      ArithmeticLead(e.expression);
    } else if e.And? || e.Or? {
      ConditionLead(e.first);
    }
  }
}
