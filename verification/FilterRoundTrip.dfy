/** Printing a filter expression and parsing it gives it back: exactly when. */
module FilterRoundTrip {
  import opened TermText
  import opened ArithmeticGrammar
  import opened ArithmeticRoundTrip
  import opened FilterGrammar
  import opened FilterTexts
  import Sequences

  // ---------------------------------------------------------------- values

  /** The printed expression begins with an operand, not with a parenthesis. */
  predicate LeadsWithOperand(e: Arithmetic) {
    match e
    case Operand(_) => true
    case Add(l, _) => LeadsWithOperand(l)
    case Subtract(l, _) => LeadsWithOperand(l)
    case Multiply(l, _) => !l.Add? && !l.Subtract? && LeadsWithOperand(l)
    case Divide(l, _) => !l.Add? && !l.Subtract? && LeadsWithOperand(l)
  }

  /** The operand an expression begins with, and the rest of the text: nothing, or an operator and more. */
  ghost predicate Begins(s: string, text: string, tail: string) {
    Printable(text) && s == PrintOperand(text) + tail && (tail == [] || IsOperatorTail(tail))
  }

  predicate IsOperatorTail(tail: string) {
    |tail| > 3 && tail[0] == ' ' && tail[1] in "+-*/" && tail[2] == ' ' && IsLead(tail[3]) && tail[3] != '!'
  }

  lemma BeginsAppend(s: string, text: string, tail: string, op: char, y: string)
    requires Begins(s, text, tail)
    requires op in "+-*/" && y != [] && IsLead(y[0]) && y[0] != '!'
    ensures Begins(s + ([' ', op, ' '] + y), text, tail + ([' ', op, ' '] + y))
  {
    Sequences.AppendTwo(PrintOperand(text), tail, [' ', op, ' '] + y);
    assert tail == [] ==> tail + ([' ', op, ' '] + y) == [' ', op, ' '] + y;
  }

  lemma FactorText(e: Arithmetic)
    requires e.Multiply? || e.Divide?
    ensures PrintFactor(e) == PrintFactor(e.left) + ([' ', if e.Multiply? then '*' else '/', ' '] + PrintTerm(e.right))
    ensures PrintExpression(e) == PrintFactor(e)
  {
  }

  lemma ExpressionText(e: Arithmetic)
    requires e.Add? || e.Subtract?
    ensures PrintExpression(e)
         == PrintExpression(e.left) + ([' ', if e.Add? then '+' else '-', ' '] + PrintFactor(e.right))
  {
  }

  lemma {:induction false} LeadingFactor(e: Arithmetic) returns (text: string, tail: string)
    requires WellFormed(e) && LeadsWithOperand(e) && !e.Add? && !e.Subtract?
    ensures Begins(PrintFactor(e), text, tail) && (tail == [] <==> e.Operand?)
  {
    if e.Operand? {
      text, tail := e.text, [];
      assert PrintOperand(text) + [] == PrintOperand(text);
    } else {
      var op := if e.Multiply? then '*' else '/';
      ArithmeticLead(e.right);
      text, tail := LeadingFactor(e.left);
      BeginsAppend(PrintFactor(e.left), text, tail, op, PrintTerm(e.right));
      FactorText(e);
      tail := tail + ([' ', op, ' '] + PrintTerm(e.right));
    }
  }

  lemma {:induction false} Leading(e: Arithmetic) returns (text: string, tail: string)
    requires WellFormed(e) && LeadsWithOperand(e)
    ensures Begins(PrintExpression(e), text, tail) && (tail == [] <==> e.Operand?)
  {
    if e.Add? || e.Subtract? {
      var op := if e.Add? then '+' else '-';
      ArithmeticLead(e.right);
      text, tail := Leading(e.left);
      BeginsAppend(PrintExpression(e.left), text, tail, op, PrintFactor(e.right));
      ExpressionText(e);
      tail := tail + ([' ', op, ' '] + PrintFactor(e.right));
    } else {
      text, tail := LeadingFactor(e);
      assert PrintExpression(e) == PrintFactor(e);
    }
  }

  /** No comparison starts with an operand followed by an arithmetic operator or by the end of the condition. */
  lemma NotComparedFirst(text: string, t: string)
    requires Printable(text) && Ends(t) && NoComparison(t)
    ensures ParseComparison(PrintOperand(text) + t).Failure?
  {
    OperandHere(text, t);
    DigitsPrinted(text, t);
    NoOperator(Skip(t));
    var left := ParseAtom(IsDigit, PrintOperand(text) + t);
    if IsDecimal(text) && left.Success? {
      NoOperator(left.rest);
    }
  }

  /** An atom at the end of a condition is no side of a comparison ... */
  lemma NotComparedAlone(s: string, text: string, t: string)
    requires s != [] && Skip(s) == s && s[0] != '(' && ParseAtom(IsNumeric, s) == Success(text, t)
    requires !StartsWith(Skip(t), '+', '-') && !StartsWith(Skip(t), '*', '/') && NoComparison(t)
    ensures ParseArithmeticComparison(s).Failure?
  {
    NoOperator(Skip(t));
  }

  /** ... nor is an atom with an arithmetic operator behind it. */
  lemma NotComparedWithOperator(s: string, text: string, t: string)
    requires s != [] && Skip(s) == s && s[0] != '(' && ParseAtom(IsNumeric, s) == Success(text, t)
    requires StartsWith(Skip(t), '+', '-') || StartsWith(Skip(t), '*', '/')
    requires NoComparison(Skip(t)[1..])
    ensures ParseArithmeticComparison(s).Failure?
  {
    NoOperator(Skip(Skip(t)[1..]));
  }

  lemma OperatorTail(tail: string, k: string)
    requires IsOperatorTail(tail)
    ensures var t := tail + k;
      && Ends(t) && NoComparison(t) && (StartsWith(Skip(t), '+', '-') || StartsWith(Skip(t), '*', '/'))
      && NoComparison(Skip(t)[1..])
  {
  }

  lemma OperandNotCompared(text: string, k: string)
    requires Printable(text) && Follows(k)
    ensures ParseArithmeticComparison(PrintOperand(text) + k).Failure?
  {
    AtomPrinted(text, k);
    NotComparedAlone(PrintOperand(text) + k, text, k);
  }

  lemma OperationNotCompared(text: string, tail: string, k: string)
    requires Printable(text) && IsOperatorTail(tail)
    ensures ParseArithmeticComparison(PrintOperand(text) + (tail + k)).Failure?
  {
    OperatorTail(tail, k);
    OperandHere(text, tail + k);
    AtomPrinted(text, tail + k);
    NotComparedWithOperator(PrintOperand(text) + (tail + k), text, tail + k);
  }

  lemma ValueNotCompared(text: string, tail: string, k: string)
    requires Printable(text) && (tail == [] || IsOperatorTail(tail)) && Follows(k)
    ensures Ends(tail + k) && NoComparison(tail + k)
    ensures ParseArithmeticComparison(PrintOperand(text) + (tail + k)).Failure?
  {
    if tail == [] {
      assert tail + k == k;
      OperandNotCompared(text, k);
    } else {
      OperatorTail(tail, k);
      OperationNotCompared(text, tail, k);
    }
  }

  /** Only the last alternative is left. */
  lemma ReadAsValue(s: string, e: Arithmetic, rest: string)
    requires s != [] && (s[0] in "?\"" || IsNumeric(s[0]))
    requires ParseComparison(s).Failure? && ParseArithmeticComparison(s).Failure?
    requires ParseExpression(s) == Success(e, rest)
    ensures ParseCondition(s) == Success(Value(e), rest)
  {
    NotACallBySymbol(s);
    LastAlternative(s, e, rest);
  }

  lemma LastAlternative(s: string, e: Arithmetic, rest: string)
    requires ParseCall(s).Failure? && ParseComparison(s).Failure? && ParseArithmeticComparison(s).Failure?
    requires ParseParenthesized(s).Failure? && ParseNot(s).Failure?
    requires ParseExpression(Skip(s)) == Success(e, rest)
    ensures ParseCondition(s) == Success(Value(e), rest)
  {
  }

  lemma TextRejected(text: string, t: string)
    requires Printable(text) && Ends(t) && NoComparison(t)
    ensures var s := PrintOperand(text) + t;
      s != [] && (s[0] in "?\"" || IsNumeric(s[0])) && ParseComparison(s).Failure?
  {
    NotComparedFirst(text, t);
    assert (PrintOperand(text) + t)[0] == PrintOperand(text)[0];
  }

  lemma ValueRejected(e: Arithmetic, k: string)
    requires WellFormed(e) && LeadsWithOperand(e) && Follows(k)
    ensures var s := PrintExpression(e) + k;
      s != [] && (s[0] in "?\"" || IsNumeric(s[0])) && ParseComparison(s).Failure?
          && ParseArithmeticComparison(s).Failure?
  {
    var text, tail := Leading(e);
    ValueNotCompared(text, tail, k);
    TextRejected(text, tail + k);
    Sequences.AppendTwo(PrintOperand(text), tail, k);
  }

  /** A value that begins with an operand is read by the last alternative. */
  lemma ValueReadBack(e: Arithmetic, k: string)
    requires WellFormed(e) && LeadsWithOperand(e) && Follows(k)
    ensures ParseCondition(PrintExpression(e) + k) == Success(Value(e), Skip(k))
  {
    ValueRejected(e, k);
    ExpressionContinues(e, k);
    ReadAsValue(PrintExpression(e) + k, e, Skip(k));
  }

  lemma ExpressionStops(e: Arithmetic, k: string)
    requires Follows(k)
    ensures ExpressionTail(e, Skip(k)) == Success(e, Skip(k)) && !StartsWith(Skip(k), '*', '/')
  {
  }

  // ---------------------------------------------------------------- groups

  /** Behind the first closing parenthesis of the text stand a comparison operator and something that can be read
      as its right side. */
  predicate SplitsGroup(s: string) {
    var n := Span(NotClose, s);
    n < |s| &&
    var op := ParseOperator(Skip(s[n + 1..]));
    op.Success? && ParseRightSide(Skip(op.rest)).Success?
  }

  /** Looking for the first closing parenthesis one character later finds the same one. */
  lemma SplitsInside(s: string)
    requires s != [] && s[0] == '('
    ensures SplitsGroup(s) <==> SplitsGroup(s[1..])
  {
    var n := Span(NotClose, s[1..]);
    assert Span(NotClose, s) == n + 1;
    if n < |s| - 1 {
      assert s[1..][n + 1..] == s[n + 2..];
    }
  }

  /** A text that begins with a parenthesis is taken as a comparison exactly when it splits. */
  lemma GroupCompared(s: string)
    requires s != [] && s[0] == '('
    ensures ParseCall(s).Failure? && ParseComparison(s).Failure? && Skip(s) == s
    ensures ParseArithmeticComparison(s).Success? <==> SplitsGroup(s)
    ensures SplitsGroup(s) ==> ParseCondition(s).Success? && ParseCondition(s).value.Comparison?
  {
    NotACallBySymbol(s);
    NotAnAtom(s);
    SideExactly(s);
  }

  lemma NotAnAtom(s: string)
    requires s != [] && s[0] == '('
    ensures Skip(s) == s && ParseComparison(s).Failure? && ParseLeftSide(s) == RecognizeGroup(s)
  {
    assert ParseAtom(IsDigit, s).Failure? && ParseAtom(IsNumeric, s).Failure?;
  }

  lemma FirstClose(s: string)
    requires s != [] && s[0] == '('
    ensures var n := Span(NotClose, s);
      if n < |s| then RecognizeGroup(s).Success? && RecognizeGroup(s).rest == s[n + 1..] else RecognizeGroup(s).Failure?
  {
    assert Span(NotClose, s) == Span(NotClose, s[1..]) + 1;
  }

  lemma SideExactly(s: string)
    requires s != [] && s[0] == '('
    ensures ParseArithmeticComparison(s).Success? <==> SplitsGroup(s)
    ensures SplitsGroup(s) ==> ParseArithmeticComparison(s).value.Comparison?
  {
    NotAnAtom(s);
    FirstClose(s);
  }

  /** A group whose inside is read up to the closing parenthesis is read back exactly when its text does not split. */
  lemma GroupReadExactly(e: FilterExpression, s: string, close: string)
    requires s != [] && s[0] == '(' && !e.Comparison?
    requires close != [] && close[0] == ')' && ParseOr(s[1..]) == Success(e, close)
    ensures ParseCondition(s) == Success(e, Skip(close[1..])) <==> !SplitsGroup(s)
  {
    GroupCompared(s);
  }

  /** A group whose inside is misread is misread itself. */
  lemma GroupMisread(e: FilterExpression, s: string)
    requires s != [] && s[0] == '(' && (e.And? || e.Or?) && Other(ParseOr(s[1..]), e)
    ensures Other(ParseCondition(s), e)
  {
    GroupCompared(s);
  }

  lemma BangNotCompared(s: string)
    requires s != [] && s[0] == '!'
    ensures Skip(s) == s && ParseComparison(s).Failure? && ParseArithmeticComparison(s).Failure?
        && ParseParenthesized(s).Failure?
  {
  }

  /** The text behind a connective. */
  lemma Connective(tag: string, x: string, k: string)
    requires (tag == "&&" || tag == "||") && x != [] && IsStart(x[0])
    ensures var tail := " " + (tag + (" " + (x + k)));
      && Follows(tail) && Skip(tail) == tag + (" " + (x + k)) && Skip(Skip(tail)) == Skip(tail)
      && (tag == "||" ==> StopsAt("&&", tail))
    ensures ParseTag(tag, tag + (" " + (x + k))) == Success(tag, " " + (x + k)) && Skip(" " + (x + k)) == x + k
  {
  }

  predicate StopsAt(tag: string, k: string) {
    ParseTag(tag, Skip(k)).Failure?
  }

  // ---------------------------------------------------------------- values that begin with a group

  /** The group a printed expression begins with, when it does not begin with an operand. */
  function LeadGroup(e: Arithmetic): (g: Arithmetic)
    requires !LeadsWithOperand(e)
    ensures g < e && (g.Add? || g.Subtract?)
  {
    if (e.Multiply? || e.Divide?) && (e.left.Add? || e.left.Subtract?) then e.left else LeadGroup(e.left)
  }

  /** A bare value that begins with a group is taken for that group alone, if the inside of the group is read
      correctly; a misread inside makes the parser fall back on reading the whole value. */
  predicate ReadsBack(e: Arithmetic) {
    LeadsWithOperand(e) || !ReadsBack(LeadGroup(e))
  }

  ghost predicate BeginsWithGroup(s: string, g: Arithmetic, tail: string) {
    s == "(" + PrintExpression(g) + ")" + tail && IsOperatorTail(tail)
  }

  lemma GroupAppend(s: string, g: Arithmetic, tail: string, op: char, y: string)
    requires BeginsWithGroup(s, g, tail)
    requires op in "+-*/" && y != [] && IsLead(y[0]) && y[0] != '!'
    ensures BeginsWithGroup(s + ([' ', op, ' '] + y), g, tail + ([' ', op, ' '] + y))
  {
  }

  lemma {:induction false} LeadingGroupFactor(e: Arithmetic) returns (tail: string)
    requires WellFormed(e) && !LeadsWithOperand(e) && (e.Multiply? || e.Divide?)
    ensures BeginsWithGroup(PrintFactor(e), LeadGroup(e), tail)
  {
    var op := if e.Multiply? then '*' else '/';
    var y := PrintTerm(e.right);
    ArithmeticLead(e.right);
    FactorText(e);
    if e.left.Add? || e.left.Subtract? {
      tail := [' ', op, ' '] + y;
    } else {
      tail := LeadingGroupFactor(e.left);
      GroupAppend(PrintFactor(e.left), LeadGroup(e), tail, op, y);
      tail := tail + ([' ', op, ' '] + y);
    }
  }

  lemma {:induction false} LeadingGroup(e: Arithmetic) returns (tail: string)
    requires WellFormed(e) && !LeadsWithOperand(e)
    ensures BeginsWithGroup(PrintExpression(e), LeadGroup(e), tail)
  {
    if e.Add? || e.Subtract? {
      var op := if e.Add? then '+' else '-';
      var y := PrintFactor(e.right);
      ArithmeticLead(e.right);
      tail := LeadingGroup(e.left);
      GroupAppend(PrintExpression(e.left), LeadGroup(e), tail, op, y);
      tail := tail + ([' ', op, ' '] + y);
    } else {
      tail := LeadingGroupFactor(e);
    }
  }

  lemma {:induction false} LeadGroupIsWellFormed(e: Arithmetic)
    requires WellFormed(e) && !LeadsWithOperand(e)
    ensures WellFormed(LeadGroup(e))
  {
    if !((e.Multiply? || e.Divide?) && (e.left.Add? || e.left.Subtract?)) {
      LeadGroupIsWellFormed(e.left);
    }
  }

  lemma ValueAlternative(s: string, e: Arithmetic, rest: string)
    requires s != [] && s[0] == '(' && !SplitsGroup(s) && ParseParenthesized(s).Failure?
    requires ParseExpression(s) == Success(e, rest)
    ensures ParseCondition(s) == Success(Value(e), rest)
  {
    GroupCompared(s);
  }

  /** A value was taken for the group it begins with, and an operator is left over. */
  ghost predicate Misread(r: Parsed<FilterExpression>, e: Arithmetic) {
    r.Success? && r.value.Value? && r.value.expression < e && r.rest != [] && r.rest[0] in "+-*/"
  }

  lemma GroupTexts(g: Arithmetic, tail: string, k: string)
    ensures var s := "(" + PrintExpression(g) + ")" + tail + k;
      s[0] == '(' && s[1..] == PrintExpression(g) + (")" + (tail + k))
  {
  }

  lemma RestOfGroup(tail: string, k: string)
    requires IsOperatorTail(tail)
    ensures Skip(tail + k) != [] && Skip(tail + k)[0] in "+-*/"
  {
  }

  /** When a bare value is read back: it begins with an operand, or its lead group is not taken for the whole of it,
      as a value or as the side of a comparison. */
  predicate ReadsValue(e: Arithmetic, k: string) {
    LeadsWithOperand(e) || (ReadsBack(e) && !SplitsGroup(PrintExpression(e) + k))
  }

  /** Exactly the values of `ReadsValue` are read back; of the others the lead group is read, or a comparison. */
  lemma {:induction false} ValueReadExactly(e: Arithmetic, k: string)
    requires WellFormed(e) && Follows(k)
    ensures var s := PrintExpression(e) + k;
      var r := ParseCondition(s);
      if ReadsValue(e, k) then r == Success(Value(e), Skip(k))
      else if SplitsGroup(s) then r.Success? && r.value.Comparison?
      else Misread(r, e)
    decreases e, 1
  {
    if LeadsWithOperand(e) {
      ValueReadBack(e, k);
    } else {
      GroupedValueRead(e, k);
    }
  }

  lemma {:induction false} GroupedValueRead(e: Arithmetic, k: string)
    requires WellFormed(e) && !LeadsWithOperand(e) && Follows(k)
    ensures var s := PrintExpression(e) + k;
      var r := ParseCondition(s);
      if SplitsGroup(s) then r.Success? && r.value.Comparison?
      else if ReadsBack(e) then r == Success(Value(e), Skip(k))
      else Misread(r, e)
    decreases e, 0
  {
    var g := LeadGroup(e);
    var tail := LeadingGroup(e);
    var s := PrintExpression(e) + k;
    var close := ")" + (tail + k);
    GroupTexts(g, tail, k);
    LeadGroupIsWellFormed(e);
    ValueReadExactly(g, close);
    SplitsInside(s);
    GroupCompared(s);
    if !SplitsGroup(s) {
      if ReadsBack(g) {
        RestOfGroup(tail, k);
        GroupTaken(g, s, close);
      } else {
        ExpressionStops(e, k);
        ExpressionContinues(e, k);
        GroupRefused(e, g, s, Skip(k));
      }
    }
  }

  lemma GroupTaken(g: Arithmetic, s: string, close: string)
    requires s != [] && s[0] == '(' && !SplitsGroup(s) && close != [] && close[0] == ')'
    requires ParseCondition(s[1..]) == Success(Value(g), close)
    ensures ParseCondition(s) == Success(Value(g), Skip(close[1..]))
  {
    PassedUp(Value(g), s[1..], close);
    GroupReadExactly(Value(g), s, close);
  }

  /** Where neither connective follows, a condition is a whole disjunction. */
  lemma PassedUp(e: FilterExpression, s: string, rest: string)
    requires ParseCondition(s) == Success(e, rest) && rest != [] && !IsSpace(rest[0]) && rest[0] != '&'
        && rest[0] != '|'
    ensures ParseOr(s) == Success(e, rest)
  {
    SkipNothing(rest);
    assert ParseTag("&&", rest).Failure? && ParseTag("||", rest).Failure?;
    assert ParseAnd(s) == Success(e, rest);
  }

  lemma GroupRefused(e: Arithmetic, g: Arithmetic, s: string, rest: string)
    requires s != [] && s[0] == '(' && !SplitsGroup(s) && Misread(ParseCondition(s[1..]), g)
    requires ParseExpression(s) == Success(e, rest)
    ensures ParseCondition(s) == Success(Value(e), rest)
  {
    assert ParseParenthesized(s).Failure? by {
      var r := ParseCondition(s[1..]);
      PassedUp(r.value, s[1..], r.rest);
    }
    ValueAlternative(s, e, rest);
  }

  // ---------------------------------------------------------------- when a printed expression is read back

  /** The expression has been read, and what is left is `k`, with or without the white space in front. */
  predicate ReadTo(r: Parsed<FilterExpression>, e: FilterExpression, k: string) {
    r.Success? && r.value == e && Skip(r.rest) == Skip(k)
  }

  /** Nothing has been read, or some other expression. */
  predicate Other(r: Parsed<FilterExpression>, e: FilterExpression) {
    r.Success? ==> r.value != e
  }

  /** The printed text of `e`, in front of `k`, is read as `e`: no number is cut, no group is split at its first
      closing parenthesis, and no value is taken for the group it begins with. */
  predicate ReadsCondition(e: FilterExpression, k: string)
    decreases e, Level(e, 0)
  {
    match e
    case Comparison(l, _, r) => !CutsDecimal(l, r)
    case Not(inner) => ReadsCondition(inner, k)
    case Value(a) => ReadsValue(a, k)
    case Call(_, _) => true
    case And(_, _) => !SplitsGroup(PrintCondition(e) + k) && ReadsOr(e, ")" + k)
    case Or(_, _) => !SplitsGroup(PrintCondition(e) + k) && ReadsOr(e, ")" + k)
  }

  predicate ReadsAnd(e: FilterExpression, k: string)
    decreases e, Level(e, 1)
  {
    if e.And? then ReadsCondition(e.first, Joined("&&", PrintAnd(e.second), k)) && ReadsAnd(e.second, k)
    else ReadsCondition(e, k)
  }

  predicate ReadsOr(e: FilterExpression, k: string)
    decreases e, Level(e, 2)
  {
    if e.Or? then ReadsAnd(e.first, Joined("||", PrintOr(e.second), k)) && ReadsOr(e.second, k)
    else ReadsAnd(e, k)
  }

  /** The text behind the left side of a connective. */
  function Joined(tag: string, x: string, k: string): string {
    " " + (tag + (" " + (x + k)))
  }

  // ---------------------------------------------------------------- leading parentheses

  /** How many parentheses the text opens with. */
  function Parens(s: string): nat {
    if s == [] then 0
    else if s[0] == '(' then 1 + Parens(s[1..])
    else if IsSpace(s[0]) then Parens(s[1..])
    else 0
  }

  lemma {:induction false} ParensBehindBlanks(s: string)
    ensures Parens(Skip(s)) == Parens(s)
  {
    if s != [] && IsSpace(s[0]) {
      ParensBehindBlanks(s[1..]);
    }
  }

  /** How many parentheses the printed texts open with. */
  function TermParens(e: Arithmetic): nat
    decreases e, Rank(e, 0)
  {
    if e.Operand? then 0 else 1 + ExpressionParens(e)
  }

  function FactorParens(e: Arithmetic): nat
    decreases e, Rank(e, 1)
  {
    if e.Multiply? || e.Divide? then FactorParens(e.left) else TermParens(e)
  }

  function ExpressionParens(e: Arithmetic): nat
    decreases e, Rank(e, 2)
  {
    if e.Add? || e.Subtract? then ExpressionParens(e.left) else FactorParens(e)
  }

  function ConditionParens(e: FilterExpression): nat
    decreases e, Level(e, 0)
  {
    match e
    case Value(a) => ExpressionParens(a)
    case And(_, _) => 1 + AndParens(e)
    case Or(l, _) => 1 + AndParens(l)
    case _ => 0
  }

  function AndParens(e: FilterExpression): nat
    decreases e, Level(e, 1)
  {
    if e.And? then ConditionParens(e.first) else ConditionParens(e)
  }

  function OrParens(e: FilterExpression): nat {
    if e.Or? then AndParens(e.first) else AndParens(e)
  }

  lemma OpenParenthesis(s: string)
    requires ParseChar('(', Skip(s)).Success?
    ensures Parens(s) == 1 + Parens(ParseChar('(', Skip(s)).rest)
  {
    ParensBehindBlanks(s);
  }

  lemma {:induction false} TermFound(s: string)
    ensures ParseTerm(s).Success? ==> TermParens(ParseTerm(s).value) <= Parens(s)
    decreases |s|, 1
  {
    var open := ParseChar('(', Skip(s));
    if ParseOperand(s).Failure? && open.Success? {
      OpenParenthesis(s);
      ExpressionFound(open.rest);
      if ParseExpression(open.rest).Success? {
        TermIsDeepest(ParseExpression(open.rest).value);
      }
    }
  }

  lemma TermIsDeepest(e: Arithmetic)
    ensures TermParens(e) <= 1 + ExpressionParens(e)
    ensures ExpressionParens(e) <= FactorParens(e) <= TermParens(e)
  {
  }

  lemma {:induction false} FactorTailKeeps(left: Arithmetic, s: string)
    ensures FactorTail(left, s).Success? ==> FactorParens(FactorTail(left, s).value) == FactorParens(left)
    decreases |s|
  {
    var remaining := Skip(s);
    if StartsWith(remaining, '*', '/') {
      var right := ParseTerm(Skip(remaining[1..]));
      if right.Success? {
        var next := if remaining[0] == '*' then Multiply(left, right.value) else Divide(left, right.value);
        FactorTailKeeps(next, right.rest);
      }
    }
  }

  lemma {:induction false} FactorFound(s: string)
    ensures ParseFactor(s).Success? ==> FactorParens(ParseFactor(s).value) <= Parens(s)
    decreases |s|, 2
  {
    TermFound(s);
    if ParseTerm(s).Success? {
      TermIsDeepest(ParseTerm(s).value);
      FactorTailKeeps(ParseTerm(s).value, ParseTerm(s).rest);
    }
  }

  lemma {:induction false} ExpressionTailKeeps(left: Arithmetic, s: string)
    ensures ExpressionTail(left, s).Success? ==>
        ExpressionParens(ExpressionTail(left, s).value) == ExpressionParens(left)
    decreases |s|
  {
    var remaining := Skip(s);
    if StartsWith(remaining, '+', '-') {
      var right := ParseFactor(Skip(remaining[1..]));
      if right.Success? {
        var next := if remaining[0] == '+' then Add(left, right.value) else Subtract(left, right.value);
        ExpressionTailKeeps(next, right.rest);
      }
    }
  }

  lemma {:induction false} ExpressionFound(s: string)
    ensures ParseExpression(s).Success? ==> ExpressionParens(ParseExpression(s).value) <= Parens(s)
    decreases |s|, 3
  {
    FactorFound(s);
    if ParseFactor(s).Success? {
      TermIsDeepest(ParseFactor(s).value);
      ExpressionTailKeeps(ParseFactor(s).value, ParseFactor(s).rest);
    }
  }

  /** No parser returns an expression whose text opens with more parentheses than the text it has read. */
  lemma {:induction false} ConditionFound(s: string)
    ensures ParseCondition(s).Success? ==> ConditionParens(ParseCondition(s).value) <= Parens(s)
    decreases |s|, 2
  {
    ParensBehindBlanks(s);
    ExpressionFound(Skip(s));
    var open := ParseChar('(', Skip(s));
    if open.Success? {
      OpenParenthesis(s);
      OrFound(open.rest);
    }
    AlternativesFound(s);
  }

  lemma AlternativesFound(s: string)
    requires ParseValue(s).Success? ==> ConditionParens(ParseValue(s).value) <= Parens(s)
    requires ParseParenthesized(s).Success? ==> ConditionParens(ParseParenthesized(s).value) <= Parens(s)
    ensures ParseCondition(s).Success? ==> ConditionParens(ParseCondition(s).value) <= Parens(s)
  {
  }

  lemma {:induction false} AndFound(s: string)
    ensures ParseAnd(s).Success? ==> AndParens(ParseAnd(s).value) <= Parens(s)
    decreases |s|, 3
  {
    ConditionFound(s);
  }

  lemma {:induction false} OrFound(s: string)
    ensures ParseOr(s).Success? ==> OrParens(ParseOr(s).value) <= Parens(s)
    decreases |s|, 4
  {
    AndFound(s);
  }

  lemma ParensBehindOpen(inner: string, k: string)
    ensures Parens("(" + inner + ")" + k) == 1 + Parens(inner + (")" + k))
  {
    assert ("(" + inner + ")" + k)[1..] == inner + (")" + k);
  }

  lemma {:induction false} TermPrintsParens(e: Arithmetic, k: string)
    requires WellFormed(e)
    ensures Parens(PrintTerm(e) + k) == TermParens(e)
    decreases e, Rank(e, 0)
  {
    if e.Operand? {
      OperandHere(e.text, k);
      assert Skip(PrintOperand(e.text) + k) == PrintOperand(e.text) + k;
    } else {
      PrintTermGroups(e);
      ParensBehindOpen(PrintExpression(e), k);
      ExpressionPrintsParens(e, ")" + k);
    }
  }

  lemma {:induction false} FactorPrintsParens(e: Arithmetic, k: string)
    requires WellFormed(e)
    ensures Parens(PrintFactor(e) + k) == FactorParens(e)
    decreases e, Rank(e, 1)
  {
    if e.Multiply? || e.Divide? {
      FactorPrinted(e, k);
      FactorPrintsParens(e.left, [' ', if e.Multiply? then '*' else '/', ' '] + PrintTerm(e.right) + k);
    } else {
      TermPrintsParens(e, k);
      assert PrintFactor(e) == PrintTerm(e);
    }
  }

  lemma {:induction false} ExpressionPrintsParens(e: Arithmetic, k: string)
    requires WellFormed(e)
    ensures Parens(PrintExpression(e) + k) == ExpressionParens(e)
    decreases e, Rank(e, 2)
  {
    if e.Add? || e.Subtract? {
      ExpressionPrinted(e, k);
      ExpressionPrintsParens(e.left, [' ', if e.Add? then '+' else '-', ' '] + PrintFactor(e.right) + k);
    } else {
      FactorPrintsParens(e, k);
      assert PrintExpression(e) == PrintFactor(e);
    }
  }

  lemma NoParens(s: string)
    requires s != [] && s[0] != '(' && !IsSpace(s[0])
    ensures Parens(s) == 0
  {
  }

  lemma {:induction false} ConditionPrintsParens(e: FilterExpression, k: string)
    requires Writable(e)
    ensures Parens(PrintCondition(e) + k) == ConditionParens(e)
    decreases e, Level(e, 0)
  {
    match e
    case Comparison(l, op, r) =>
      ComparisonPrinted(l, op, r, k);
      OperandHere(l, " " + (op + (" " + (PrintOperand(r) + k))));
      NoParens(PrintCondition(e) + k);
    case Not(inner) =>
      NotPrinted(inner, k);
      NoParens("!" + (PrintCondition(inner) + k));
    case Value(a) => ExpressionPrintsParens(a, k);
    case Call(name, args) =>
      CallPrinted(name, args, k);
      NoParens(PrintCondition(e) + k);
    case And(_, _) =>
      PrintGroups(e);
      ParensBehindOpen(PrintOr(e), k);
      AndPrintsParens(e, ")" + k);
    case Or(l, r) =>
      PrintGroups(e);
      ParensBehindOpen(PrintOr(e), k);
      OrPrinted(l, r, ")" + k);
      AndPrintsParens(l, Joined("||", PrintOr(r), ")" + k));
  }

  lemma {:induction false} AndPrintsParens(e: FilterExpression, k: string)
    requires Writable(e)
    ensures Parens(PrintAnd(e) + k) == AndParens(e)
    decreases e, Level(e, 1)
  {
    if e.And? {
      AndPrinted(e.first, e.second, k);
      ConditionPrintsParens(e.first, Joined("&&", PrintAnd(e.second), k));
    } else {
      ConditionPrintsParens(e, k);
    }
  }

  /** A misread left side is not the conjunction it stands in ... */
  lemma NotTheConjunction(l: FilterExpression, r: FilterExpression, k: string)
    requires Writable(l)
    ensures Other(ParseCondition(PrintCondition(l) + k), And(l, r))
  {
    ConditionFound(PrintCondition(l) + k);
    ConditionPrintsParens(l, k);
  }

  /** ... nor the disjunction. */
  lemma NotTheDisjunction(l: FilterExpression, r: FilterExpression, k: string)
    requires Writable(l)
    ensures Other(ParseAnd(PrintAnd(l) + k), Or(l, r))
  {
    AndFound(PrintAnd(l) + k);
    AndPrintsParens(l, k);
  }

  // ---------------------------------------------------------------- all conditions

  lemma ComparisonExactly(l: string, op: string, r: string, k: string)
    requires Printable(l) && IsComparator(op) && Printable(r) && Ends(k)
    ensures var c := ParseCondition(PrintCondition(Comparison(l, op, r)) + k);
      if CutsDecimal(l, r) then Other(c, Comparison(l, op, r)) else c == Success(Comparison(l, op, r), Skip(k))
  {
    ComparisonReadBack(l, op, r, k);
    if CutsDecimal(l, r) {
      var s := PrintCondition(Comparison(l, op, r)) + k;
      assert s[0] == PrintOperand(l)[0];
      NotACallBySymbol(s);
      DecimalIsCut(l, op, r, k);
    }
  }

  lemma NegationExactly(e: FilterExpression, inner: string, k: string)
    requires inner != [] && IsStart(inner[0])
    ensures ReadTo(ParseCondition(inner + k), e, k) ==> ReadTo(ParseCondition("!" + (inner + k)), Not(e), k)
    ensures Other(ParseCondition(inner + k), e) ==> Other(ParseCondition("!" + (inner + k)), Not(e))
  {
    var s := "!" + (inner + k);
    assert s[1..] == inner + k && Skip(inner + k) == inner + k;
    NotACallBySymbol(s);
    BangNotCompared(s);
  }

  /** A printed condition is read back exactly when `ReadsCondition` says so; otherwise something else is read, or
      nothing. */
  lemma {:induction false} ConditionReadExactly(e: FilterExpression, k: string)
    requires Writable(e) && Follows(k)
    ensures var r := ParseCondition(PrintCondition(e) + k);
      if ReadsCondition(e, k) then ReadTo(r, e, k) else Other(r, e)
    decreases e, Level(e, 0)
  {
    if e.Comparison? {
      ComparisonExactly(e.left, e.op, e.right, k);
    } else if e.Value? {
      ValueReadExactly(e.expression, k);
    } else if e.Not? {
      ConditionReadExactly(e.inner, k);
      ConditionLead(e.inner);
      NotPrinted(e.inner, k);
      NegationExactly(e.inner, PrintCondition(e.inner), k);
    } else if e.Call? {
      CallRead(e.name, e.args, k);
    } else {
      OrReadExactly(e, ")" + k);
      BooleanGroupExactly(e, k);
    }
  }

  /** A conjunction or disjunction in parentheses, given how its inside is read. */
  lemma BooleanGroupExactly(e: FilterExpression, k: string)
    requires e.And? || e.Or?
    ensures var r := ParseCondition(PrintCondition(e) + k);
      var inside := ParseOr(PrintOr(e) + (")" + k));
      && (inside == Success(e, ")" + k) ==> (r == Success(e, Skip(k)) <==> !SplitsGroup(PrintCondition(e) + k)))
      && (SplitsGroup(PrintCondition(e) + k) || Other(inside, e) ==> Other(r, e))
  {
    var s := "(" + (PrintOr(e) + (")" + k));
    GroupPrinted(e, k);
    assert s[1..] == PrintOr(e) + (")" + k) && (")" + k)[1..] == k;
    GroupCompared(s);
    if ParseOr(s[1..]) == Success(e, ")" + k) {
      GroupReadExactly(e, s, ")" + k);
    }
    if Other(ParseOr(s[1..]), e) {
      GroupMisread(e, s);
    }
  }

  lemma AndJoined(l: FilterExpression, r: FilterExpression, first: string, x: string, k: string)
    requires x != [] && IsStart(x[0])
    requires ReadTo(ParseCondition(first + Joined("&&", x, k)), l, Joined("&&", x, k))
    ensures ParseAnd(x + k) == Success(r, Skip(k)) ==>
        ParseAnd(first + Joined("&&", x, k)) == Success(And(l, r), Skip(k))
    ensures Other(ParseAnd(x + k), r) ==> Other(ParseAnd(first + Joined("&&", x, k)), And(l, r))
  {
    Connective("&&", x, k);
  }

  lemma OrJoined(l: FilterExpression, r: FilterExpression, first: string, x: string, k: string)
    requires x != [] && IsStart(x[0])
    requires ParseAnd(first + Joined("||", x, k)) == Success(l, Skip(Joined("||", x, k)))
    ensures ParseOr(x + k) == Success(r, Skip(k)) ==> ParseOr(first + Joined("||", x, k)) == Success(Or(l, r), Skip(k))
    ensures Other(ParseOr(x + k), r) ==> Other(ParseOr(first + Joined("||", x, k)), Or(l, r))
  {
    Connective("||", x, k);
  }

  lemma ConjunctionReadExactly(l: FilterExpression, r: FilterExpression, k: string)
    requires Writable(l) && PrintAnd(r) != [] && IsStart(PrintAnd(r)[0])
    requires var tail := Joined("&&", PrintAnd(r), k);
      var c := ParseCondition(PrintCondition(l) + tail);
      if ReadsCondition(l, tail) then ReadTo(c, l, tail) else Other(c, l)
    requires var c := ParseAnd(PrintAnd(r) + k); if ReadsAnd(r, k) then c == Success(r, Skip(k)) else Other(c, r)
    ensures var c := ParseAnd(PrintAnd(And(l, r)) + k);
      if ReadsAnd(And(l, r), k) then c == Success(And(l, r), Skip(k)) else Other(c, And(l, r))
  {
    var x := PrintAnd(r);
    var tail := Joined("&&", x, k);
    AndPrinted(l, r, k);
    if ReadsCondition(l, tail) {
      AndJoined(l, r, PrintCondition(l), x, k);
    } else {
      NotTheConjunction(l, r, tail);
      AndMisread(l, r, PrintCondition(l) + tail);
    }
  }

  lemma AndMisread(l: FilterExpression, r: FilterExpression, s: string)
    requires Other(ParseCondition(s), l) && Other(ParseCondition(s), And(l, r))
    ensures Other(ParseAnd(s), And(l, r))
  {
  }

  lemma OrMisread(l: FilterExpression, r: FilterExpression, s: string)
    requires Other(ParseAnd(s), l) && Other(ParseAnd(s), Or(l, r))
    ensures Other(ParseOr(s), Or(l, r))
  {
  }

  lemma DisjunctionReadExactly(l: FilterExpression, r: FilterExpression, k: string)
    requires Writable(l) && PrintOr(r) != [] && IsStart(PrintOr(r)[0])
    requires var tail := Joined("||", PrintOr(r), k);
      var c := ParseAnd(PrintAnd(l) + tail);
      if ReadsAnd(l, tail) then c == Success(l, Skip(tail)) else Other(c, l)
    requires var c := ParseOr(PrintOr(r) + k); if ReadsOr(r, k) then c == Success(r, Skip(k)) else Other(c, r)
    ensures var c := ParseOr(PrintOr(Or(l, r)) + k);
      if ReadsOr(Or(l, r), k) then c == Success(Or(l, r), Skip(k)) else Other(c, Or(l, r))
  {
    var x := PrintOr(r);
    var tail := Joined("||", x, k);
    OrPrinted(l, r, k);
    if ReadsAnd(l, tail) {
      OrJoined(l, r, PrintAnd(l), x, k);
    } else {
      NotTheDisjunction(l, r, tail);
      OrMisread(l, r, PrintAnd(l) + tail);
    }
  }

  lemma {:induction false} AndReadExactly(e: FilterExpression, k: string)
    requires Writable(e) && Follows(k) && StopsAt("&&", k)
    ensures var r := ParseAnd(PrintAnd(e) + k);
      if ReadsAnd(e, k) then r == Success(e, Skip(k)) else Other(r, e)
    decreases e, Level(e, 1)
  {
    if e.And? {
      ConditionLead(e.second);
      Connective("&&", PrintAnd(e.second), k);
      ConditionReadExactly(e.first, Joined("&&", PrintAnd(e.second), k));
      AndReadExactly(e.second, k);
      ConjunctionReadExactly(e.first, e.second, k);
    } else {
      ConditionReadExactly(e, k);
    }
  }

  lemma {:induction false} OrReadExactly(e: FilterExpression, k: string)
    requires Writable(e) && Follows(k) && StopsAt("&&", k) && StopsAt("||", k)
    ensures var r := ParseOr(PrintOr(e) + k);
      if ReadsOr(e, k) then r == Success(e, Skip(k)) else Other(r, e)
    decreases e, Level(e, 2)
  {
    if e.Or? {
      ConditionLead(e.second);
      Connective("||", PrintOr(e.second), k);
      AndReadExactly(e.first, Joined("||", PrintOr(e.second), k));
      OrReadExactly(e.second, k);
      DisjunctionReadExactly(e.first, e.second, k);
    } else {
      AndReadExactly(e, k);
    }
  }

  /** A printed filter clause is read back whole exactly when no number in it is cut, no group is split, and no value
      is taken for the group it begins with. */
  lemma ClauseReadExactly(e: FilterExpression)
    requires Writable(e)
    ensures ParseFilter("FILTER" + ("(" + (PrintOr(e) + ")"))) == Success(e, "") <==> ReadsOr(e, ")")
  {
    var body := PrintOr(e) + ")";
    var s := "FILTER" + ("(" + body);
    assert s[..6] == "FILTER" && s[6..] == "(" + body && ("(" + body)[1..] == body;
    OrReadExactly(e, ")");
  }
}
