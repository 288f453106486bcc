/** The parser for filter expressions: comparisons, negation, conjunction and disjunction. */
module FilterGrammar {
  import opened ArithmeticGrammar

  datatype FilterExpression =
    | Comparison(left: string, op: string, right: string)
    | And(first: FilterExpression, second: FilterExpression)
    | Or(first: FilterExpression, second: FilterExpression)
    | Not(inner: FilterExpression)
    | Value(expression: Arithmetic)
    | Call(name: string, args: seq<string>)

  function ParseTag(tag: string, s: string): (r: Parsed<string>)
    ensures r.Success? ==> |r.rest| <= |s| && (tag != [] ==> |r.rest| < |s|)
  {
    if tag <= s then Success(tag, s[|tag|..]) else Failure
  }

  /** The first tag of the list that `s` begins with. */
  function ParseTags(tags: seq<string>, s: string): (r: Parsed<string>)
    requires forall t | t in tags :: t != []
    ensures r.Success? ==> |r.rest| < |s| && r.value in tags
  {
    if tags == [] then Failure else
    assert forall t | t in tags[1..] :: t in tags;
    assert tags[0] in tags;
    var first := ParseTag(tags[0], s);
    if first.Success? then first else ParseTags(tags[1..], s)
  }

  const OPERATORS := ["=", "!=", ">=", "<=", ">", "<"]

  function ParseOperator(s: string): (r: Parsed<string>)
    ensures r.Success? ==> |r.rest| < |s|
  {
    ParseTags(OPERATORS, s)
  }

  /** Two atoms around an operator; numbers are runs of digits here. */
  function ParseComparison(s: string): (r: Parsed<FilterExpression>)
    ensures r.Success? ==> |r.rest| < |s|
  {
    var left := ParseAtom(IsDigit, Skip(s));
    if left.Failure? then Failure else
    var op := ParseOperator(Skip(left.rest));
    if op.Failure? then Failure else
    var right := ParseAtom(IsDigit, Skip(op.rest));
    if right.Failure? then Failure else
    Success(Comparison(left.value, op.value, right.value), Skip(right.rest))
  }

  /** The text of an atom followed by an arithmetic operator. */
  function RecognizeStart(s: string): (r: Parsed<string>)
    ensures r.Success? ==> |r.rest| < |s|
  {
    var atom := ParseAtom(IsNumeric, s);
    if atom.Failure? then Failure else
    var after := Skip(atom.rest);
    if StartsWith(after, '+', '-') || StartsWith(after, '*', '/')
    then Success(s[..|s| - |after| + 1], after[1..])
    else Failure
  }

  predicate NotClose(c: char) {
    c != ')'
  }

  /** The text from an opening parenthesis up to the first closing one. */
  function RecognizeGroup(s: string): (r: Parsed<string>)
    ensures r.Success? ==> |r.rest| < |s|
  {
    if s == [] || s[0] != '(' then Failure else
    var n := Span(NotClose, s[1..]);
    if n == |s| - 1 then Failure else Success(s[..n + 2], s[n + 2..])
  }

  function ParseLeftSide(s: string): (r: Parsed<string>)
    ensures r.Success? ==> |r.rest| < |s|
  {
    var start := RecognizeStart(s);
    if start.Success? then start else
    var atom := ParseAtom(IsNumeric, s);
    if atom.Success? then atom else RecognizeGroup(s)
  }

  function ParseRightSide(s: string): (r: Parsed<string>)
    ensures r.Success? ==> |r.rest| < |s|
  {
    var group := RecognizeGroup(s);
    if group.Success? then group else
    var atom := ParseAtom(IsNumeric, s);
    if atom.Success? then atom else RecognizeStart(s)
  }

  function ParseArithmeticComparison(s: string): (r: Parsed<FilterExpression>)
    ensures r.Success? ==> |r.rest| < |s|
  {
    var left := ParseLeftSide(Skip(s));
    if left.Failure? then Failure else
    var op := ParseOperator(Skip(left.rest));
    if op.Failure? then Failure else
    var right := ParseRightSide(Skip(op.rest));
    if right.Failure? then Failure else
    Success(Comparison(left.value, op.value, right.value), Skip(right.rest))
  }

  const CALL_NAMES := ["isTRIPLE", "TRIPLE", "SUBJECT", "PREDICATE", "OBJECT"]

  function ParseArgument(s: string): (r: Parsed<string>)
    ensures r.Success? ==> |r.rest| < |s|
  {
    var v := ParseVariable(s);
    if v.Success? then v else ParseLiteral(s)
  }

  /** Further arguments; a separator without an argument behind it is left unread. */
  function ParseArguments(args: seq<string>, s: string): (r: Parsed<seq<string>>)
    ensures r.Success? && |r.rest| <= |s|
    decreases |s|
  {
    var comma := ParseChar(',', Skip(s));
    if comma.Failure? then Success(args, s) else
    var next := ParseArgument(Skip(comma.rest));
    if next.Failure? then Success(args, s) else ParseArguments(args + [next.value], next.rest)
  }

  /** The arguments of a call, in parentheses. */
  function ParseCallArguments(name: string, s: string): (r: Parsed<FilterExpression>)
    ensures r.Success? ==> |r.rest| < |s|
  {
    var open := ParseChar('(', Skip(s));
    if open.Failure? then Failure else
    var first := ParseArgument(Skip(open.rest));
    if first.Failure? then Failure else
    var args := ParseArguments([first.value], first.rest);
    var close := ParseChar(')', Skip(args.rest));
    if close.Failure? then Failure else Success(Call(name, args.value), close.rest)
  }

  function ParseCall(s: string): (r: Parsed<FilterExpression>)
    ensures r.Success? ==> |r.rest| < |s|
  {
    var name := ParseTags(CALL_NAMES, Skip(s));
    if name.Failure? then Failure else ParseCallArguments(name.value, name.rest)
  }

  function ParseValue(s: string): (r: Parsed<FilterExpression>)
    ensures r.Success? ==> |r.rest| < |s|
  {
    var e := ParseExpression(Skip(s));
    if e.Failure? then Failure else Success(Value(e.value), e.rest)
  }

  function ParseParenthesized(s: string): (r: Parsed<FilterExpression>)
    ensures r.Success? ==> |r.rest| < |s|
    decreases |s|, 1
  {
    var open := ParseChar('(', Skip(s));
    if open.Failure? then Failure else
    var e := ParseOr(open.rest);
    if e.Failure? then Failure else
    var close := ParseChar(')', Skip(e.rest));
    if close.Failure? then Failure else Success(e.value, Skip(close.rest))
  }

  function ParseNot(s: string): (r: Parsed<FilterExpression>)
    ensures r.Success? ==> |r.rest| < |s|
    decreases |s|, 1
  {
    var bang := ParseChar('!', Skip(s));
    if bang.Failure? then Failure else
    var e := ParseCondition(Skip(bang.rest));
    if e.Failure? then Failure else Success(Not(e.value), e.rest)
  }

  /** The alternatives in the order in which they are tried. */
  function ParseCondition(s: string): (r: Parsed<FilterExpression>)
    ensures r.Success? ==> |r.rest| < |s|
    decreases |s|, 2
  {
    var call := ParseCall(s);
    if call.Success? then call else
    var comparison := ParseComparison(s);
    if comparison.Success? then comparison else
    var arithmetic := ParseArithmeticComparison(s);
    if arithmetic.Success? then arithmetic else
    var group := ParseParenthesized(s);
    if group.Success? then group else
    var negation := ParseNot(s);
    if negation.Success? then negation else ParseValue(s)
  }

  function ParseAnd(s: string): (r: Parsed<FilterExpression>)
    ensures r.Success? ==> |r.rest| < |s|
    decreases |s|, 3
  {
    var left := ParseCondition(s);
    if left.Failure? then Failure else
    var input := Skip(left.rest);
    var tag := ParseTag("&&", input);
    if tag.Failure? then Success(left.value, input) else
    var right := ParseAnd(Skip(tag.rest));
    if right.Failure? then Failure else Success(And(left.value, right.value), right.rest)
  }

  function ParseOr(s: string): (r: Parsed<FilterExpression>)
    ensures r.Success? ==> |r.rest| < |s|
    decreases |s|, 4
  {
    var left := ParseAnd(s);
    if left.Failure? then Failure else
    var input := Skip(left.rest);
    var tag := ParseTag("||", input);
    if tag.Failure? then Success(left.value, input) else
    var right := ParseOr(Skip(tag.rest));
    if right.Failure? then Failure else Success(Or(left.value, right.value), right.rest)
  }

  /** A whole clause: the keyword and an expression in parentheses. */
  function ParseFilter(s: string): Parsed<FilterExpression> {
    var keyword := ParseTag("FILTER", s);
    if keyword.Failure? then Failure else
    var open := ParseChar('(', Skip(keyword.rest));
    if open.Failure? then Failure else
    var e := ParseOr(open.rest);
    if e.Failure? then Failure else
    var close := ParseChar(')', e.rest);
    if close.Failure? then Failure else Success(e.value, close.rest)
  }
}
