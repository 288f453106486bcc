/** The WHERE clause as a whole: initial rows, joins in parallel, then the filters. */
module QueryAnswers {
  import opened Options
  import opened Bags
  import opened Sequences
  import opened SolutionMappings
  import opened Triples
  import opened PatternJoin
  import opened FastJoins
  import opened BasicGraphPattern
  import opened QuerySolutions
  import opened FilterGrammar
  import opened FilterEvaluation

  /** Inline data: one value, or none for UNDEF, per variable and row; a row may be longer or shorter than the
      list of variables. */
  datatype ValuesClause = ValuesClause(variables: seq<string>, rows: seq<seq<Option<string>>>)

  /** The bindings of one row of inline data; a repeated variable keeps its last value. */
  function InlineRow(variables: seq<string>, values: seq<Option<string>>): Row
    decreases |variables|
  {
    if variables == [] then map[]
    else
      var n := |variables| - 1;
      var row := InlineRow(variables[..n], values);
      if n < |values| && values[n].Some? then row[variables[n] := values[n].value] else row
  }

  /** The value at position `p` of a row of inline data is the one its variable keeps: there is no later one. */
  predicate Keeps(variables: seq<string>, values: seq<Option<string>>, p: nat) {
    && p < |variables| && p < |values| && values[p].Some?
    && forall q | p < q < |variables| && q < |values| && variables[q] == variables[p] :: values[q].None?
  }

  /** The row binds the variables that have a value, and binds each of them to the value it keeps. */
  ghost predicate Assigns(variables: seq<string>, values: seq<Option<string>>, row: Row) {
    && (forall v :: v in row <==> exists p: nat :: Keeps(variables, values, p) && variables[p] == v)
    && forall p: nat | Keeps(variables, values, p) :: row[variables[p]] == values[p].value
  }

  lemma {:induction false} InlineRowAssigns(variables: seq<string>, values: seq<Option<string>>)
    ensures Assigns(variables, values, InlineRow(variables, values))
    decreases |variables|
  {
    if variables != [] {
      var n := |variables| - 1;
      InlineRowAssigns(variables[..n], values);
      KeptLater(variables, values);
    }
  }

  /** One variable more: its value, if it has one, replaces an earlier one. */
  lemma KeptLater(variables: seq<string>, values: seq<Option<string>>)
    requires variables != []
    ensures var n := |variables| - 1;
      forall p: nat :: Keeps(variables, values, p) <==>
        if p == n then n < |values| && values[n].Some?
        else Keeps(variables[..n], values, p)
             && !(n < |values| && values[n].Some? && variables[n] == variables[p])
  {
  }

  function RowOf(variables: seq<string>): seq<Option<string>> -> seq<Row> {
    values => [InlineRow(variables, values)]
  }

  /** Without inline data the joins start from one empty row. */
  function InitialRows(clause: Option<ValuesClause>): seq<Row> {
    if clause.None? then [map[]] else FlatMap(RowOf(clause.value.variables), clause.value.rows)
  }

  method BindInline(variables: seq<string>, values: seq<Option<string>>) returns (row: Row)
    ensures row == InlineRow(variables, values)
  {
    row := map[];
    for i := 0 to |variables|
      invariant row == InlineRow(variables[..i], values)
    {
      assert variables[..i + 1][..i] == variables[..i];
      if i < |values| && values[i].Some? {
        row := row[variables[i] := values[i].value];
      }
    }
    TakeAll(variables);
  }

  method InitializeResults(clause: Option<ValuesClause>) returns (rows: seq<Row>)
    ensures rows == InitialRows(clause)
    ensures clause.None? ==> rows == [map[]]
    ensures clause.Some? ==> |rows| == |clause.value.rows|
    ensures clause.Some? ==>
      forall i | 0 <= i < |rows| :: Assigns(clause.value.variables, clause.value.rows[i], rows[i])
  {
    if clause.None? {
      return [map[]];
    }
    rows := [];
    var variables, data := clause.value.variables, clause.value.rows;
    for i := 0 to |data|
      invariant rows == FlatMap(RowOf(variables), data[..i])
      invariant |rows| == i && forall j | 0 <= j < i :: Assigns(variables, data[j], rows[j])
    {
      FlatMapStep(RowOf(variables), data, i);
      var row := BindInline(variables, data[i]);
      InlineRowAssigns(variables, data[i]);
      rows := rows + [row];
    }
    TakeAll(data);
  }

  // ---------------------------------------------------------------- joins and filters

  /** Initial rows, one parallel join per pattern under any schedule, and the filters at the end: the bag of answers
      is that of the plain nested loops, filtered. */
  method AnswerPatterns<N>(n: Numbers<N>, clause: Option<ValuesClause>, query: seq<QueryTriple>,
                           filters: seq<FilterExpression>,
                        dict: Dictionary, triples: seq<Triple>, schedules: seq<seq<nat>>)
    returns (rows: seq<Row>)
    requires |schedules| == |query| && forall s | s in schedules :: IsSchedule(s, ChunkCount(|triples|, 256))
    ensures multiset(rows)
         == multiset(Filter(Passes(n, filters), Evaluate(ToPatterns(query), dict, triples, InitialRows(clause))))
    ensures Interned(dict, triples) ==> forall target ::
      multiset(rows)[target]
         == if AllHold(ToPatterns(query), Statements(dict, triples), target) && Passes(n, filters)(target)
            then Starts(clause, Names(ToPatterns(query)), target) else 0
  {
    var initial := InitializeResults(clause);
    var joined := EvaluateParallel(ToPatterns(query), dict, triples, initial, schedules);
    FilterBag(Passes(n, filters), joined, Evaluate(ToPatterns(query), dict, triples, initial));
    rows := ApplyFilters(n, joined, filters);
    if Interned(dict, triples) {
      forall target { InlineDataJoins(n, clause, query, filters, dict, triples, target); }
    }
  }

  /** Without inline data, a mapping is answered once if it is a solution of the patterns whose row passes the
      filters, and not at all otherwise. */
  lemma SolutionsAnsweredOnce<N>(n: Numbers<N>, query: seq<QueryTriple>, filters: seq<FilterExpression>,
                              dict: Dictionary, triples: seq<Triple>, m: Row)
    requires Interned(dict, triples) && ConstantPredicates(query) && m.Keys == Variables(query)
    ensures var joined, row := Evaluate(ToPatterns(query), dict, triples, InitialRows(None)), SolutionRow(query, m);
      multiset(Filter(Passes(n, filters), joined))[row]
      == if IsSolution(query, Statements(dict, triples), m) && Passes(n, filters)(row) then 1 else 0
  {
    var joined := Evaluate(ToPatterns(query), dict, triples, [map[]]);
    SolutionsOnce(query, dict, triples, m);
    FilterCount(Passes(n, filters), joined, SolutionRow(query, m));
  }

  /** With inline data, every answer to the patterns is counted once for each row of values that it extends by the
      names of the patterns. */
  lemma InlineDataJoins<N>(n: Numbers<N>, clause: Option<ValuesClause>, query: seq<QueryTriple>,
                           filters: seq<FilterExpression>,
                        dict: Dictionary, triples: seq<Triple>, target: Row)
    requires Interned(dict, triples)
    ensures var joined := Evaluate(ToPatterns(query), dict, triples, InitialRows(clause));
      multiset(Filter(Passes(n, filters), joined))[target]
         == if AllHold(ToPatterns(query), Statements(dict, triples), target) && Passes(n, filters)(target)
            then Starts(clause, Names(ToPatterns(query)), target) else 0
  {
    EvaluateCount(ToPatterns(query), dict, triples, InitialRows(clause), target);
    FilterCount(Passes(n, filters), Evaluate(ToPatterns(query), dict, triples, InitialRows(clause)), target);
    StartsBelow(clause, Names(ToPatterns(query)), target);
  }

  /** The row of values agrees with the target, and the target binds nothing else but the names. */
  ghost predicate Suits(variables: seq<string>, values: seq<Option<string>>, names: set<string>, target: Row) {
    && (forall p: nat | Keeps(variables, values, p) ::
        variables[p] in target && target[variables[p]] == values[p].value)
    && target.Keys == names + set p: nat | p < |variables| && Keeps(variables, values, p) :: variables[p]
  }

  /** How many rows of values the target extends by the names; without inline data there is one row without
      values. */
  ghost function Starts(clause: Option<ValuesClause>, names: set<string>, target: Row): nat {
    if clause.None? then (if target.Keys == names then 1 else 0)
    else |set i: nat | i < |clause.value.rows| && Suits(clause.value.variables, clause.value.rows[i], names, target)|
  }

  lemma SuitsBelow(variables: seq<string>, values: seq<Option<string>>, names: set<string>, target: Row)
    ensures Suits(variables, values, names, target) <==> Below(target, names)(InlineRow(variables, values))
  {
    var row := InlineRow(variables, values);
    InlineRowAssigns(variables, values);
    assert row.Keys == set p: nat | p < |variables| && Keeps(variables, values, p) :: variables[p];
  }

  lemma StartsBelow(clause: Option<ValuesClause>, names: set<string>, target: Row)
    ensures Starts(clause, names, target) == |Filter(Below(target, names), InitialRows(clause))|
  {
    if clause.None? {
      FromEmptyRow(target, names);
    } else {
      var variables, data := clause.value.variables, clause.value.rows;
      InitialRowAt(variables, data);
      var rows := InitialRows(clause);
      FilterPositions(Below(target, names), rows);
      forall i: nat | i < |data|
        ensures Suits(variables, data[i], names, target) <==> Below(target, names)(rows[i])
      {
        SuitsBelow(variables, data[i], names, target);
      }
      assert Positions(Below(target, names), rows)
          == set i: nat | i < |data| && Suits(variables, data[i], names, target);
    }
  }

  lemma {:induction false} InitialRowAt(variables: seq<string>, data: seq<seq<Option<string>>>)
    ensures var rows := FlatMap(RowOf(variables), data);
      |rows| == |data| && forall i | 0 <= i < |data| :: rows[i] == InlineRow(variables, data[i])
  {
    if data != [] {
      InitialRowAt(variables, data[1..]);
    }
  }

  /** An unbound value leaves its variable to the patterns: a row of inline data binds a variable exactly when some
      occurrence of it has a value. */
  lemma {:induction false} InlineRowBinds(variables: seq<string>, values: seq<Option<string>>, v: string)
    ensures v in InlineRow(variables, values)
      <==> exists i | 0 <= i < |variables| && i < |values| :: variables[i] == v && values[i].Some?
  {
    if variables != [] {
      var n := |variables| - 1;
      InlineRowBinds(variables[..n], values, v);
      if i :| 0 <= i < |variables| && i < |values| && variables[i] == v && values[i].Some? && i < n {
        assert variables[..n][i] == v;
      }
    }
  }
}
