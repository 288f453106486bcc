/** Moving filters across the joins of a query: when the rows stay the same. */
module FilterPushdown {
  import opened Options
  import opened Bags
  import opened SetListings
  import opened SolutionMappings
  import opened Triples
  import opened PatternJoin
  import opened FilterGrammar
  import opened FilterEvaluation
  import opened StatementStores
  import BasicGraphPattern

  // ---------------------------------------------------------------- one join

  /** Whatever a matching statement binds, the filters say of the extended row what they say of the row. */
  ghost predicate Stable<N>(n: Numbers<N>, filters: seq<FilterExpression>, p: Pattern, rows: seq<Row>) {
    forall row, st | row in rows && Selects(p, st) :: Undecided(n, filters, p, st, row)
  }

  ghost predicate Undecided<N>(n: Numbers<N>, filters: seq<FilterExpression>, p: Pattern, st: Statement, row: Row) {
    forall extended | extended in Extend(p, st, row) :: Passes(n, filters)(extended) == Passes(n, filters)(row)
  }

  lemma ExtensionPasses<N>(n: Numbers<N>, filters: seq<FilterExpression>, p: Pattern, st: Statement, row: Row)
    requires Undecided(n, filters, p, st, row)
    ensures Filter(Passes(n, filters), Extend(p, st, row)) == if Passes(n, filters)(row) then Extend(p, st, row) else []
  {
    var ext := Extend(p, st, row);
    if ext != [] {
      assert ext == [ext[0]];
      assert Filter(Passes(n, filters), [ext[0]]) == if Passes(n, filters)(ext[0]) then [ext[0]] else [];
    }
  }

  lemma {:induction false} RowsPass<N>(n: Numbers<N>, filters: seq<FilterExpression>, p: Pattern, st: Statement,
                                       rows: seq<Row>)
    requires Stable(n, filters, p, rows) && Selects(p, st)
    ensures Filter(Passes(n, filters), FlatMap(ExtendBy(p, st), rows))
         == FlatMap(ExtendBy(p, st), Filter(Passes(n, filters), rows))
  {
    if rows != [] {
      assert rows[0] in rows && forall row | row in rows[1..] :: row in rows;
      RowsPass(n, filters, p, st, rows[1..]);
      ExtensionPasses(n, filters, p, st, rows[0]);
      FilterAppend(Passes(n, filters), Extend(p, st, rows[0]), FlatMap(ExtendBy(p, st), rows[1..]));
      if Passes(n, filters)(rows[0]) {
        FlatMapAppend(ExtendBy(p, st), [rows[0]], Filter(Passes(n, filters), rows[1..]));
        FlatMapOne(ExtendBy(p, st), rows[0]);
      } else {
        assert Filter(Passes(n, filters), rows) == Filter(Passes(n, filters), rows[1..]);
      }
    }
  }

  /** Then filtering after a join gives the same rows, in the same order, as filtering before it. */
  lemma {:induction false} StablePushdown<N>(n: Numbers<N>, filters: seq<FilterExpression>, p: Pattern,
                                             dict: Dictionary, triples: seq<Triple>, rows: seq<Row>)
    requires Stable(n, filters, p, rows)
    ensures Filter(Passes(n, filters), NestedJoin(p, dict, triples, rows))
         == NestedJoin(p, dict, triples, Filter(Passes(n, filters), rows))
  {
    if triples != [] {
      var t := triples[0];
      StablePushdown(n, filters, p, dict, triples[1..], rows);
      FilterAppend(Passes(n, filters), Contribution(p, dict, rows)(t), NestedJoin(p, dict, triples[1..], rows));
      var st := Decode(dict, t);
      if st.Some? && Selects(p, st.value) {
        RowsPass(n, filters, p, st.value, rows);
      }
    }
  }

  /** Of the names the filters read, those that the patterns may bind are bound in every row. */
  ghost predicate Settled(rows: seq<Row>, filters: seq<FilterExpression>, names: set<string>) {
    forall row, f | row in rows && f in filters :: TopVariables(f) * names <= row.Keys
  }

  lemma SettledIsStable<N>(n: Numbers<N>, filters: seq<FilterExpression>, p: Pattern, rows: seq<Row>)
    requires Settled(rows, filters, {p.subj, p.obj})
    ensures Stable(n, filters, p, rows)
  {
    forall row, st | row in rows && Selects(p, st) ensures Undecided(n, filters, p, st, row) {
      forall extended | extended in Extend(p, st, row)
        ensures Passes(n, filters)(extended) == Passes(n, filters)(row)
      {
        ExtendedRow(p, st, row, extended);
        forall f | f in filters ensures HoldsOnTop(n, extended, f) == HoldsOnTop(n, row, f) {
          assert TopVariables(f) * {p.subj, p.obj} <= row.Keys;
          TopAgrees(n, extended, row, f);
        }
      }
    }
  }

  /** Filters of any nesting may be applied before a join that binds nothing they read for the first time. */
  lemma PushedDown<N>(n: Numbers<N>, filters: seq<FilterExpression>, p: Pattern, dict: Dictionary, triples: seq<Triple>,
                      rows: seq<Row>)
    requires Settled(rows, filters, {p.subj, p.obj})
    ensures Filter(Passes(n, filters), NestedJoin(p, dict, triples, rows))
         == NestedJoin(p, dict, triples, Filter(Passes(n, filters), rows))
  {
    SettledIsStable(n, filters, p, rows);
    StablePushdown(n, filters, p, dict, triples, rows);
  }

  // ---------------------------------------------------------------- a sequence of joins

  lemma JoinSettled(p: Pattern, dict: Dictionary, triples: seq<Triple>, rows: seq<Row>, filters: seq<FilterExpression>,
                    names: set<string>)
    requires Settled(rows, filters, names)
    ensures Settled(NestedJoin(p, dict, triples, rows), filters, names)
  {
    forall result, f | result in NestedJoin(p, dict, triples, rows) && f in filters
      ensures TopVariables(f) * names <= result.Keys
    {
      FlatMapMember(Contribution(p, dict, rows), triples, result);
      var t :| t in triples && result in Contribution(p, dict, rows)(t);
      var st := Decode(dict, t).value;
      FlatMapMember(ExtendBy(p, st), rows, result);
      var row :| row in rows && result in Extend(p, st, row);
      ExtendedRow(p, st, row, result);
    }
  }

  lemma SettledForLess(rows: seq<Row>, filters: seq<FilterExpression>, names: set<string>, fewer: set<string>)
    requires Settled(rows, filters, names) && fewer <= names
    ensures Settled(rows, filters, fewer)
  {
  }

  /** Filters may be applied before, behind or between the joins, from the point on where the patterns to come bind
      nothing they read for the first time. */
  lemma {:induction false} PushedDownAnywhere<N>(n: Numbers<N>, filters: seq<FilterExpression>, patterns: seq<Pattern>,
                                                 dict: Dictionary, triples: seq<Triple>, rows: seq<Row>)
    requires Settled(rows, filters, BasicGraphPattern.Names(patterns))
    ensures Filter(Passes(n, filters), BasicGraphPattern.Evaluate(patterns, dict, triples, rows))
         == BasicGraphPattern.Evaluate(patterns, dict, triples, Filter(Passes(n, filters), rows))
  {
    if patterns != [] {
      var p, rest, next := patterns[0], patterns[1..], NestedJoin(patterns[0], dict, triples, rows);
      SettledForLess(rows, filters, BasicGraphPattern.Names(patterns), {p.subj, p.obj});
      SettledForLess(rows, filters, BasicGraphPattern.Names(patterns), BasicGraphPattern.Names(rest));
      JoinSettled(p, dict, triples, rows, filters, BasicGraphPattern.Names(rest));
      PushedDownAnywhere(n, filters, rest, dict, triples, next);
      PushedDown(n, filters, p, dict, triples, rows);
      BasicGraphPattern.EvaluateFirst(patterns, dict, triples, rows);
      BasicGraphPattern.EvaluateFirst(patterns, dict, triples, Filter(Passes(n, filters), rows));
    }
  }

  /** In particular when the rows bind all variables of the filters, provided the left side of every comparison without
      a sign is a variable. */
  lemma BoundVariablesSettle(rows: seq<Row>, filters: seq<FilterExpression>, names: set<string>)
    requires forall f | f in filters && f.Comparison? && !IsSigned(f) :: BasicGraphPattern.IsVariable(f.left)
    requires forall row, f | row in rows && f in filters :: FilterVariables(f) <= row.Keys
    ensures Settled(rows, filters, names)
  {
    forall row, f | row in rows && f in filters ensures TopVariables(f) * names <= row.Keys {
      TopReadsVariables(f);
    }
  }

  // ---------------------------------------------------------------- exactly when

  /** On every store filtering after the join delivers the bag of filtering before it. */
  ghost predicate MayBePushedDown<N>(n: Numbers<N>, filters: seq<FilterExpression>, p: Pattern, rows: seq<Row>) {
    forall dict: Dictionary, triples: seq<Triple> :: BasicGraphPattern.Interned(dict, triples) ==>
      SameOn(n, filters, p, dict, triples, rows)
  }

  ghost predicate SameOn<N>(n: Numbers<N>, filters: seq<FilterExpression>, p: Pattern, dict: Dictionary,
                            triples: seq<Triple>, rows: seq<Row>)
  {
    multiset(Filter(Passes(n, filters), NestedJoin(p, dict, triples, rows)))
    == multiset(NestedJoin(p, dict, triples, Filter(Passes(n, filters), rows)))
  }

  /** Filtering the rows first loses what only the filtered-out rows give. */
  lemma {:induction false} FilteredRowsGiveLess(f: Row -> bool, g: Row -> seq<Row>, rows: seq<Row>, r: Row)
    ensures multiset(FlatMap(g, Filter(f, rows)))[r] <= multiset(FlatMap(g, rows))[r]
    ensures (exists row | row in rows :: !f(row) && r in g(row)) ==>
      multiset(FlatMap(g, Filter(f, rows)))[r] < multiset(FlatMap(g, rows))[r]
  {
    if rows != [] {
      var first, rest := rows[0], rows[1..];
      FilteredRowsGiveLess(f, g, rest, r);
      assert FlatMap(g, rows) == g(first) + FlatMap(g, rest);
      if f(first) {
        FlatMapAppend(g, [first], Filter(f, rest));
        FlatMapOne(g, first);
      } else {
        assert Filter(f, rows) == Filter(f, rest);
        assert r in g(first) ==> r in multiset(g(first));
      }
      assert forall row | row in rows :: row == first || row in rest;
    }
  }

  /** A store with one statement. */
  lemma OneStatementStore(st: Statement) returns (dict: Dictionary, t: Triple)
    ensures BasicGraphPattern.Interned(dict, [t]) && Decode(dict, t) == Some(st)
  {
    var texts := Listed({st.subj, st.pred, st.obj});
    dict, t := Numbered(texts), Encoded(texts, st);
    EncodedDecodes(texts, st);
  }

  lemma JoinWithOne(p: Pattern, dict: Dictionary, t: Triple, st: Statement, rows: seq<Row>)
    requires Decode(dict, t) == Some(st) && Selects(p, st)
    ensures NestedJoin(p, dict, [t], rows) == FlatMap(ExtendBy(p, st), rows)
  {
    FlatMapOne(Contribution(p, dict, rows), t);
  }

  /** A row on which the filters change their mind shows on the store of the statement that makes them. */
  lemma ChangeShows<N>(n: Numbers<N>, filters: seq<FilterExpression>, p: Pattern, rows: seq<Row>, row: Row,
                       st: Statement, extended: Row)
    requires row in rows && Selects(p, st) && extended in Extend(p, st, row)
    requires Passes(n, filters)(extended) != Passes(n, filters)(row)
    ensures !MayBePushedDown(n, filters, p, rows)
  {
    var dict, t := OneStatementStore(st);
    var passes := Passes(n, filters);
    JoinWithOne(p, dict, t, st, rows);
    JoinWithOne(p, dict, t, st, Filter(passes, rows));
    FilterCount(passes, FlatMap(ExtendBy(p, st), rows), extended);
    if passes(extended) {
      FilteredRowsGiveLess(passes, ExtendBy(p, st), rows, extended);
    } else {
      FlatMapMember(ExtendBy(p, st), Filter(passes, rows), extended);
      assert extended in multiset(FlatMap(ExtendBy(p, st), Filter(passes, rows)));
    }
    assert !SameOn(n, filters, p, dict, [t], rows);
  }

  /** Filters of any kind may be pushed down across a join exactly when no statement that the pattern selects changes
      what they say of a row. */
  lemma PushedDownExactly<N>(n: Numbers<N>, filters: seq<FilterExpression>, p: Pattern, rows: seq<Row>)
    ensures MayBePushedDown(n, filters, p, rows) <==> Stable(n, filters, p, rows)
  {
    if Stable(n, filters, p, rows) {
      forall dict: Dictionary, triples: seq<Triple> | BasicGraphPattern.Interned(dict, triples)
        ensures SameOn(n, filters, p, dict, triples, rows)
      {
        StablePushdown(n, filters, p, dict, triples, rows);
      }
    } else {
      var row, st :| row in rows && Selects(p, st) && !Undecided(n, filters, p, st, row);
      var extended :| extended in Extend(p, st, row) && Passes(n, filters)(extended) != Passes(n, filters)(row);
      ChangeShows(n, filters, p, rows, row, st, extended);
    }
  }

  // ---------------------------------------------------------------- comparisons without a sign

  /** Some statement extends the row: a value that the pattern fixes is not bound to another one. */
  predicate Matchable(p: Pattern, row: Row) {
    p.literal.Some? && p.obj in row ==> row[p.obj] == p.literal.value
  }

  /** The pattern can bind the name, which the row leaves unbound, to a value that passes the test. */
  ghost predicate CanTurnTrue<N>(n: Numbers<N>, name: string, op: string, r: string, p: Pattern, row: Row) {
    if p.obj == name && p.literal.Some? then PlainTest(n, p.literal.value, op, r)
    else (p.subj == name || p.obj == name) && Matchable(p, row) && exists x :: PlainTest(n, x, op, r)
  }

  lemma BoundByStatement(p: Pattern, st: Statement, row: Row, extended: Row, name: string)
    requires Selects(p, st) && extended in Extend(p, st, row) && name !in row
    ensures name in extended <==> name == p.subj || name == p.obj
    ensures name == p.subj ==> extended[name] == st.subj
    ensures name == p.obj ==> extended[name] == st.obj
    ensures Matchable(p, row)
  {
  }

  lemma NothingTurns<N>(n: Numbers<N>, name: string, op: string, r: string, p: Pattern, row: Row, st: Statement)
    requires !IsSigned(Comparison(name, op, r)) && Selects(p, st)
    requires name in row || !CanTurnTrue(n, name, op, r, p, row)
    ensures Undecided(n, [Comparison(name, op, r)], p, st, row)
  {
    var f := Comparison(name, op, r);
    forall extended | extended in Extend(p, st, row)
      ensures Passes(n, [f])(extended) == Passes(n, [f])(row)
    {
      if name in row {
        ExtendedRow(p, st, row, extended);
      } else {
        BoundByStatement(p, st, row, extended, name);
      }
      assert HoldsOnTop(n, extended, f) == HoldsOnTop(n, row, f);
    }
  }

  /** A statement that binds the name to `x`, and everything else to what the row says. */
  ghost function Witness(p: Pattern, row: Row, name: string, x: string): Statement {
    Statement(if p.subj == name then x else if p.subj in row then row[p.subj] else if p.subj == p.obj then x else "",
              p.pred,
              if p.obj == name then x
              else if p.literal.Some? then p.literal.value
              else if p.obj in row then row[p.obj] else "")
  }

  lemma WitnessExtends(p: Pattern, row: Row, name: string, x: string) returns (extended: Row)
    requires name !in row && (p.subj == name || p.obj == name) && Matchable(p, row)
    requires p.obj == name && p.literal.Some? ==> x == p.literal.value
    ensures Selects(p, Witness(p, row, name, x))
    ensures extended in Extend(p, Witness(p, row, name, x), row) && name in extended && extended[name] == x
  {
    var st := Witness(p, row, name, x);
    extended := Extend(p, st, row)[0];
  }

  lemma SomethingTurns<N>(n: Numbers<N>, name: string, op: string, r: string, p: Pattern, rows: seq<Row>, row: Row)
    requires !IsSigned(Comparison(name, op, r)) && row in rows
    requires name !in row && CanTurnTrue(n, name, op, r, p, row)
    ensures !Stable(n, [Comparison(name, op, r)], p, rows)
  {
    var f := Comparison(name, op, r);
    var x: string;
    if p.obj == name && p.literal.Some? {
      x := p.literal.value;
    } else {
      x :| PlainTest(n, x, op, r);
    }
    var extended := WitnessExtends(p, row, name, x);
    assert HoldsOnTop(n, extended, f) && !HoldsOnTop(n, row, f);
    assert !Undecided(n, [f], p, Witness(p, row, name, x), row) by {
      assert f in [f];
    }
  }

  /** A comparison without a sign, whatever its left side is, may be pushed down exactly when every row binds the left
      side, or the pattern cannot bind it to a value that passes. */
  lemma ComparisonPushedDownExactly<N>(n: Numbers<N>, name: string, op: string, r: string, p: Pattern, rows: seq<Row>)
    requires !IsSigned(Comparison(name, op, r))
    ensures MayBePushedDown(n, [Comparison(name, op, r)], p, rows)
      <==> forall row | row in rows :: name in row || !CanTurnTrue(n, name, op, r, p, row)
  {
    var f := Comparison(name, op, r);
    PushedDownExactly(n, [f], p, rows);
    if forall row | row in rows :: name in row || !CanTurnTrue(n, name, op, r, p, row) {
      forall row, st | row in rows && Selects(p, st) ensures Undecided(n, [f], p, st, row) {
        NothingTurns(n, name, op, r, p, row, st);
      }
    } else {
      var row :| row in rows && name !in row && CanTurnTrue(n, name, op, r, p, row);
      SomethingTurns(n, name, op, r, p, rows, row);
    }
  }

  /** An equality with a constant on the left has no variables to wait for. It may still not be pushed down when the
      constant is the subject of the pattern only, or its object and equal to the right side. */
  lemma ConstantSidePushedDownExactly<N>(n: Numbers<N>, c: string, r: string, q: BasicGraphPattern.QueryTriple,
                                         rows: seq<Row>)
    requires !IsSigned(Comparison(c, "=", r)) && !BasicGraphPattern.IsVariable(c)
    requires rows != [] && forall row | row in rows :: c !in row && Matchable(BasicGraphPattern.ToPattern(q), row)
    ensures MayBePushedDown(n, [Comparison(c, "=", r)], BasicGraphPattern.ToPattern(q), rows)
      <==> (q.subj == c ==> q.obj == c) && (q.obj == c ==> !PlainTest(n, c, "=", r))
  {
    var p := BasicGraphPattern.ToPattern(q);
    assert PlainTest(n, r, "=", r);
    ComparisonPushedDownExactly(n, c, "=", r, p, rows);
    assert rows[0] in rows;
    assert forall row | row in rows ::
      CanTurnTrue(n, c, "=", r, p, row) <==> if q.obj == c then PlainTest(n, c, "=", r) else q.subj == c;
  }

  /** For example `"alice" = "alice"` reads no variable, drops the only row in front of the join and keeps the row
      behind it. */
  lemma ConstantSideFails<N>(n: Numbers<N>)
    ensures var dict: Dictionary := map[0 := "alice", 1 := "p", 2 := "o"];
      var f, p := Comparison("alice", "=", "alice"), Pattern("alice", "p", "?x", None);
      && FilterVariables(f) == {}
      && NestedJoin(p, dict, [Triple(0, 1, 2)], Filter(Passes(n, [f]), [map[]])) == []
      && Filter(Passes(n, [f]), NestedJoin(p, dict, [Triple(0, 1, 2)], [map[]]))
         == [map["alice" := "alice", "?x" := "o"]]
  {
    var dict: Dictionary := map[0 := "alice", 1 := "p", 2 := "o"];
    var f, p := Comparison("alice", "=", "alice"), Pattern("alice", "p", "?x", None);
    var t, st, empty: Row := Triple(0, 1, 2), Statement("alice", "p", "o"), map[];
    var row := map["alice" := "alice", "?x" := "o"];
    assert !HasOperator("alice") && Unwrapped("alice") == "alice";
    JoinWithOne(p, dict, t, st, [empty]);
    FlatMapOne(ExtendBy(p, st), empty);
    assert empty["alice" := "alice"]["?x" := "o"] == row;
    assert HoldsOnTop(n, row, f) && !HoldsOnTop(n, empty, f);
    assert Passes(n, [f])(row) && !Passes(n, [f])(empty);
    FilterOne(Passes(n, [f]), empty);
    FilterOne(Passes(n, [f]), row);
    assert Filter(Passes(n, [f]), [empty]) == [] && Filter(Passes(n, [f]), [row]) == [row];
    JoinWithOne(p, dict, t, st, []);
  }
}
