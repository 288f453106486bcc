/** A query's patterns joined one after the other: basic graph pattern evaluation
    (section 18.3.1 of SPARQL 1.1 Query Language). */
module BasicGraphPattern {
  import opened Options
  import opened Bags
  import opened SolutionMappings
  import opened PatternJoin
  import opened FastJoins
  import opened Triples
  import opened Sequences

  /** The pattern loop of a query. */
  function Evaluate(patterns: seq<Pattern>, dict: Dictionary, triples: seq<Triple>, rows: seq<Row>): seq<Row> {
    if patterns == [] then rows
    else NestedJoin(patterns[|patterns| - 1], dict, triples, Evaluate(patterns[..|patterns| - 1], dict, triples, rows))
  }

  lemma NestedJoinBag(p: Pattern, dict: Dictionary, triples: seq<Triple>, a: seq<Row>, b: seq<Row>)
    requires multiset(a) == multiset(b)
    ensures multiset(NestedJoin(p, dict, triples, a)) == multiset(NestedJoin(p, dict, triples, b))
  {
    forall t | t in triples
      ensures multiset(Contribution(p, dict, a)(t)) == multiset(Contribution(p, dict, b)(t))
    {
      var st := Decode(dict, t);
      if st.Some? && Selects(p, st.value) {
        FlatMapPermuted(ExtendBy(p, st.value), a, b);
      }
    }
    FlatMapBagCongruent(Contribution(p, dict, a), Contribution(p, dict, b), triples);
  }

  /** The loop as the engine runs it, with the parallel join and an arbitrary schedule at every step. */
  method EvaluateParallel(patterns: seq<Pattern>, dict: Dictionary, triples: seq<Triple>, rows: seq<Row>,
                          schedules: seq<seq<nat>>)
    returns (results: seq<Row>)
    requires |schedules| == |patterns| && forall s | s in schedules :: IsSchedule(s, ChunkCount(|triples|, 256))
    ensures multiset(results) == multiset(Evaluate(patterns, dict, triples, rows))
  {
    results := rows;
    for i := 0 to |patterns|
      invariant multiset(results) == multiset(Evaluate(patterns[..i], dict, triples, rows))
    {
      assert patterns[..i + 1][..i] == patterns[..i];
      assert schedules[i] in schedules;
      NestedJoinBag(patterns[i], dict, triples, results, Evaluate(patterns[..i], dict, triples, rows));
      results := PerformJoinParallel(patterns[i], dict, triples, results, schedules[i]);
    }
    TakeAll(patterns);
  }

  lemma {:induction false} EvaluateFirst(patterns: seq<Pattern>, dict: Dictionary, triples: seq<Triple>, rows: seq<Row>)
    requires patterns != []
    ensures Evaluate(patterns, dict, triples, rows)
         == Evaluate(patterns[1..], dict, triples, NestedJoin(patterns[0], dict, triples, rows))
  {
    if |patterns| == 1 {
      assert patterns[..0] == [];
    } else {
      var n := |patterns| - 1;
      EvaluateFirst(patterns[..n], dict, triples, rows);
      assert patterns[..n][1..] == patterns[1..][..n - 1];
    }
  }

  // ---------------------------------------------------------------- what a row of the result means

  /** The store as a set of decoded statements. */
  ghost function Statements(dict: Dictionary, triples: seq<Triple>): set<Statement> {
    set t | t in triples && Decode(dict, t).Some? :: Decode(dict, t).value
  }

  /** A statement is in the store when the three identifiers of some triple stand for its terms. */
  lemma StatementStored(dict: Dictionary, triples: seq<Triple>, s: string, p: string, o: string)
    ensures Statement(s, p, o) in Statements(dict, triples) <==>
      exists t | t in triples :: && t.subj in dict && dict[t.subj] == s && t.pred in dict && dict[t.pred] == p
                                 && t.obj in dict && dict[t.obj] == o
  {
    forall t | t in triples && Decode(dict, t) == Some(Statement(s, p, o))
      ensures Statement(s, p, o) in Statements(dict, triples)
    {
    }
  }

  /** The names a pattern binds; a fixed object is bound under its own text. */
  function Names(patterns: seq<Pattern>): set<string> {
    if patterns == [] then {} else {patterns[0].subj, patterns[0].obj} + Names(patterns[1..])
  }

  /** The row maps the pattern to a statement of the store. */
  ghost predicate Holds(p: Pattern, store: set<Statement>, row: Row) {
    && p.subj in row && p.obj in row
    && Statement(row[p.subj], p.pred, row[p.obj]) in store
    && (p.literal.Some? ==> row[p.obj] == p.literal.value)
  }

  ghost predicate AllHold(patterns: seq<Pattern>, store: set<Statement>, row: Row) {
    forall p | p in patterns :: Holds(p, store, row)
  }

  /** `row` is a start from which binding `names` can lead to `target`. */
  function Below(target: Row, names: set<string>): Row -> bool {
    (row: Row) =>
      row.Keys <= target.Keys && (forall v | v in row :: row[v] == target[v]) && target.Keys == row.Keys + names
  }

  /** Distinct identifiers have distinct texts, and the vector lists every triple once. */
  ghost predicate Interned(dict: Dictionary, triples: seq<Triple>) {
    && NoDuplicates(triples)
    && forall a, b | a in dict && b in dict && dict[a] == dict[b] :: a == b
  }

  /** A row extended by `st` stays below the target exactly when it was below it and `st` is the target's statement. */
  lemma ExtendBelow(p: Pattern, st: Statement, row: Row, target: Row, names: set<string>)
    ensures var here := p.subj in target && p.obj in target && st.subj == target[p.subj] && st.obj == target[p.obj];
      |Filter(Below(target, names), Extend(p, st, row))|
      == if here && Below(target, {p.subj, p.obj} + names)(row) then 1 else 0
  {
    var ext := Extend(p, st, row);
    if ext != [] {
      assert ext == [ext[0]];
      ExtendedBelow(p, st, row, ext[0], target, names);
      assert Filter(Below(target, names), ext) == if Below(target, names)(ext[0]) then [ext[0]] else [];
    }
  }

  lemma ExtendedBelow(p: Pattern, st: Statement, row: Row, extended: Row, target: Row, names: set<string>)
    requires Extend(p, st, row) == [extended]
    ensures Below(target, names)(extended)
      <==> IsStatementOf(p, st, target) && Below(target, {p.subj, p.obj} + names)(row)
  {
    assert extended.Keys == row.Keys + {p.subj, p.obj};
    assert extended[p.subj] == st.subj && extended[p.obj] == st.obj;
  }

  ghost predicate IsStatementOf(p: Pattern, st: Statement, target: Row) {
    p.subj in target && p.obj in target && st.subj == target[p.subj] && st.obj == target[p.obj]
  }

  lemma {:induction false} RowsBelow(p: Pattern, st: Statement, rows: seq<Row>, target: Row, names: set<string>)
    ensures |Filter(Below(target, names), FlatMap(ExtendBy(p, st), rows))|
         == if IsStatementOf(p, st, target) then |Filter(Below(target, {p.subj, p.obj} + names), rows)| else 0
  {
    if rows != [] {
      RowsBelow(p, st, rows[1..], target, names);
      ExtendBelow(p, st, rows[0], target, names);
      FilterAppend(Below(target, names), Extend(p, st, rows[0]), FlatMap(ExtendBy(p, st), rows[1..]));
    }
  }

  /** One join step, seen from a target row: the starts below the target survive when the pattern holds. */
  lemma {:induction false} JoinBelow(p: Pattern, dict: Dictionary, triples: seq<Triple>, rows: seq<Row>, target: Row,
                                     names: set<string>)
    requires Interned(dict, triples)
    ensures |Filter(Below(target, names), NestedJoin(p, dict, triples, rows))|
         == if Holds(p, Statements(dict, triples), target)
            then |Filter(Below(target, {p.subj, p.obj} + names), rows)| else 0
  {
    if triples != [] {
      var t, rest := triples[0], triples[1..];
      JoinBelow(p, dict, rest, rows, target, names);
      FilterAppend(Below(target, names), Contribution(p, dict, rows)(t), NestedJoin(p, dict, rest, rows));
      var st := Decode(dict, t);
      if st.Some? {
        if Selects(p, st.value) {
          RowsBelow(p, st.value, rows, target, names);
          assert IsStatementOf(p, st.value, target) ==> Statement(target[p.subj], p.pred, target[p.obj]) == st.value;
        }
      }
    }
  }

  lemma {:induction false} CountFilter(target: Row, rows: seq<Row>)
    ensures multiset(rows)[target] == |Filter(Below(target, {}), rows)|
  {
    if rows != [] {
      assert rows == [rows[0]] + rows[1..];
      CountFilter(target, rows[1..]);
      if Below(target, {})(rows[0]) {
        assert rows[0] == target;
      }
    }
  }

  /** From any initial rows: a row is in the result once for every initial row it extends by the names of the
      patterns, provided every pattern holds in it, and not at all otherwise. */
  lemma {:induction false} EvaluateCount(patterns: seq<Pattern>, dict: Dictionary, triples: seq<Triple>, rows: seq<Row>,
                                         target: Row)
    requires Interned(dict, triples)
    ensures multiset(Evaluate(patterns, dict, triples, rows))[target]
         == if AllHold(patterns, Statements(dict, triples), target)
            then |Filter(Below(target, Names(patterns)), rows)| else 0
    decreases |patterns|
  {
    if patterns == [] {
      CountFilter(target, rows);
    } else {
      var p, rest := patterns[0], patterns[1..];
      var next := NestedJoin(p, dict, triples, rows);
      EvaluateFirst(patterns, dict, triples, rows);
      EvaluateCount(rest, dict, triples, next, target);
      JoinBelow(p, dict, triples, rows, target, Names(rest));
      assert patterns == [p] + rest;
    }
  }

  lemma {:induction false} NamesOf(patterns: seq<Pattern>)
    ensures forall v :: v in Names(patterns) <==> exists p | p in patterns :: v == p.subj || v == p.obj
  {
    if patterns != [] {
      NamesOf(patterns[1..]);
      assert patterns == [patterns[0]] + patterns[1..];
    }
  }

  /** The bag of solutions does not depend on the order of the patterns, whatever the initial rows. */
  lemma PatternOrderFree(patterns: seq<Pattern>, others: seq<Pattern>, dict: Dictionary, triples: seq<Triple>,
                         rows: seq<Row>)
    requires Interned(dict, triples) && forall p :: p in patterns <==> p in others
    ensures multiset(Evaluate(patterns, dict, triples, rows)) == multiset(Evaluate(others, dict, triples, rows))
  {
    NamesOf(patterns);
    NamesOf(others);
    assert Names(patterns) == Names(others);
    forall target
      ensures multiset(Evaluate(patterns, dict, triples, rows))[target]
           == multiset(Evaluate(others, dict, triples, rows))[target]
    {
      EvaluateCount(patterns, dict, triples, rows, target);
      EvaluateCount(others, dict, triples, rows, target);
    }
  }

  // ---------------------------------------------------------------- queries

  predicate IsVariable(s: string) {
    s != [] && s[0] == '?'
  }

  datatype QueryTriple = QueryTriple(subj: string, pred: string, obj: string)

  /** How the query loop calls the join: an object that is not a variable doubles as the literal filter. */
  function ToPattern(q: QueryTriple): Pattern {
    Pattern(q.subj, q.pred, q.obj, if IsVariable(q.obj) then None else Some(q.obj))
  }

  function ToPatterns(query: seq<QueryTriple>): (ps: seq<Pattern>)
    ensures |ps| == |query| && forall i | 0 <= i < |query| :: ps[i] == ToPattern(query[i])
  {
    seq(|query|, i requires 0 <= i < |query| => ToPattern(query[i]))
  }
}
