/** Evaluating patterns is joining: the loop over the patterns against the natural join of solution mappings. */
module PatternAlgebra {
  import opened Options
  import opened Bags
  import opened SolutionMappings
  import opened Triples
  import opened PatternJoin
  import opened BasicGraphPattern
  import opened WindowJoin

  /** The solution mappings of one pattern. */
  function SolutionsOf(p: Pattern, dict: Dictionary, triples: seq<Triple>): seq<Row> {
    NestedJoin(p, dict, triples, [map[]])
  }

  /** Extending a row by a statement is merging it with what the statement binds. */
  lemma ExtendIsMerge(p: Pattern, st: Statement, row: Row)
    ensures Extend(p, st, row) == FlatMap(MergeWith(row), Extend(p, st, map[]))
  {
    if Extend(p, st, map[]) == [] {
      assert FlatMap(MergeWith(row), Extend(p, st, map[])) == [];
    } else {
      var bound: Row := map[p.subj := st.subj][p.obj := st.obj];
      BindsBothPositions(p, st);
      FlatMapOne(MergeWith(row), bound);
      MergeOfBound(p, st, row, bound);
    }
  }

  lemma BindsBothPositions(p: Pattern, st: Statement)
    requires Extend(p, st, map[]) != []
    ensures Extend(p, st, map[]) == [map[p.subj := st.subj][p.obj := st.obj]] && (p.subj == p.obj ==> st.subj == st.obj)
  {
    assert map[][p.subj := st.subj] == map[p.subj := st.subj];
    assert p.subj == p.obj && st.subj == st.obj ==>
      map[p.subj := st.subj][p.obj := st.obj] == map[p.subj := st.subj];
  }

  lemma MergeOfBound(p: Pattern, st: Statement, row: Row, bound: Row)
    requires bound == map[p.subj := st.subj][p.obj := st.obj] && (p.subj == p.obj ==> st.subj == st.obj)
    ensures Extend(p, st, row) == Merge(row, bound)
  {
    var fits := (p.subj in row ==> row[p.subj] == st.subj) && (p.obj in row ==> row[p.obj] == st.obj);
    assert Compatible(row, bound) <==> fits;
    if fits {
      var extended := Extend(p, st, row);
      assert extended != [] && extended == [extended[0]];
      assert extended[0] == row + bound;
    }
  }

  /** What one triple adds to one row. */
  function AddedBy(p: Pattern, dict: Dictionary): Triple -> Row -> seq<Row> {
    t => row => FlatMap(MergeWith(row), Contribution(p, dict, [map[]])(t))
  }

  function AddedTo(p: Pattern, dict: Dictionary): Row -> Triple -> seq<Row> {
    row => t => FlatMap(MergeWith(row), Contribution(p, dict, [map[]])(t))
  }

  lemma ContributionIsMerge(p: Pattern, dict: Dictionary, rows: seq<Row>, t: Triple)
    ensures Contribution(p, dict, rows)(t) == FlatMap(AddedBy(p, dict)(t), rows)
  {
    var st := Decode(dict, t);
    if st.Some? && Selects(p, st.value) {
      FlatMapOne<Row, Row>(ExtendBy(p, st.value), map[]);
      forall row | row in rows ensures ExtendBy(p, st.value)(row) == AddedBy(p, dict)(t)(row) {
        ExtendIsMerge(p, st.value, row);
      }
      FlatMapCongruent(ExtendBy(p, st.value), AddedBy(p, dict)(t), rows);
    } else {
      FlatMapNothing(AddedBy(p, dict)(t), rows);
    }
  }

  /** A pattern joined with the rows gives the bag of joining the rows with the pattern's solution mappings. */
  lemma PatternIsJoin(p: Pattern, dict: Dictionary, triples: seq<Triple>, rows: seq<Row>)
    ensures multiset(NestedJoin(p, dict, triples, rows)) == multiset(Join(rows, SolutionsOf(p, dict, triples)))
  {
    forall t | t in triples ensures Contribution(p, dict, rows)(t) == FlatMap(AddedBy(p, dict)(t), rows) {
      ContributionIsMerge(p, dict, rows, t);
    }
    forall row | row in rows
      ensures JoinWith(SolutionsOf(p, dict, triples))(row) == FlatMap(AddedTo(p, dict)(row), triples)
    {
      FlatMapNested(MergeWith(row), Contribution(p, dict, [map[]]), AddedTo(p, dict)(row), triples);
    }
    FlatMapExchange(AddedBy(p, dict), AddedTo(p, dict), Contribution(p, dict, rows),
                    JoinWith(SolutionsOf(p, dict, triples)), triples, rows);
  }

  lemma JoinWithEmptyRow(rows: seq<Row>)
    ensures Join(rows, [map[]]) == rows
  {
    forall row | row in rows ensures JoinWith([map[]])(row) == [row] {
      FlatMapOne<Row, Row>(MergeWith(row), map[]);
      assert row + map[] == row;
    }
    Singles(JoinWith([map[]]), rows);
  }

  lemma {:induction false} Singles(f: Row -> seq<Row>, rows: seq<Row>)
    requires forall row | row in rows :: f(row) == [row]
    ensures FlatMap(f, rows) == rows
  {
    if rows != [] {
      assert rows[0] in rows;
      Singles(f, rows[1..]);
      assert [rows[0]] + rows[1..] == rows;
    }
  }

  /** The loop over the patterns, started from any rows over any store, delivers the bag of joining those rows with
      the solution mappings of the patterns: inline data are joined with the patterns (section 18.5 of SPARQL 1.1
      Query Language). */
  lemma {:induction false} EvaluateIsJoin(patterns: seq<Pattern>, dict: Dictionary, triples: seq<Triple>,
                                          rows: seq<Row>)
    ensures multiset(Evaluate(patterns, dict, triples, rows))
         == multiset(Join(rows, Evaluate(patterns, dict, triples, [map[]])))
  {
    if patterns == [] {
      JoinWithEmptyRow(rows);
    } else {
      var n := |patterns| - 1;
      var p, found := patterns[n], SolutionsOf(patterns[n], dict, triples);
      var front, alone := Evaluate(patterns[..n], dict, triples, rows), Evaluate(patterns[..n], dict, triples, [map[]]);
      EvaluateIsJoin(patterns[..n], dict, triples, rows);
      PatternIsJoin(p, dict, triples, front);
      PatternIsJoin(p, dict, triples, alone);
      JoinThreeBags(front, rows, alone, found, NestedJoin(p, dict, triples, alone));
    }
  }

  lemma JoinThreeBags(front: seq<Row>, rows: seq<Row>, alone: seq<Row>, found: seq<Row>, joined: seq<Row>)
    requires multiset(front) == multiset(Join(rows, alone)) && multiset(joined) == multiset(Join(alone, found))
    ensures multiset(Join(front, found)) == multiset(Join(rows, joined))
  {
    JoinBag(front, found, Join(rows, alone), found);
    JoinAssociates(rows, alone, found);
    JoinBag(rows, joined, rows, Join(alone, found));
  }

  // ---------------------------------------------------------------- all patterns at once

  function AsWindow(dict: Dictionary, triples: seq<Triple>): Pattern -> seq<seq<Row>> {
    p => [SolutionsOf(p, dict, triples)]
  }

  /** The solution mappings of the patterns, pattern by pattern. */
  function AllSolutions(patterns: seq<Pattern>, dict: Dictionary, triples: seq<Triple>): seq<seq<Row>> {
    FlatMap(AsWindow(dict, triples), patterns)
  }

  lemma AllSolutionsLast(patterns: seq<Pattern>, dict: Dictionary, triples: seq<Triple>)
    requires patterns != []
    ensures var n, all := |patterns| - 1, AllSolutions(patterns, dict, triples);
      all == AllSolutions(patterns[..n], dict, triples) + [SolutionsOf(patterns[n], dict, triples)]
  {
    var n := |patterns| - 1;
    FlatMapStep(AsWindow(dict, triples), patterns, n);
    assert patterns[..n + 1] == patterns;
  }

  /** Without inline data the bag delivered is the join of the solution mappings of all patterns. */
  lemma {:induction false} EvaluateIsJoinAll(patterns: seq<Pattern>, dict: Dictionary, triples: seq<Triple>)
    ensures multiset(Evaluate(patterns, dict, triples, [map[]]))
         == multiset(JoinAll(AllSolutions(patterns, dict, triples)))
  {
    if patterns != [] {
      var n := |patterns| - 1;
      var found, front := SolutionsOf(patterns[n], dict, triples), AllSolutions(patterns[..n], dict, triples);
      var alone := Evaluate(patterns[..n], dict, triples, [map[]]);
      EvaluateIsJoinAll(patterns[..n], dict, triples);
      PatternIsJoin(patterns[n], dict, triples, alone);
      JoinBag(alone, found, JoinAll(front), found);
      AllSolutionsLast(patterns, dict, triples);
      assert (front + [found])[..|front|] == front;
    }
  }

  /** So the patterns may be taken in any order, over any store and from any rows. */
  lemma PatternsPermuted(patterns: seq<Pattern>, others: seq<Pattern>, dict: Dictionary, triples: seq<Triple>,
                         rows: seq<Row>)
    requires multiset(patterns) == multiset(others)
    ensures multiset(Evaluate(patterns, dict, triples, rows)) == multiset(Evaluate(others, dict, triples, rows))
  {
    EvaluateIsJoin(patterns, dict, triples, rows);
    EvaluateIsJoin(others, dict, triples, rows);
    EvaluateIsJoinAll(patterns, dict, triples);
    EvaluateIsJoinAll(others, dict, triples);
    FlatMapPermuted(AsWindow(dict, triples), patterns, others);
    JoinAllPermuted(AllSolutions(patterns, dict, triples), AllSolutions(others, dict, triples));
    JoinBag(rows, Evaluate(patterns, dict, triples, [map[]]), rows, Evaluate(others, dict, triples, [map[]]));
  }
}
