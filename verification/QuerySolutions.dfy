/** What the pattern loop delivers for a query, against the solution mappings of its basic graph pattern
    (section 18.3.1 of SPARQL 1.1 Query Language). */
module QuerySolutions {
  import opened Options
  import opened Bags
  import opened SolutionMappings
  import opened Triples
  import opened PatternJoin
  import opened BasicGraphPattern
  import opened StatementStores

  /** The term denoted by `s` under the solution mapping `m`. */
  function Denotes(m: Row, s: string): Option<string> {
    if !IsVariable(s) then Some(s) else if s in m then Some(m[s]) else None
  }

  function OnlyIf(b: bool, s: string): set<string> {
    if b then {s} else {}
  }

  /** The variables of the query, in any position. */
  function Variables(query: seq<QueryTriple>): set<string> {
    if query == [] then {} else
    OnlyIf(IsVariable(query[0].subj), query[0].subj) + OnlyIf(IsVariable(query[0].pred), query[0].pred)
    + OnlyIf(IsVariable(query[0].obj), query[0].obj) + Variables(query[1..])
  }

  /** The constants in subject and object position. */
  function Constants(query: seq<QueryTriple>): set<string> {
    if query == [] then {} else
    OnlyIf(!IsVariable(query[0].subj), query[0].subj) + OnlyIf(!IsVariable(query[0].obj), query[0].obj)
        + Constants(query[1..])
  }

  ghost predicate Satisfied(q: QueryTriple, store: set<Statement>, m: Row) {
    var s, p, o := Denotes(m, q.subj), Denotes(m, q.pred), Denotes(m, q.obj);
    s.Some? && p.Some? && o.Some? && Statement(s.value, p.value, o.value) in store
  }

  /** A solution mapping of the basic graph pattern: defined on its variables, and mapping every pattern to a
      statement of the store. */
  ghost predicate IsSolution(query: seq<QueryTriple>, store: set<Statement>, m: Row) {
    m.Keys == Variables(query) && forall i | 0 <= i < |query| :: Satisfied(query[i], store, m)
  }

  /** The row of a solution: constants appear bound to themselves. */
  ghost function SolutionRow(query: seq<QueryTriple>, m: Row): Row {
    m + map c | c in Constants(query) :: c
  }

  ghost predicate ConstantPredicates(query: seq<QueryTriple>) {
    forall i | 0 <= i < |query| :: !IsVariable(query[i].pred)
  }

  /** The subject is a variable, or it also stands as an object somewhere in the query. */
  ghost predicate Anchored(query: seq<QueryTriple>, s: string) {
    IsVariable(s) || exists j | 0 <= j < |query| :: query[j].obj == s
  }

  ghost predicate AnchoredSubjects(query: seq<QueryTriple>) {
    forall i | 0 <= i < |query| :: Anchored(query, query[i].subj)
  }

  lemma {:induction false} QueryNames(query: seq<QueryTriple>)
    requires ConstantPredicates(query)
    ensures Names(ToPatterns(query)) == Variables(query) + Constants(query)
  {
    if query != [] {
      QueryNames(query[1..]);
      assert ToPatterns(query)[1..] == ToPatterns(query[1..]);
    }
  }

  lemma {:induction false} NameKinds(query: seq<QueryTriple>)
    ensures forall v | v in Variables(query) :: IsVariable(v)
    ensures forall c | c in Constants(query) :: !IsVariable(c)
    ensures forall i | 0 <= i < |query| :: {query[i].subj, query[i].obj} <= Variables(query) + Constants(query)
    ensures forall i | 0 <= i < |query| && IsVariable(query[i].pred) :: query[i].pred in Variables(query)
  {
    if query != [] {
      NameKinds(query[1..]);
      assert forall i | 0 < i < |query| :: query[i] == query[1..][i - 1];
    }
  }

  lemma PatternHolds(query: seq<QueryTriple>, store: set<Statement>, m: Row, i: nat)
    requires ConstantPredicates(query) && m.Keys == Variables(query) && i < |query|
    ensures Holds(ToPattern(query[i]), store, SolutionRow(query, m)) <==> Satisfied(query[i], store, m)
  {
    NameKinds(query);
    assert {query[i].subj, query[i].obj} <= Variables(query) + Constants(query);
  }

  lemma SolutionHolds(query: seq<QueryTriple>, store: set<Statement>, m: Row)
    requires ConstantPredicates(query) && m.Keys == Variables(query)
    ensures AllHold(ToPatterns(query), store, SolutionRow(query, m)) <==> IsSolution(query, store, m)
  {
    var ps, row := ToPatterns(query), SolutionRow(query, m);
    forall i | 0 <= i < |query| ensures Holds(ps[i], store, row) <==> Satisfied(query[i], store, m) {
      PatternHolds(query, store, m, i);
    }
    forall i | 0 <= i < |query| ensures ps[i] in ps {
    }
  }

  lemma FromEmptyRow(row: Row, names: set<string>)
    ensures |Filter(Below(row, names), [map[]])| == if row.Keys == names then 1 else 0
  {
  }

  /** Every solution mapping of a query with constant predicates is delivered exactly once ... */
  lemma SolutionsOnce(query: seq<QueryTriple>, dict: Dictionary, triples: seq<Triple>, m: Row)
    requires Interned(dict, triples) && ConstantPredicates(query) && m.Keys == Variables(query)
    ensures multiset(Evaluate(ToPatterns(query), dict, triples, [map[]]))[SolutionRow(query, m)]
         == if IsSolution(query, Statements(dict, triples), m) then 1 else 0
  {
    var row := SolutionRow(query, m);
    EvaluateCount(ToPatterns(query), dict, triples, [map[]], row);
    SolutionHolds(query, Statements(dict, triples), m);
    QueryNames(query);
    FromEmptyRow(row, Names(ToPatterns(query)));
  }

  /** A constant object is bound to itself, whatever its use as a subject. */
  lemma ObjectsBoundToThemselves(query: seq<QueryTriple>, store: set<Statement>, row: Row, j: nat)
    requires AllHold(ToPatterns(query), store, row) && j < |query| && !IsVariable(query[j].obj)
    ensures query[j].obj in row && row[query[j].obj] == query[j].obj
  {
    assert ToPatterns(query)[j] in ToPatterns(query);
  }

  lemma {:induction false} ConstantIsUsed(query: seq<QueryTriple>, c: string)
    requires c in Constants(query)
    ensures !IsVariable(c) && exists i | 0 <= i < |query| :: query[i].subj == c || query[i].obj == c
  {
    if c in Constants(query[1..]) {
      ConstantIsUsed(query[1..], c);
      var i :| 0 <= i < |query[1..]| && (query[1..][i].subj == c || query[1..][i].obj == c);
      assert query[i + 1] == query[1..][i];
    } else {
      assert query[0].subj == c || query[0].obj == c;
    }
  }

  lemma ConstantsBoundToThemselves(query: seq<QueryTriple>, store: set<Statement>, row: Row)
    requires AnchoredSubjects(query) && AllHold(ToPatterns(query), store, row)
    ensures forall c | c in Constants(query) :: c in row && row[c] == c
  {
    forall c | c in Constants(query) ensures c in row && row[c] == c {
      ConstantIsUsed(query, c);
      var i :| 0 <= i < |query| && (query[i].subj == c || query[i].obj == c);
      assert Anchored(query, query[i].subj);
      var j :| 0 <= j < |query| && query[j].obj == c;
      ObjectsBoundToThemselves(query, store, row, j);
    }
  }

  ghost function VariablePart(row: Row): Row {
    map v | v in row && IsVariable(v) :: row[v]
  }

  lemma RowOfVariables(query: seq<QueryTriple>, row: Row)
    requires row.Keys == Variables(query) + Constants(query)
    requires forall v | v in Variables(query) :: IsVariable(v)
    requires forall c | c in Constants(query) :: !IsVariable(c) && row[c] == c
    ensures VariablePart(row).Keys == Variables(query)
    ensures row == SolutionRow(query, VariablePart(row))
  {
  }

  /** ... and every delivered row is that of a solution mapping, its restriction to the variables, when every
      constant subject also stands as an object. */
  lemma OnlySolutions(query: seq<QueryTriple>, dict: Dictionary, triples: seq<Triple>, row: Row)
    requires Interned(dict, triples) && ConstantPredicates(query) && AnchoredSubjects(query)
    requires row in Evaluate(ToPatterns(query), dict, triples, [map[]])
    ensures IsSolution(query, Statements(dict, triples), VariablePart(row))
    ensures row == SolutionRow(query, VariablePart(row))
  {
    var ps, store := ToPatterns(query), Statements(dict, triples);
    assert row in multiset(Evaluate(ps, dict, triples, [map[]]));
    EvaluateCount(ps, dict, triples, [map[]], row);
    FromEmptyRow(row, Names(ps));
    QueryNames(query);
    NameKinds(query);
    ConstantsBoundToThemselves(query, store, row);
    RowOfVariables(query, row);
    SolutionHolds(query, store, VariablePart(row));
  }

  // ---------------------------------------------------------------- exactly the queries that are answered

  /** On this store the query delivers the rows of its solution mappings, each once, and nothing else. */
  ghost predicate AnsweredOn(query: seq<QueryTriple>, dict: Dictionary, triples: seq<Triple>) {
    var rows, store := Evaluate(ToPatterns(query), dict, triples, [map[]]), Statements(dict, triples);
    && (forall m: Row :: m.Keys == Variables(query) ==>
          multiset(rows)[SolutionRow(query, m)] == if IsSolution(query, store, m) then 1 else 0)
    && (forall row | row in rows :: exists m: Row :: IsSolution(query, store, m) && row == SolutionRow(query, m))
  }

  ghost predicate Answered(query: seq<QueryTriple>) {
    forall dict: Dictionary, triples: seq<Triple> :: Interned(dict, triples) ==> AnsweredOn(query, dict, triples)
  }

  lemma AnsweredWhenAnchored(query: seq<QueryTriple>, dict: Dictionary, triples: seq<Triple>)
    requires Interned(dict, triples) && ConstantPredicates(query) && AnchoredSubjects(query)
    ensures AnsweredOn(query, dict, triples)
  {
    var rows, store := Evaluate(ToPatterns(query), dict, triples, [map[]]), Statements(dict, triples);
    forall m: Row | m.Keys == Variables(query)
      ensures multiset(rows)[SolutionRow(query, m)] == if IsSolution(query, store, m) then 1 else 0
    {
      SolutionsOnce(query, dict, triples, m);
    }
    forall row | row in rows ensures exists m: Row :: IsSolution(query, store, m) && row == SolutionRow(query, m) {
      OnlySolutions(query, dict, triples, row);
    }
  }

  /** The statements a row makes of the query. */
  ghost function Instances(query: seq<QueryTriple>, row: Row): set<Statement>
    requires forall i | 0 <= i < |query| :: query[i].subj in row && query[i].obj in row
  {
    set i | 0 <= i < |query| :: Statement(row[query[i].subj], query[i].pred, row[query[i].obj])
  }

  /** Every name stands for itself, but `c` for a longer text. */
  ghost function Shifted(query: seq<QueryTriple>, c: string): Row {
    map name | name in Variables(query) + Constants(query) :: if name == c then c + "x" else name
  }

  lemma ShiftedRow(query: seq<QueryTriple>, c: string)
    requires ConstantPredicates(query)
    ensures var row := Shifted(query, c);
      && row.Keys == Names(ToPatterns(query))
      && forall i | 0 <= i < |query| :: query[i].subj in row && query[i].obj in row
  {
    QueryNames(query);
    NameKinds(query);
    forall i | 0 <= i < |query| ensures query[i].subj in Shifted(query, c) && query[i].obj in Shifted(query, c) {
      assert {query[i].subj, query[i].obj} <= Variables(query) + Constants(query);
    }
  }

  /** The shifted row meets every pattern in its own statements, when no object is shifted. */
  lemma ShiftedHolds(query: seq<QueryTriple>, c: string)
    requires ConstantPredicates(query) && forall i | 0 <= i < |query| :: query[i].obj != c
    requires forall i | 0 <= i < |query| :: query[i].subj in Shifted(query, c) && query[i].obj in Shifted(query, c)
    ensures AllHold(ToPatterns(query), Instances(query, Shifted(query, c)), Shifted(query, c))
  {
    var row, ps := Shifted(query, c), ToPatterns(query);
    forall p | p in ps ensures Holds(p, Instances(query, row), row) {
      var i :| 0 <= i < |ps| && ps[i] == p;
      assert Statement(row[query[i].subj], query[i].pred, row[query[i].obj]) in Instances(query, row);
    }
  }

  lemma ShiftedIsNoSolution(query: seq<QueryTriple>, c: string, m: Row)
    requires c in Constants(query) && m.Keys == Variables(query)
    ensures Shifted(query, c) != SolutionRow(query, m)
  {
    NameKinds(query);
    assert |c + "x"| == |c| + 1;
    assert Shifted(query, c)[c] == c + "x" && SolutionRow(query, m)[c] == c;
  }

  lemma Delivered(ps: seq<Pattern>, dict: Dictionary, triples: seq<Triple>, row: Row)
    requires Interned(dict, triples) && AllHold(ps, Statements(dict, triples), row) && row.Keys == Names(ps)
    ensures row in Evaluate(ps, dict, triples, [map[]])
  {
    EvaluateCount(ps, dict, triples, [map[]], row);
    FromEmptyRow(row, Names(ps));
    assert row in multiset(Evaluate(ps, dict, triples, [map[]]));
  }

  /** A constant subject that is no object: a store on which a row is delivered that is no solution. */
  lemma UnanchoredSubject(query: seq<QueryTriple>, i: nat)
    requires ConstantPredicates(query) && i < |query| && !Anchored(query, query[i].subj)
    ensures !Answered(query)
  {
    var c := query[i].subj;
    var row, ps := Shifted(query, c), ToPatterns(query);
    NameKinds(query);
    assert {c, query[i].obj} <= Variables(query) + Constants(query);
    ShiftedRow(query, c);
    ShiftedHolds(query, c);
    SomeStore(Instances(query, row));
    var dict: Dictionary, triples: seq<Triple> :| Interned(dict, triples)
        && Statements(dict, triples) == Instances(query, row);
    Delivered(ps, dict, triples, row);
    forall m: Row | IsSolution(query, Statements(dict, triples), m) ensures row != SolutionRow(query, m) {
      ShiftedIsNoSolution(query, c, m);
    }
    assert !AnsweredOn(query, dict, triples);
  }

  /** Every variable stands for the same constant. */
  ghost function Constantly(query: seq<QueryTriple>): Row {
    map v | v in Variables(query) :: "x"
  }

  ghost function Ground(s: string): string {
    if IsVariable(s) then "x" else s
  }

  ghost function GroundTriples(query: seq<QueryTriple>): set<Statement> {
    set i | 0 <= i < |query| :: Statement(Ground(query[i].subj), Ground(query[i].pred), Ground(query[i].obj))
  }

  lemma ConstantlySolves(query: seq<QueryTriple>)
    ensures IsSolution(query, GroundTriples(query), Constantly(query))
  {
    NameKinds(query);
    forall i | 0 <= i < |query| ensures Satisfied(query[i], GroundTriples(query), Constantly(query)) {
      assert {query[i].subj, query[i].obj} <= Variables(query) + Constants(query);
      assert Statement(Ground(query[i].subj), Ground(query[i].pred), Ground(query[i].obj)) in GroundTriples(query);
    }
  }

  lemma VariablePredicateFails(query: seq<QueryTriple>, i: nat, row: Row)
    requires i < |query| && IsVariable(query[i].pred)
    ensures !AllHold(ToPatterns(query), GroundTriples(query), row)
  {
    assert forall st | st in GroundTriples(query) :: !IsVariable(st.pred);
    assert ToPatterns(query)[i] in ToPatterns(query);
  }

  /** A variable predicate: a store with a solution that is not delivered. */
  lemma VariablePredicate(query: seq<QueryTriple>, i: nat)
    requires i < |query| && IsVariable(query[i].pred)
    ensures !Answered(query)
  {
    var m, store := Constantly(query), GroundTriples(query);
    ConstantlySolves(query);
    VariablePredicateFails(query, i, SolutionRow(query, m));
    SomeStore(store);
    var dict: Dictionary, triples: seq<Triple> :| Interned(dict, triples) && Statements(dict, triples) == store;
    EvaluateCount(ToPatterns(query), dict, triples, [map[]], SolutionRow(query, m));
    assert !AnsweredOn(query, dict, triples);
  }

  /** Exactly the queries with constant predicates all of whose constant subjects also stand as objects are answered
      by their solution mappings on every store. */
  lemma AnsweredExactly(query: seq<QueryTriple>)
    ensures Answered(query) <==> ConstantPredicates(query) && AnchoredSubjects(query)
  {
    if !ConstantPredicates(query) {
      var i :| 0 <= i < |query| && IsVariable(query[i].pred);
      VariablePredicate(query, i);
    } else if !AnchoredSubjects(query) {
      var i :| 0 <= i < |query| && !Anchored(query, query[i].subj);
      UnanchoredSubject(query, i);
    } else {
      forall dict: Dictionary, triples: seq<Triple> | Interned(dict, triples) ensures AnsweredOn(query, dict, triples) {
        AnsweredWhenAnchored(query, dict, triples);
      }
    }
  }

  // ---------------------------------------------------------------- examples

  /** A constant subject is used as the name of a variable and matches anything. */
  lemma FixedSubjectMatchesAnything()
    ensures var dict: Dictionary := map[0 := "bob", 1 := "knows", 2 := "eve"];
      var query := [QueryTriple("alice", "knows", "?x")];
      && !IsSolution(query, Statements(dict, [Triple(0, 1, 2)]), map["?x" := "eve"])
      && Evaluate(ToPatterns(query), dict, [Triple(0, 1, 2)], [map[]]) == [map["alice" := "bob", "?x" := "eve"]]
  {
  }

  /** A variable predicate is compared as a text and matches nothing. */
  lemma VariablePredicateMatchesNothing()
    ensures var dict: Dictionary := map[0 := "bob", 1 := "knows", 2 := "eve"];
      var query := [QueryTriple("?s", "?p", "?o")];
      && IsSolution(query, Statements(dict, [Triple(0, 1, 2)]), map["?s" := "bob", "?p" := "knows", "?o" := "eve"])
      && Evaluate(ToPatterns(query), dict, [Triple(0, 1, 2)], [map[]]) == []
  {
    var dict: Dictionary := map[0 := "bob", 1 := "knows", 2 := "eve"];
    var query, m := [QueryTriple("?s", "?p", "?o")], map["?s" := "bob", "?p" := "knows", "?o" := "eve"];
    assert query[1..] == [];
    assert Triple(0, 1, 2) in [Triple(0, 1, 2)]
        && Decode(dict, Triple(0, 1, 2)) == Some(Statement("bob", "knows", "eve"));
    assert Satisfied(query[0], Statements(dict, [Triple(0, 1, 2)]), m);
  }
}
