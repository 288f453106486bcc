/** Joining the current rows with the triples of the store that match one pattern. */
module PatternJoin {
  import opened Options
  import opened Bags
  import opened SolutionMappings
  import opened Triples
  import opened Sequences

  /** The decoding half of the dictionary. */
  type Dictionary = map<nat, string>

  /** Variables in subject and object position, a fixed predicate, and an optional fixed object. */
  datatype Pattern = Pattern(subj: string, pred: string, obj: string, literal: Option<string>)

  datatype Statement = Statement(subj: string, pred: string, obj: string)

  function Decode(dict: Dictionary, t: Triple): Option<Statement> {
    if t.subj in dict && t.pred in dict && t.obj in dict
    then Some(Statement(dict[t.subj], dict[t.pred], dict[t.obj]))
    else None
  }

  predicate Selects(p: Pattern, st: Statement) {
    st.pred == p.pred && (p.literal.Some? ==> st.obj == p.literal.value)
  }

  // ---------------------------------------------------------------- the plain nested loop

  /** Binds `v` to `value`, or checks an existing binding. */
  function Bind(row: Row, v: string, value: string): seq<Row> {
    if v in row then (if row[v] == value then [row] else []) else [row[v := value]]
  }

  /** The row extended by one statement: subject first, then object. */
  function Extend(p: Pattern, st: Statement, row: Row): seq<Row> {
    var bound := Bind(row, p.subj, st.subj);
    if bound == [] then [] else Bind(bound[0], p.obj, st.obj)
  }

  function ExtendBy(p: Pattern, st: Statement): Row -> seq<Row> {
    row => Extend(p, st, row)
  }

  lemma ExtendedRow(p: Pattern, st: Statement, row: Row, extended: Row)
    requires extended in Extend(p, st, row)
    ensures extended.Keys == row.Keys + {p.subj, p.obj} && forall v | v in row :: extended[v] == row[v]
  {
  }

  /** The rows contributed by one triple. */
  function Contribution(p: Pattern, dict: Dictionary, rows: seq<Row>): Triple -> seq<Row> {
    t =>
      var st := Decode(dict, t);
      if st.Some? && Selects(p, st.value) then FlatMap(ExtendBy(p, st.value), rows) else []
  }

  function NestedJoin(p: Pattern, dict: Dictionary, triples: seq<Triple>, rows: seq<Row>): seq<Row> {
    FlatMap(Contribution(p, dict, rows), triples)
  }

  /** The reference loop; it cannot run over a triple that does not decode. */
  method PerformJoin(p: Pattern, dict: Dictionary, triples: seq<Triple>, rows: seq<Row>) returns (results: seq<Row>)
    requires p.literal.None?
    requires forall t | t in triples :: Decode(dict, t).Some?
    ensures results == NestedJoin(p, dict, triples, rows)
  {
    results := [];
    for i := 0 to |triples|
      invariant results == NestedJoin(p, dict, triples[..i], rows)
    {
      FlatMapStep(Contribution(p, dict, rows), triples, i);
      var t := triples[i];
      assert Decode(dict, t).Some?;
      var st := Decode(dict, t).value;
      if st.pred == p.pred {
        results := JoinStatement(p, st, rows, results);
      }
    }
    TakeAll(triples);
  }

  /** The inner loop: every row is checked against one statement. */
  method JoinStatement(p: Pattern, st: Statement, rows: seq<Row>, local: seq<Row>) returns (results: seq<Row>)
    ensures results == local + FlatMap(ExtendBy(p, st), rows)
  {
    results := local;
    for j := 0 to |rows|
      invariant results == local + FlatMap(ExtendBy(p, st), rows[..j])
    {
      FlatMapStep(ExtendBy(p, st), rows, j);
      var extended, valid := ExtendRow(p, st, rows[j]);
      if valid {
        results := results + [extended];
      }
    }
    TakeAll(rows);
  }

  /** Checks and extends one row in place; both positions are looked at even after a clash. */
  method ExtendRow(p: Pattern, st: Statement, row: Row) returns (extended: Row, valid: bool)
    ensures Extend(p, st, row) == if valid then [extended] else []
  {
    extended, valid := row, true;
    if p.subj in extended {
      if extended[p.subj] != st.subj {
        valid := false;
      }
    } else {
      extended := extended[p.subj := st.subj];
    }
    if p.obj in extended {
      if extended[p.obj] != st.obj {
        valid := false;
      }
    } else {
      extended := extended[p.obj := st.obj];
    }
  }

  // ---------------------------------------------------------------- four groups of rows

  function BindsBoth(p: Pattern, s: string, o: string): Row -> bool {
    row => p.subj in row && p.obj in row && row[p.subj] == s && row[p.obj] == o
  }

  function BindsSubject(p: Pattern, s: string): Row -> bool {
    row => p.subj in row && p.obj !in row && row[p.subj] == s
  }

  function BindsObject(p: Pattern, o: string): Row -> bool {
    row => p.subj !in row && p.obj in row && row[p.obj] == o
  }

  function BindsNeither(p: Pattern): Row -> bool {
    row => p.subj !in row && p.obj !in row
  }

  /** The index of the rows, built once per join. */
  datatype Groups = Groups(both: map<(string, string), seq<Row>>, bySubject: map<string, seq<Row>>,
                           byObject: map<string, seq<Row>>, neither: seq<Row>)

  function Get<K, V>(m: map<K, seq<V>>, k: K): seq<V> {
    if k in m then m[k] else []
  }

  function Push<K, V>(m: map<K, seq<V>>, k: K, v: V): map<K, seq<V>> {
    m[k := Get(m, k) + [v]]
  }

  /** Every group holds exactly its rows, in order, and a pair is present only with a row behind it. */
  ghost predicate Partitions(p: Pattern, rows: seq<Row>, g: Groups) {
    && (forall s, o :: Get(g.both, (s, o)) == Filter(BindsBoth(p, s, o), rows))
    && (forall s :: Get(g.bySubject, s) == Filter(BindsSubject(p, s), rows))
    && (forall o :: Get(g.byObject, o) == Filter(BindsObject(p, o), rows))
    && g.neither == Filter(BindsNeither(p), rows)
    && (forall k | k in g.both :: g.both[k] != [])
  }

  /** The groups with one more row. */
  function AddRow(p: Pattern, g: Groups, row: Row): Groups {
    if p.subj in row && p.obj in row then g.(both := Push(g.both, (row[p.subj], row[p.obj]), row))
    else if p.subj in row then g.(bySubject := Push(g.bySubject, row[p.subj], row))
    else if p.obj in row then g.(byObject := Push(g.byObject, row[p.obj], row))
    else g.(neither := g.neither + [row])
  }

  lemma PushBoth(p: Pattern, rows: seq<Row>, g: Groups, row: Row, s: string, o: string)
    requires Get(g.both, (s, o)) == Filter(BindsBoth(p, s, o), rows)
    ensures Get(AddRow(p, g, row).both, (s, o)) == Filter(BindsBoth(p, s, o), rows + [row])
  {
    FilterSnoc(BindsBoth(p, s, o), rows, row);
    AppendNothing(Filter(BindsBoth(p, s, o), rows), []);
  }

  lemma PushSubject(p: Pattern, rows: seq<Row>, g: Groups, row: Row, s: string)
    requires Get(g.bySubject, s) == Filter(BindsSubject(p, s), rows)
    ensures Get(AddRow(p, g, row).bySubject, s) == Filter(BindsSubject(p, s), rows + [row])
  {
    FilterSnoc(BindsSubject(p, s), rows, row);
    AppendNothing(Filter(BindsSubject(p, s), rows), []);
  }

  lemma PushObject(p: Pattern, rows: seq<Row>, g: Groups, row: Row, o: string)
    requires Get(g.byObject, o) == Filter(BindsObject(p, o), rows)
    ensures Get(AddRow(p, g, row).byObject, o) == Filter(BindsObject(p, o), rows + [row])
  {
    FilterSnoc(BindsObject(p, o), rows, row);
  }

  lemma AddRowPartitions(p: Pattern, rows: seq<Row>, g: Groups, row: Row)
    requires Partitions(p, rows, g)
    ensures Partitions(p, rows + [row], AddRow(p, g, row))
  {
    forall s, o ensures Get(AddRow(p, g, row).both, (s, o)) == Filter(BindsBoth(p, s, o), rows + [row]) {
      PushBoth(p, rows, g, row, s, o);
    }
    forall s ensures Get(AddRow(p, g, row).bySubject, s) == Filter(BindsSubject(p, s), rows + [row]) {
      PushSubject(p, rows, g, row, s);
    }
    forall o ensures Get(AddRow(p, g, row).byObject, o) == Filter(BindsObject(p, o), rows + [row]) {
      PushObject(p, rows, g, row, o);
    }
    FilterSnoc(BindsNeither(p), rows, row);
  }

  method Partition(p: Pattern, rows: seq<Row>) returns (g: Groups)
    ensures Partitions(p, rows, g)
  {
    g := Groups(map[], map[], map[], []);
    for i := 0 to |rows|
      invariant Partitions(p, rows[..i], g)
    {
      var row := rows[i];
      Prefix(rows, i);
      AddRowPartitions(p, rows[..i], g, row);
      if p.subj in row && p.obj in row {
        g := g.(both := Push(g.both, (row[p.subj], row[p.obj]), row));
      } else if p.subj in row {
        g := g.(bySubject := Push(g.bySubject, row[p.subj], row));
      } else if p.obj in row {
        g := g.(byObject := Push(g.byObject, row[p.obj], row));
      } else {
        g := g.(neither := g.neither + [row]);
      }
    }
    TakeAll(rows);
  }

  // ---------------------------------------------------------------- joining by groups

  /** The four group rows for one statement, each extended as far as its group needs. */
  function Grouped(p: Pattern, st: Statement, g: Groups): seq<Row> {
    Get(g.both, (st.subj, st.obj))
    + FlatMap(BindTo(p.obj, st.obj), Get(g.bySubject, st.subj))
    + FlatMap(BindTo(p.subj, st.subj), Get(g.byObject, st.obj))
    + FlatMap(ExtendBy(p, st), g.neither)
  }

  function BindTo(v: string, value: string): Row -> seq<Row> {
    row => Bind(row, v, value)
  }

  /** What the four groups contribute, as a function of the rows. */
  function ByGroups(p: Pattern, st: Statement, rows: seq<Row>): seq<Row> {
    Filter(BindsBoth(p, st.subj, st.obj), rows)
    + FlatMap(BindTo(p.obj, st.obj), Filter(BindsSubject(p, st.subj), rows))
    + FlatMap(BindTo(p.subj, st.subj), Filter(BindsObject(p, st.obj), rows))
    + FlatMap(ExtendBy(p, st), Filter(BindsNeither(p), rows))
  }

  lemma FlatMapFilterFirst<T, U>(f: T -> seq<U>, q: T -> bool, s: seq<T>)
    requires s != []
    ensures FlatMap(f, Filter(q, s)) == (if q(s[0]) then f(s[0]) else []) + FlatMap(f, Filter(q, s[1..]))
  {
    if q(s[0]) {
      FlatMapAppend(f, [s[0]], Filter(q, s[1..]));
      FlatMapOne(f, s[0]);
    } else {
      assert Filter(q, s) == Filter(q, s[1..]);
    }
  }

  lemma OneGroup(p: Pattern, st: Statement, row: Row)
    ensures Extend(p, st, row) ==
              (if BindsBoth(p, st.subj, st.obj)(row) then [row] else [])
              + (if BindsSubject(p, st.subj)(row) then BindTo(p.obj, st.obj)(row) else [])
              + (if BindsObject(p, st.obj)(row) then BindTo(p.subj, st.subj)(row) else [])
              + (if BindsNeither(p)(row) then ExtendBy(p, st)(row) else [])
  {
  }

  lemma FourSplit<T>(a: seq<T>, b: seq<T>, c: seq<T>, d: seq<T>, a': seq<T>, b': seq<T>, c': seq<T>, d': seq<T>)
    ensures multiset((a + a') + (b + b') + (c + c') + (d + d')) == multiset(a + b + c + d) + multiset(a' + b' + c' + d')
  {
  }

  /** The first row adds what its group makes of it. */
  lemma FirstRow(p: Pattern, st: Statement, rows: seq<Row>)
    requires rows != []
    ensures multiset(ByGroups(p, st, rows)) == multiset(Extend(p, st, rows[0])) + multiset(ByGroups(p, st, rows[1..]))
  {
    var row, rest := rows[0], rows[1..];
    OneGroup(p, st, row);
    FlatMapFilterFirst(BindTo(p.obj, st.obj), BindsSubject(p, st.subj), rows);
    FlatMapFilterFirst(BindTo(p.subj, st.subj), BindsObject(p, st.obj), rows);
    FlatMapFilterFirst(ExtendBy(p, st), BindsNeither(p), rows);
    FourSplit(if BindsBoth(p, st.subj, st.obj)(row) then [row] else [],
              if BindsSubject(p, st.subj)(row) then BindTo(p.obj, st.obj)(row) else [],
              if BindsObject(p, st.obj)(row) then BindTo(p.subj, st.subj)(row) else [],
              if BindsNeither(p)(row) then ExtendBy(p, st)(row) else [],
              Filter(BindsBoth(p, st.subj, st.obj), rest),
              FlatMap(BindTo(p.obj, st.obj), Filter(BindsSubject(p, st.subj), rest)),
              FlatMap(BindTo(p.subj, st.subj), Filter(BindsObject(p, st.obj), rest)),
              FlatMap(ExtendBy(p, st), Filter(BindsNeither(p), rest)));
  }

  /** Every row is handled in exactly one group, also when subject and object are the same variable. */
  lemma {:induction false} GroupsAreExact(p: Pattern, st: Statement, rows: seq<Row>)
    ensures multiset(ByGroups(p, st, rows)) == multiset(FlatMap(ExtendBy(p, st), rows))
  {
    if rows != [] {
      GroupsAreExact(p, st, rows[1..]);
      FirstRow(p, st, rows);
    }
  }
}
