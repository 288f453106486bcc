/** Variant 4 of the join for a pattern with one variable in both positions. */
module OneVariableJoin {
  import opened Options
  import opened Bags
  import opened SolutionMappings
  import opened Triples
  import opened PatternJoin
  import opened IndexedJoins

  /** The rows that leave the variable unbound. */
  function Free(p: Pattern, rows: seq<Row>): seq<Row> {
    Filter(BindsNeither(p), rows)
  }

  function SetTo(v: string, value: string): Row -> seq<Row> {
    row => [row[v := value]]
  }

  /** The unbound rows with the variable bound to `value`. */
  function Bound(p: Pattern, rows: seq<Row>, value: string): seq<Row> {
    FlatMap(SetTo(p.subj, value), Free(p, rows))
  }

  /** A matching triple with two different values: variant 4 binds the second one. */
  predicate Adds(p: Pattern, dict: Dictionary, t: Triple) {
    Relevant(p, dict, t) && Decode(dict, t).value.subj != Decode(dict, t).value.obj
  }

  /** A matching triple with one value that some row already has: variant 4 stops before the unbound rows. */
  predicate Drops(p: Pattern, dict: Dictionary, rows: seq<Row>, t: Triple) {
    && Relevant(p, dict, t) && Decode(dict, t).value.subj == Decode(dict, t).value.obj
    && Fully(p, Decode(dict, t).value, rows) != []
  }

  function Added(p: Pattern, dict: Dictionary, rows: seq<Row>): Triple -> seq<Row> {
    t => if Adds(p, dict, t) then Bound(p, rows, Decode(dict, t).value.obj) else []
  }

  function Dropped(p: Pattern, dict: Dictionary, rows: seq<Row>): Triple -> seq<Row> {
    t => if Drops(p, dict, rows, t) then Bound(p, rows, Decode(dict, t).value.obj) else []
  }

  // ---------------------------------------------------------------- one triple

  lemma OnlyFree(p: Pattern, st: Statement, rows: seq<Row>)
    requires p.subj == p.obj
    ensures Partly(p, st, rows) == Bound(p, rows, st.obj)
  {
    FilterNothing(BindsSubject(p, st.subj), rows);
    FilterNothing(BindsObject(p, st.obj), rows);
    forall row | row in Free(p, rows) ensures Overwrite(p, st)(row) == SetTo(p.subj, st.obj)(row) {
      assert row[p.subj := st.subj][p.obj := st.obj] == row[p.subj := st.obj];
    }
    FlatMapCongruent(Overwrite(p, st), SetTo(p.subj, st.obj), Free(p, rows));
  }

  lemma NothingNested(p: Pattern, st: Statement, rows: seq<Row>)
    requires p.subj == p.obj && st.subj != st.obj
    ensures FlatMap(ExtendBy(p, st), rows) == [] && Fully(p, st, rows) == []
  {
    FlatMapNothing(ExtendBy(p, st), rows);
    FilterNothing(BindsBoth(p, st.subj, st.obj), rows);
  }

  /** What variant 4 pushes for one triple, what it drops, and what it adds. */
  lemma OneTriple(p: Pattern, dict: Dictionary, rows: seq<Row>, t: Triple)
    requires p.subj == p.obj
    ensures multiset(VariantContribution(FourthVariant, p, dict, rows)(t)) + multiset(Dropped(p, dict, rows)(t))
         == multiset(Contribution(p, dict, rows)(t)) + multiset(Added(p, dict, rows)(t))
  {
    if Relevant(p, dict, t) {
      OneStatement(p, Decode(dict, t).value, rows);
    }
  }

  lemma OneStatement(p: Pattern, st: Statement, rows: seq<Row>)
    requires p.subj == p.obj
    ensures multiset(Fourth(p, st, rows))
          + multiset(if st.subj == st.obj && Fully(p, st, rows) != [] then Bound(p, rows, st.obj) else [])
         == multiset(FlatMap(ExtendBy(p, st), rows))
          + multiset(if st.subj != st.obj then Bound(p, rows, st.obj) else [])
  {
    OnlyFree(p, st, rows);
    if st.subj == st.obj {
      ThirdVersusNested(p, st, rows);
    } else {
      NothingNested(p, st, rows);
    }
  }

  lemma FirstBag<T, U>(f: T -> seq<U>, s: seq<T>)
    requires s != []
    ensures multiset(FlatMap(f, s)) == multiset(f(s[0])) + multiset(FlatMap(f, s[1..]))
  {
  }

  lemma AddBags<T>(a: multiset<T>, b: multiset<T>, c: multiset<T>, d: multiset<T>,
                   a': multiset<T>, b': multiset<T>, c': multiset<T>, d': multiset<T>)
    requires a + b == c + d && a' + b' == c' + d'
    ensures (a + a') + (b + b') == (c + c') + (d + d')
  {
    assert (a + a') + (b + b') == (a + b) + (a' + b');
    assert (c + c') + (d + d') == (c + d) + (c' + d');
  }

  lemma {:induction false} Balance<T, U>(f: T -> seq<U>, g: T -> seq<U>, h: T -> seq<U>, k: T -> seq<U>, s: seq<T>)
    requires forall x | x in s :: multiset(f(x)) + multiset(g(x)) == multiset(h(x)) + multiset(k(x))
    ensures multiset(FlatMap(f, s)) + multiset(FlatMap(g, s)) == multiset(FlatMap(h, s)) + multiset(FlatMap(k, s))
  {
    if s != [] {
      assert s[0] in s;
      Balance(f, g, h, k, s[1..]);
      FirstBag(f, s);
      FirstBag(g, s);
      FirstBag(h, s);
      FirstBag(k, s);
      AddBags(multiset(f(s[0])), multiset(g(s[0])), multiset(h(s[0])), multiset(k(s[0])),
              multiset(FlatMap(f, s[1..])), multiset(FlatMap(g, s[1..])), multiset(FlatMap(h, s[1..])),
              multiset(FlatMap(k, s[1..])));
    }
  }

  // ---------------------------------------------------------------- all triples

  function AddsValue(p: Pattern, dict: Dictionary, value: string): Triple -> bool {
    t => Adds(p, dict, t) && Decode(dict, t).value.obj == value
  }

  function DropsValue(p: Pattern, dict: Dictionary, rows: seq<Row>, value: string): Triple -> bool {
    t => Drops(p, dict, rows, t) && Decode(dict, t).value.obj == value
  }

  lemma BoundRows(p: Pattern, rows: seq<Row>, value: string, row: Row)
    requires row in Bound(p, rows, value)
    ensures p.subj in row && row[p.subj] == value
  {
    FlatMapMember(SetTo(p.subj, value), Free(p, rows), row);
  }

  /** Bodies that push the bound rows for a value of the triple push a row once per such triple and unbound row. */
  lemma {:induction false} TimesPushed(p: Pattern, rows: seq<Row>, f: Triple -> seq<Row>, hits: Triple -> bool,
                                       triples: seq<Triple>,
                                       value: string, row: Row)
    requires p.subj in row && row[p.subj] == value
    requires forall t | t in triples && hits(t) :: f(t) == Bound(p, rows, value)
    requires forall t | t in triples && !hits(t) :: row !in f(t)
    ensures multiset(FlatMap(f, triples))[row] == |Filter(hits, triples)| * multiset(Bound(p, rows, value))[row]
  {
    if triples != [] {
      assert triples[0] in triples;
      TimesPushed(p, rows, f, hits, triples[1..], value, row);
      FirstBag(f, triples);
      Distribute(|Filter(hits, triples[1..])|, multiset(Bound(p, rows, value))[row]);
    }
  }

  lemma Distribute(k: nat, n: nat)
    ensures (k + 1) * n == n + k * n
  {
  }

  lemma TimesAdded(p: Pattern, dict: Dictionary, rows: seq<Row>, triples: seq<Triple>, row: Row)
    requires p.subj in row
    ensures multiset(FlatMap(Added(p, dict, rows), triples))[row]
         == |Filter(AddsValue(p, dict, row[p.subj]), triples)| * multiset(Bound(p, rows, row[p.subj]))[row]
  {
    forall t | t in triples && !AddsValue(p, dict, row[p.subj])(t) ensures row !in Added(p, dict, rows)(t) {
      if row in Added(p, dict, rows)(t) {
        BoundRows(p, rows, Decode(dict, t).value.obj, row);
      }
    }
    TimesPushed(p, rows, Added(p, dict, rows), AddsValue(p, dict, row[p.subj]), triples, row[p.subj], row);
  }

  lemma TimesDropped(p: Pattern, dict: Dictionary, rows: seq<Row>, triples: seq<Triple>, row: Row)
    requires p.subj in row
    ensures multiset(FlatMap(Dropped(p, dict, rows), triples))[row]
         == |Filter(DropsValue(p, dict, rows, row[p.subj]), triples)| * multiset(Bound(p, rows, row[p.subj]))[row]
  {
    forall t | t in triples && !DropsValue(p, dict, rows, row[p.subj])(t) ensures row !in Dropped(p, dict, rows)(t) {
      if row in Dropped(p, dict, rows)(t) {
        BoundRows(p, rows, Decode(dict, t).value.obj, row);
      }
    }
    TimesPushed(p, rows, Dropped(p, dict, rows), DropsValue(p, dict, rows, row[p.subj]), triples, row[p.subj], row);
  }

  /** No row is unbound, or for every value as many triples add it as drop it. */
  ghost predicate Balanced(p: Pattern, dict: Dictionary, rows: seq<Row>, triples: seq<Triple>) {
    Free(p, rows) == [] || forall value ::
      |Filter(AddsValue(p, dict, value), triples)| == |Filter(DropsValue(p, dict, rows, value), triples)|
  }

  lemma NotPushed(f: Triple -> seq<Row>, triples: seq<Triple>, row: Row)
    requires forall t | t in triples :: row !in f(t)
    ensures row !in FlatMap(f, triples)
  {
    FlatMapMember(f, triples, row);
  }

  lemma WithoutVariable(p: Pattern, dict: Dictionary, rows: seq<Row>, triples: seq<Triple>, row: Row)
    requires p.subj !in row
    ensures row !in FlatMap(Added(p, dict, rows), triples) && row !in FlatMap(Dropped(p, dict, rows), triples)
  {
    forall t | t in triples ensures row !in Added(p, dict, rows)(t) && row !in Dropped(p, dict, rows)(t) {
      if row in Added(p, dict, rows)(t) || row in Dropped(p, dict, rows)(t) {
        BoundRows(p, rows, Decode(dict, t).value.obj, row);
      }
    }
    NotPushed(Added(p, dict, rows), triples, row);
    NotPushed(Dropped(p, dict, rows), triples, row);
  }

  lemma Cancel(k: nat, l: nat, n: nat)
    requires n > 0 && k * n == l * n
    ensures k == l
  {
    if k < l {
      LessTimes(k, l, n);
    } else if l < k {
      LessTimes(l, k, n);
    }
  }

  lemma LessTimes(k: nat, l: nat, n: nat)
    requires n > 0 && k < l
    ensures k * n < l * n
  {
  }

  lemma SameCounts(p: Pattern, dict: Dictionary, rows: seq<Row>, triples: seq<Triple>, value: string)
    requires Free(p, rows) != []
    requires multiset(FlatMap(Added(p, dict, rows), triples)) == multiset(FlatMap(Dropped(p, dict, rows), triples))
    ensures |Filter(AddsValue(p, dict, value), triples)| == |Filter(DropsValue(p, dict, rows, value), triples)|
  {
    var row := Free(p, rows)[0][p.subj := value];
    var n := multiset(Bound(p, rows, value))[row];
    assert row in Bound(p, rows, value) by {
      assert Free(p, rows)[0] in Free(p, rows);
      FlatMapMember(SetTo(p.subj, value), Free(p, rows), row);
    }
    TimesAdded(p, dict, rows, triples, row);
    TimesDropped(p, dict, rows, triples, row);
    Cancel(|Filter(AddsValue(p, dict, value), triples)|, |Filter(DropsValue(p, dict, rows, value), triples)|, n);
  }

  lemma AddedIsDropped(p: Pattern, dict: Dictionary, rows: seq<Row>, triples: seq<Triple>)
    requires Balanced(p, dict, rows, triples)
    ensures multiset(FlatMap(Added(p, dict, rows), triples)) == multiset(FlatMap(Dropped(p, dict, rows), triples))
  {
    var added := multiset(FlatMap(Added(p, dict, rows), triples));
    var dropped := multiset(FlatMap(Dropped(p, dict, rows), triples));
    forall row ensures added[row] == dropped[row] {
      if p.subj in row {
        TimesAdded(p, dict, rows, triples, row);
        TimesDropped(p, dict, rows, triples, row);
      } else {
        WithoutVariable(p, dict, rows, triples, row);
      }
    }
    assert added == dropped;
  }

  lemma CancelBags<T>(a: multiset<T>, b: multiset<T>, c: multiset<T>, d: multiset<T>)
    requires a + b == c + d
    ensures a == c <==> b == d
  {
    assert a == c + d - b;
    assert b == c + d - a;
  }

  /** With one variable in both positions, variant 4 agrees with the nested loop exactly when every row binds the
      variable, or when for every value the triples that wrongly add it are as many as those that drop it. */
  lemma FourthAgreesForOneVariable(p: Pattern, dict: Dictionary, triples: seq<Triple>, rows: seq<Row>)
    requires p.subj == p.obj
    ensures multiset(VariantJoin(FourthVariant, p, dict, triples, rows)) == multiset(NestedJoin(p, dict, triples, rows))
        <==> Balanced(p, dict, rows, triples)
  {
    var fourth, nested := VariantContribution(FourthVariant, p, dict, rows), Contribution(p, dict, rows);
    var added, dropped := Added(p, dict, rows), Dropped(p, dict, rows);
    forall t | t in triples
      ensures multiset(fourth(t)) + multiset(dropped(t)) == multiset(nested(t)) + multiset(added(t))
    {
      OneTriple(p, dict, rows, t);
    }
    Balance(fourth, dropped, nested, added, triples);
    CancelBags(multiset(FlatMap(fourth, triples)), multiset(FlatMap(dropped, triples)),
               multiset(FlatMap(nested, triples)), multiset(FlatMap(added, triples)));
    if Balanced(p, dict, rows, triples) {
      AddedIsDropped(p, dict, rows, triples);
    } else {
      var value :| |Filter(AddsValue(p, dict, value), triples)| != |Filter(DropsValue(p, dict, rows, value), triples)|;
      if multiset(FlatMap(added, triples)) == multiset(FlatMap(dropped, triples)) {
        SameCounts(p, dict, rows, triples, value);
      }
    }
  }

  // ---------------------------------------------------------------- an example

  const SELF_LOOP := Pattern("?v", "p", "?v", None)
  const SMALL_DICTIONARY: Dictionary := map[0 := "a", 1 := "p", 2 := "b"]
  const TWO_ROWS: seq<Row> := [map["?v" := "a"], map[]]
  const LOOP := Triple(0, 1, 0)
  const EDGE := Triple(2, 1, 0)

  lemma LoopDrops()
    ensures Drops(SELF_LOOP, SMALL_DICTIONARY, TWO_ROWS, LOOP) && !Adds(SELF_LOOP, SMALL_DICTIONARY, LOOP)
    ensures Decode(SMALL_DICTIONARY, LOOP).value.obj == "a" && Free(SELF_LOOP, TWO_ROWS) != []
  {
    assert TWO_ROWS[0] in Fully(SELF_LOOP, Statement("a", "p", "a"), TWO_ROWS);
    assert TWO_ROWS[1] in Free(SELF_LOOP, TWO_ROWS);
  }

  lemma EdgeAdds()
    ensures Adds(SELF_LOOP, SMALL_DICTIONARY, EDGE) && !Drops(SELF_LOOP, SMALL_DICTIONARY, TWO_ROWS, EDGE)
    ensures Decode(SMALL_DICTIONARY, EDGE).value.obj == "a"
  {
    assert "a"[0] != "b"[0];
  }

  /** The two mistakes can cancel out: the result is right although one triple adds a row and another drops it. */
  lemma MistakesCanCancel()
    ensures Drops(SELF_LOOP, SMALL_DICTIONARY, TWO_ROWS, LOOP) && Adds(SELF_LOOP, SMALL_DICTIONARY, EDGE)
        && Free(SELF_LOOP, TWO_ROWS) != []
    ensures multiset(VariantJoin(FourthVariant, SELF_LOOP, SMALL_DICTIONARY, [LOOP, EDGE], TWO_ROWS))
         == multiset(NestedJoin(SELF_LOOP, SMALL_DICTIONARY, [LOOP, EDGE], TWO_ROWS))
  {
    LoopDrops();
    EdgeAdds();
    forall value
      ensures |Filter(AddsValue(SELF_LOOP, SMALL_DICTIONARY, value), [LOOP, EDGE])|
           == |Filter(DropsValue(SELF_LOOP, SMALL_DICTIONARY, TWO_ROWS, value), [LOOP, EDGE])|
    {
      FilterTwo(AddsValue(SELF_LOOP, SMALL_DICTIONARY, value), LOOP, EDGE);
      FilterTwo(DropsValue(SELF_LOOP, SMALL_DICTIONARY, TWO_ROWS, value), LOOP, EDGE);
    }
    FourthAgreesForOneVariable(SELF_LOOP, SMALL_DICTIONARY, [LOOP, EDGE], TWO_ROWS);
  }

  lemma FilterTwo<T>(f: T -> bool, x: T, y: T)
    ensures |Filter(f, [x, y])| == (if f(x) then 1 else 0) + (if f(y) then 1 else 0)
  {
    assert [x, y][1..] == [y] && [y][1..] == [];
    assert Filter(f, [y]) == if f(y) then [y] else [];
  }
}
