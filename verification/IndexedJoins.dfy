/** The two index-based joins, and exactly when they agree with the nested loop. */
module IndexedJoins {
  import opened Options
  import opened Bags
  import opened SolutionMappings
  import opened PatternJoin
  import opened Triples

  // ---------------------------------------------------------------- what the two variants compute

  /** Inserts both values into a row that looks consistent with each of them on its own. */
  function Overwrite(p: Pattern, st: Statement): Row -> seq<Row> {
    row =>
      if (p.subj in row && row[p.subj] != st.subj) || (p.obj in row && row[p.obj] != st.obj) then []
      else
        var bound := if p.subj in row then row else row[p.subj := st.subj];
        [if p.obj in row then bound else bound[p.obj := st.obj]]
  }

  function Partly(p: Pattern, st: Statement, rows: seq<Row>): seq<Row> {
    FlatMap(BindTo(p.obj, st.obj), Filter(BindsSubject(p, st.subj), rows))
    + FlatMap(BindTo(p.subj, st.subj), Filter(BindsObject(p, st.obj), rows))
    + FlatMap(Overwrite(p, st), Filter(BindsNeither(p), rows))
  }

  function Fully(p: Pattern, st: Statement, rows: seq<Row>): seq<Row> {
    Filter(BindsBoth(p, st.subj, st.obj), rows)
  }

  /** Variant 3 handles all four groups. */
  function Third(p: Pattern, st: Statement, rows: seq<Row>): seq<Row> {
    Fully(p, st, rows) + Partly(p, st, rows)
  }

  /** Variant 4 stops after the first group when that group has a row. */
  function Fourth(p: Pattern, st: Statement, rows: seq<Row>): seq<Row> {
    if Fully(p, st, rows) != [] then Fully(p, st, rows) else Partly(p, st, rows)
  }

  datatype Variant = ThirdVariant | FourthVariant

  function Matches(v: Variant, p: Pattern, st: Statement, rows: seq<Row>): seq<Row> {
    if v.ThirdVariant? then Third(p, st, rows) else Fourth(p, st, rows)
  }

  function VariantContribution(v: Variant, p: Pattern, dict: Dictionary, rows: seq<Row>): Triple -> seq<Row> {
    t =>
      var st := Decode(dict, t);
      if st.Some? && Selects(p, st.value) then Matches(v, p, st.value, rows) else []
  }

  function VariantJoin(v: Variant, p: Pattern, dict: Dictionary, triples: seq<Triple>, rows: seq<Row>): seq<Row> {
    FlatMap(VariantContribution(v, p, dict, rows), triples)
  }

  // ---------------------------------------------------------------- agreement with the nested loop

  lemma OverwriteIsExtend(p: Pattern, st: Statement, rows: seq<Row>)
    requires p.subj != p.obj || st.subj == st.obj
    ensures FlatMap(Overwrite(p, st), Filter(BindsNeither(p), rows))
         == FlatMap(ExtendBy(p, st), Filter(BindsNeither(p), rows))
  {
    forall row | row in Filter(BindsNeither(p), rows) ensures Overwrite(p, st)(row) == ExtendBy(p, st)(row) {
      if p.subj == p.obj {
        assert row[p.subj := st.subj][p.obj := st.obj] == row[p.subj := st.subj];
      }
    }
    FlatMapCongruent(Overwrite(p, st), ExtendBy(p, st), Filter(BindsNeither(p), rows));
  }

  /** Variant 3 and the four groups differ only in how they extend the unbound rows. */
  lemma ThirdByGroups(p: Pattern, st: Statement, rows: seq<Row>)
    ensures var unbound := Filter(BindsNeither(p), rows);
      && |Third(p, st, rows)| - |FlatMap(Overwrite(p, st), unbound)|
          == |ByGroups(p, st, rows)| - |FlatMap(ExtendBy(p, st), unbound)|
      && (FlatMap(Overwrite(p, st), unbound) == FlatMap(ExtendBy(p, st), unbound)
          ==> Third(p, st, rows) == ByGroups(p, st, rows))
  {
    var unbound := Filter(BindsNeither(p), rows);
    var a := Filter(BindsBoth(p, st.subj, st.obj), rows);
    var b := FlatMap(BindTo(p.obj, st.obj), Filter(BindsSubject(p, st.subj), rows));
    var c := FlatMap(BindTo(p.subj, st.subj), Filter(BindsObject(p, st.obj), rows));
    LastGroup(a, b, c, FlatMap(Overwrite(p, st), unbound));
  }

  lemma LastGroup<T>(a: seq<T>, b: seq<T>, c: seq<T>, d: seq<T>)
    ensures a + (b + c + d) == a + b + c + d
  {
  }

  lemma {:induction false} LengthOfSingles<T, U>(f: T -> seq<U>, s: seq<T>, n: nat)
    requires forall x | x in s :: |f(x)| == n
    ensures |FlatMap(f, s)| == n * |s|
  {
    if s != [] {
      assert s[0] in s;
      LengthOfSingles(f, s[1..], n);
      assert n * |s| == n + n * (|s| - 1);
    }
  }

  /** With one variable in both positions and two different values, nothing may be bound; variant 3 binds anyway. */
  lemma OverwriteLength(p: Pattern, st: Statement, rows: seq<Row>)
    ensures var unbound := Filter(BindsNeither(p), rows);
      && |FlatMap(Overwrite(p, st), unbound)| == |unbound|
      && |FlatMap(ExtendBy(p, st), unbound)| == if p.subj == p.obj && st.subj != st.obj then 0 else |unbound|
  {
    var unbound := Filter(BindsNeither(p), rows);
    LengthOfSingles(Overwrite(p, st), unbound, 1);
    LengthOfSingles(ExtendBy(p, st), unbound, if p.subj == p.obj && st.subj != st.obj then 0 else 1);
  }

  predicate Unbound(p: Pattern, rows: seq<Row>) {
    exists row | row in rows :: p.subj !in row && p.obj !in row
  }

  lemma UnboundRows(p: Pattern, rows: seq<Row>)
    ensures Unbound(p, rows) <==> Filter(BindsNeither(p), rows) != []
  {
    var unbound := Filter(BindsNeither(p), rows);
    if unbound != [] {
      assert unbound[0] in unbound;
    }
  }

  /** One statement under variant 3: never fewer rows than the nested loop, and the same bag exactly when it
      does not overwrite a binding it has just made. */
  lemma ThirdVersusNested(p: Pattern, st: Statement, rows: seq<Row>)
    ensures var nested := FlatMap(ExtendBy(p, st), rows);
      var clash := p.subj == p.obj && st.subj != st.obj && Unbound(p, rows);
      && |nested| <= |Third(p, st, rows)|
      && (multiset(Third(p, st, rows)) == multiset(nested) <==> !clash)
      && (|Third(p, st, rows)| == |nested| <==> !clash)
  {
    var nested, third := FlatMap(ExtendBy(p, st), rows), Third(p, st, rows);
    GroupsAreExact(p, st, rows);
    BagLength(nested, ByGroups(p, st, rows));
    OverwriteLength(p, st, rows);
    UnboundRows(p, rows);
    ThirdByGroups(p, st, rows);
    if p.subj != p.obj || st.subj == st.obj {
      OverwriteIsExtend(p, st, rows);
    } else if Unbound(p, rows) && multiset(third) == multiset(nested) {
      BagLength(third, nested);
    }
  }

  /** Some row already carries both values, and another row, not bound at both positions, would match as well. */
  predicate Shadowed(p: Pattern, st: Statement, rows: seq<Row>) {
    && (exists row | row in rows :: BindsBoth(p, st.subj, st.obj)(row))
    && (exists row | row in rows :: !(p.subj in row && p.obj in row) && Extend(p, st, row) != [])
  }

  /** A row that the nested loop would keep, and that is not bound at both positions, has a group. */
  lemma PartialRow(p: Pattern, st: Statement, rows: seq<Row>, row: Row)
    requires row in rows && !(p.subj in row && p.obj in row) && Extend(p, st, row) != []
    ensures Filter(BindsSubject(p, st.subj), rows) != [] || Filter(BindsObject(p, st.obj), rows) != []
        || Filter(BindsNeither(p), rows) != []
  {
  }

  /** A group with a row pushes a row. */
  lemma PartlyPushes(p: Pattern, st: Statement, rows: seq<Row>)
    ensures Partly(p, st, rows) == [] <==>
      Filter(BindsSubject(p, st.subj), rows) == [] && Filter(BindsObject(p, st.obj), rows) == []
      && Filter(BindsNeither(p), rows) == []
  {
    LengthOfSingles(BindTo(p.obj, st.obj), Filter(BindsSubject(p, st.subj), rows), 1);
    LengthOfSingles(BindTo(p.subj, st.subj), Filter(BindsObject(p, st.obj), rows), 1);
    LengthOfSingles(Overwrite(p, st), Filter(BindsNeither(p), rows), 1);
  }

  lemma ShadowedGroups(p: Pattern, st: Statement, rows: seq<Row>)
    requires p.subj != p.obj || st.subj == st.obj
    ensures Shadowed(p, st, rows) <==> Fully(p, st, rows) != [] && Partly(p, st, rows) != []
  {
    PartlyPushes(p, st, rows);
    var full := Fully(p, st, rows);
    if full != [] {
      assert full[0] in full;
    }
    if Partly(p, st, rows) != [] {
      SomePartial(p, st, Filter(BindsSubject(p, st.subj), rows), Filter(BindsObject(p, st.obj), rows),
          Filter(BindsNeither(p), rows), rows);
    } else if row :| row in rows && !(p.subj in row && p.obj in row) && Extend(p, st, row) != [] {
      PartialRow(p, st, rows, row);
    }
  }

  lemma SomePartial(p: Pattern, st: Statement, subjects: seq<Row>, objects: seq<Row>,
                                       unbound: seq<Row>, rows: seq<Row>)
    requires p.subj != p.obj || st.subj == st.obj
    requires subjects == Filter(BindsSubject(p, st.subj), rows) && objects == Filter(BindsObject(p, st.obj), rows)
    requires unbound == Filter(BindsNeither(p), rows)
    requires subjects != [] || objects != [] || unbound != []
    ensures exists row | row in rows :: !(p.subj in row && p.obj in row) && Extend(p, st, row) != []
  {
    var row := if subjects != [] then subjects[0] else if objects != [] then objects[0] else unbound[0];
    assert row in subjects || row in objects || row in unbound;
    assert Extend(p, st, row) != [];
  }

  /** One statement under variant 4: the same bag as the nested loop exactly when no row is shadowed and no
      fresh binding is overwritten; with two different variables it never has more rows. */
  lemma FourthVersusNested(p: Pattern, st: Statement, rows: seq<Row>)
    ensures var nested, fourth := FlatMap(ExtendBy(p, st), rows), Fourth(p, st, rows);
      var clash := p.subj == p.obj && st.subj != st.obj && Unbound(p, rows);
      && (multiset(fourth) == multiset(nested) <==> !Shadowed(p, st, rows) && !clash)
      && (p.subj != p.obj ==> |fourth| <= |nested| && (|fourth| == |nested| <==> !Shadowed(p, st, rows)))
  {
    var nested, third, fourth := FlatMap(ExtendBy(p, st), rows), Third(p, st, rows), Fourth(p, st, rows);
    ThirdVersusNested(p, st, rows);
    assert |third| == |Fully(p, st, rows)| + |Partly(p, st, rows)|;
    if p.subj == p.obj && st.subj != st.obj {
      FilterNothing(BindsBoth(p, st.subj, st.obj), rows);
      assert fourth == third;
    } else {
      ShadowedGroups(p, st, rows);
      if Fully(p, st, rows) == [] || Partly(p, st, rows) == [] {
        assert fourth == third;
      } else if multiset(fourth) == multiset(nested) {
        BagLength(fourth, nested);
      }
    }
  }

  lemma FilterNothing<T>(f: T -> bool, s: seq<T>)
    requires forall x | x in s :: !f(x)
    ensures Filter(f, s) == []
  {
    if Filter(f, s) != [] {
      assert Filter(f, s)[0] in Filter(f, s);
    }
  }

  // ---------------------------------------------------------------- whole joins

  lemma {:induction false} LengthsCompared<T, U>(f: T -> seq<U>, g: T -> seq<U>, s: seq<T>)
    requires forall x | x in s :: |f(x)| <= |g(x)|
    ensures |FlatMap(f, s)| <= |FlatMap(g, s)|
    ensures |FlatMap(f, s)| == |FlatMap(g, s)| ==> forall x | x in s :: |f(x)| == |g(x)|
  {
    if s != [] {
      assert s == [s[0]] + s[1..];
      LengthsCompared(f, g, s[1..]);
    }
  }

  /** The triple decodes and matches the pattern. */
  predicate Relevant(p: Pattern, dict: Dictionary, t: Triple) {
    Decode(dict, t).Some? && Selects(p, Decode(dict, t).value)
  }

  /** When one loop body never pushes more rows than the other, and pushes the same bag whenever it pushes as many,
      the loops push the same bag exactly when the bodies push as many rows for every element. */
  lemma BagsAgreeExactly<T, U>(f: T -> seq<U>, g: T -> seq<U>, s: seq<T>)
    requires forall x | x in s :: |f(x)| <= |g(x)|
    requires forall x | x in s && |f(x)| == |g(x)| :: multiset(f(x)) == multiset(g(x))
    ensures multiset(FlatMap(f, s)) == multiset(FlatMap(g, s)) <==> forall x | x in s :: |f(x)| == |g(x)|
  {
    LengthsCompared(f, g, s);
    if forall x | x in s :: |f(x)| == |g(x)| {
      FlatMapBagCongruent(f, g, s);
    } else if multiset(FlatMap(f, s)) == multiset(FlatMap(g, s)) {
      BagLength(FlatMap(f, s), FlatMap(g, s));
    }
  }

  /** One variable in both positions, a row that leaves it unbound, and a matching triple with two different values. */
  predicate Clash(p: Pattern, dict: Dictionary, rows: seq<Row>, t: Triple) {
    && p.subj == p.obj && Unbound(p, rows)
    && Relevant(p, dict, t) && Decode(dict, t).value.subj != Decode(dict, t).value.obj
  }

  lemma ThirdOnTriple(p: Pattern, dict: Dictionary, rows: seq<Row>, t: Triple)
    ensures var third, nested := VariantContribution(ThirdVariant, p, dict, rows)(t), Contribution(p, dict, rows)(t);
      && |nested| <= |third| && (|nested| == |third| <==> !Clash(p, dict, rows, t))
      && (|nested| == |third| ==> multiset(nested) == multiset(third))
  {
    if Relevant(p, dict, t) {
      ThirdVersusNested(p, Decode(dict, t).value, rows);
    }
  }

  /** Variant 3 agrees with the nested loop exactly when it meets no clash. */
  lemma ThirdAgreesExactly(p: Pattern, dict: Dictionary, triples: seq<Triple>, rows: seq<Row>)
    ensures multiset(VariantJoin(ThirdVariant, p, dict, triples, rows)) == multiset(NestedJoin(p, dict, triples, rows))
        <==> !exists t | t in triples :: Clash(p, dict, rows, t)
  {
    forall t ensures
      var third, nested := VariantContribution(ThirdVariant, p, dict, rows)(t), Contribution(p, dict, rows)(t);
      && |nested| <= |third| && (|nested| == |third| <==> !Clash(p, dict, rows, t))
      && (|nested| == |third| ==> multiset(nested) == multiset(third))
    {
      ThirdOnTriple(p, dict, rows, t);
    }
    BagsAgreeExactly(Contribution(p, dict, rows), VariantContribution(ThirdVariant, p, dict, rows), triples);
  }

  /** A matching triple for which some row is shadowed. */
  predicate Shadows(p: Pattern, dict: Dictionary, rows: seq<Row>, t: Triple) {
    Relevant(p, dict, t) && Shadowed(p, Decode(dict, t).value, rows)
  }

  lemma FourthOnTriple(p: Pattern, dict: Dictionary, rows: seq<Row>, t: Triple)
    requires p.subj != p.obj
    ensures var fourth, nested := VariantContribution(FourthVariant, p, dict, rows)(t), Contribution(p, dict, rows)(t);
      && |fourth| <= |nested| && (|fourth| == |nested| <==> !Shadows(p, dict, rows, t))
      && (|fourth| == |nested| ==> multiset(fourth) == multiset(nested))
  {
    if Relevant(p, dict, t) {
      FourthVersusNested(p, Decode(dict, t).value, rows);
    }
  }

  /** With two different variables, variant 4 agrees with the nested loop exactly when no matching triple has a
      shadowed row. */
  lemma FourthAgreesExactly(p: Pattern, dict: Dictionary, triples: seq<Triple>, rows: seq<Row>)
    requires p.subj != p.obj
    ensures multiset(VariantJoin(FourthVariant, p, dict, triples, rows)) == multiset(NestedJoin(p, dict, triples, rows))
        <==> !exists t | t in triples :: Shadows(p, dict, rows, t)
  {
    forall t ensures
      var fourth, nested := VariantContribution(FourthVariant, p, dict, rows)(t), Contribution(p, dict, rows)(t);
      && |fourth| <= |nested| && (|fourth| == |nested| <==> !Shadows(p, dict, rows, t))
      && (|fourth| == |nested| ==> multiset(fourth) == multiset(nested))
    {
      FourthOnTriple(p, dict, rows, t);
    }
    BagsAgreeExactly(VariantContribution(FourthVariant, p, dict, rows), Contribution(p, dict, rows), triples);
  }

  // ---------------------------------------------------------------- examples

  /** A clash: one variable in both positions, two different values; variant 3 keeps the object. */
  lemma ClashBindsAnyway(p: Pattern, st: Statement)
    requires p == Pattern("?x", "p", "?x", None) && st == Statement("a", "p", "b")
    ensures FlatMap(ExtendBy(p, st), [map[]]) == [] && Third(p, st, [map[]]) == [map["?x" := "b"]]
  {
    var row: Row := map[];
    FlatMapOne(ExtendBy(p, st), row);
    FlatMapOne(Overwrite(p, st), row);
    assert [row][1..] == [] && row.Keys == {};
    assert Filter(BindsNeither(p), [row]) == [row];
    assert !BindsBoth(p, st.subj, st.obj)(row) && Filter(BindsBoth(p, st.subj, st.obj), [row]) == [];
    assert row["?x" := "a"]["?x" := "b"] == map["?x" := "b"];
    assert Overwrite(p, st)(row) == [map["?x" := "b"]];
    assert Filter(BindsSubject(p, st.subj), [row]) == [] && Filter(BindsObject(p, st.obj), [row]) == [];
    assert FlatMap(BindTo(p.obj, st.obj), []) == [] && FlatMap(BindTo(p.subj, st.subj), []) == [];
  }

  /** A shadowed row: a row that binds both positions hides the one that binds the subject only. */
  lemma ShadowedRowIsLost(p: Pattern, st: Statement, full: Row, half: Row)
    requires p == Pattern("?s", "p", "?o", None) && st == Statement("a", "p", "b")
    requires full == map["?s" := "a", "?o" := "b"] && half == map["?s" := "a"]
    ensures FlatMap(ExtendBy(p, st), [full, half]) == [full, full] && Fourth(p, st, [full, half]) == [full]
  {
    assert [full, half][1..] == [half];
    FlatMapOne(ExtendBy(p, st), half);
    assert half["?o" := "b"] == full && Extend(p, st, full) == [full] && Extend(p, st, half) == [full];
    assert Filter(BindsBoth(p, st.subj, st.obj), [half]) == [];
    assert !BindsBoth(p, st.subj, st.obj)(half) && BindsBoth(p, st.subj, st.obj)(full);
    assert Filter(BindsBoth(p, st.subj, st.obj), [half]) == [];
    assert Fully(p, st, [full, half]) == [full];
  }

  // ---------------------------------------------------------------- homogeneous rows

  /** All rows bind the same variables. */
  ghost predicate Homogeneous(rows: seq<Row>, variables: set<string>) {
    forall row | row in rows :: row.Keys == variables
  }

  lemma ContributionKeys(p: Pattern, st: Statement, rows: seq<Row>, variables: set<string>)
    requires Homogeneous(rows, variables)
    ensures Homogeneous(FlatMap(ExtendBy(p, st), rows), variables + {p.subj, p.obj})
  {
    forall row | row in FlatMap(ExtendBy(p, st), rows) ensures row.Keys == variables + {p.subj, p.obj} {
      FlatMapMember(ExtendBy(p, st), rows, row);
      var start :| start in rows && row in Extend(p, st, start);
      ExtendedRow(p, st, start, row);
    }
  }

  /** Every join step keeps the rows homogeneous. */
  lemma JoinKeepsHomogeneous(p: Pattern, dict: Dictionary, triples: seq<Triple>, rows: seq<Row>, variables: set<string>)
    requires Homogeneous(rows, variables)
    ensures Homogeneous(NestedJoin(p, dict, triples, rows), variables + {p.subj, p.obj})
  {
    forall result | result in NestedJoin(p, dict, triples, rows) ensures result.Keys == variables + {p.subj, p.obj} {
      FlatMapMember(Contribution(p, dict, rows), triples, result);
      var t :| t in triples && result in Contribution(p, dict, rows)(t);
      ContributionKeys(p, Decode(dict, t).value, rows, variables);
    }
  }

  /** Homogeneous rows shadow nothing, so variant 4 agrees at every step of a query over distinct variables. */
  lemma FourthOnHomogeneousRows(p: Pattern, dict: Dictionary, triples: seq<Triple>, rows: seq<Row>,
                                variables: set<string>)
    requires p.subj != p.obj && Homogeneous(rows, variables)
    ensures multiset(VariantJoin(FourthVariant, p, dict, triples, rows)) == multiset(NestedJoin(p, dict, triples, rows))
  {
    forall t | t in triples && Relevant(p, dict, t) ensures !Shadowed(p, Decode(dict, t).value, rows) {
      assert forall row | row in rows ::
        row.Keys == variables && (p.subj in row <==> p.subj in variables) && (p.obj in row <==> p.obj in variables);
    }
    FourthAgreesExactly(p, dict, triples, rows);
  }
}
