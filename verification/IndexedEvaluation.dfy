/** The pattern loop of a query over the index-based joins: exactly when it delivers what the nested loops deliver. */
module IndexedEvaluation {
  import opened Options
  import opened Bags
  import opened SolutionMappings
  import opened Triples
  import opened PatternJoin
  import opened IndexedJoins
  import opened BasicGraphPattern
  import opened StatementStores

  function EvaluateBy(v: Variant, patterns: seq<Pattern>, dict: Dictionary, triples: seq<Triple>,
                      rows: seq<Row>): seq<Row> {
    if patterns == [] then rows else
    var n := |patterns| - 1;
    VariantJoin(v, patterns[n], dict, triples, EvaluateBy(v, patterns[..n], dict, triples, rows))
  }

  // ---------------------------------------------------------------- one join

  /** The pattern does not bind one name in both positions for the first time. */
  predicate Settles(p: Pattern, bound: set<string>) {
    p.subj == p.obj ==> p.subj in bound
  }

  lemma UnboundWhenHomogeneous(p: Pattern, st: Statement, rows: seq<Row>, bound: set<string>)
    requires Homogeneous(rows, bound)
    ensures !Shadowed(p, st, rows)
    ensures p.subj in bound ==> !Unbound(p, rows)
  {
    assert forall row | row in rows :: row.Keys == bound;
  }

  /** On rows over one set of names both variants deliver at least the bag of the nested loop, and the same bag unless
      the statement clashes. */
  lemma StatementMatches(v: Variant, p: Pattern, st: Statement, rows: seq<Row>, bound: set<string>)
    requires Homogeneous(rows, bound)
    ensures var nested, ours := FlatMap(ExtendBy(p, st), rows), Matches(v, p, st, rows);
      && multiset(nested) <= multiset(ours)
      && (Settles(p, bound) || st.subj == st.obj ==> multiset(ours) == multiset(nested))
  {
    UnboundWhenHomogeneous(p, st, rows, bound);
    ThirdVersusNested(p, st, rows);
    FourthVersusNested(p, st, rows);
    if !Settles(p, bound) && st.subj != st.obj {
      NothingFits(p, st, rows);
    }
  }

  lemma NothingFits(p: Pattern, st: Statement, rows: seq<Row>)
    requires p.subj == p.obj && st.subj != st.obj
    ensures FlatMap(ExtendBy(p, st), rows) == []
  {
    FlatMapNothing(ExtendBy(p, st), rows);
  }

  /** A clash adds every row, with the object for the name. */
  lemma ClashAdds(v: Variant, p: Pattern, st: Statement, rows: seq<Row>, bound: set<string>, row: Row)
    requires Homogeneous(rows, bound) && p.subj == p.obj && p.subj !in bound && st.subj != st.obj && row in rows
    ensures row[p.obj := st.obj] in Matches(v, p, st, rows)
  {
    FilterNothing(BindsBoth(p, st.subj, st.obj), rows);
    assert row in Filter(BindsNeither(p), rows);
    assert row[p.subj := st.subj][p.obj := st.obj] == row[p.obj := st.obj];
    FlatMapMember(Overwrite(p, st), Filter(BindsNeither(p), rows), row[p.obj := st.obj]);
    assert row[p.obj := st.obj] in Overwrite(p, st)(row);
    assert row[p.obj := st.obj] in Partly(p, st, rows);
  }

  lemma MatchedKeys(v: Variant, p: Pattern, st: Statement, rows: seq<Row>, bound: set<string>)
    requires Homogeneous(rows, bound)
    ensures Homogeneous(Matches(v, p, st, rows), bound + {p.subj, p.obj})
  {
    if Settles(p, bound) || st.subj == st.obj {
      StatementMatches(v, p, st, rows, bound);
      ContributionKeys(p, st, rows, bound);
      HomogeneousBag(FlatMap(ExtendBy(p, st), rows), Matches(v, p, st, rows), bound + {p.subj, p.obj});
    } else {
      FilterNothing(BindsBoth(p, st.subj, st.obj), rows);
      FilterNothing(BindsSubject(p, st.subj), rows);
      FilterNothing(BindsObject(p, st.obj), rows);
      forall result | result in Matches(v, p, st, rows) ensures result.Keys == bound + {p.subj, p.obj} {
        FlatMapMember(Overwrite(p, st), Filter(BindsNeither(p), rows), result);
      }
    }
  }

  lemma HomogeneousBag(a: seq<Row>, b: seq<Row>, variables: set<string>)
    requires multiset(a) == multiset(b) && Homogeneous(a, variables)
    ensures Homogeneous(b, variables)
  {
    forall row | row in b ensures row.Keys == variables {
      assert row in multiset(b);
    }
  }

  lemma JoinKeys(v: Variant, p: Pattern, dict: Dictionary, triples: seq<Triple>, rows: seq<Row>, bound: set<string>)
    requires Homogeneous(rows, bound)
    ensures Homogeneous(VariantJoin(v, p, dict, triples, rows), bound + {p.subj, p.obj})
  {
    forall result | result in VariantJoin(v, p, dict, triples, rows) ensures result.Keys == bound + {p.subj, p.obj} {
      FlatMapMember(VariantContribution(v, p, dict, rows), triples, result);
      var t :| t in triples && result in VariantContribution(v, p, dict, rows)(t);
      MatchedKeys(v, p, Decode(dict, t).value, rows, bound);
    }
  }

  lemma {:induction false} MoreFromMore<T, U>(f: T -> seq<U>, g: T -> seq<U>, s: seq<T>, y: U)
    requires forall x | x in s :: multiset(f(x))[y] <= multiset(g(x))[y]
    ensures multiset(FlatMap(f, s))[y] <= multiset(FlatMap(g, s))[y]
    ensures (exists x | x in s :: multiset(f(x))[y] < multiset(g(x))[y]) ==>
      multiset(FlatMap(f, s))[y] < multiset(FlatMap(g, s))[y]
  {
    if s != [] {
      assert s == [s[0]] + s[1..];
      MoreFromMore(f, g, s[1..], y);
    }
  }

  lemma TripleMatches(v: Variant, p: Pattern, dict: Dictionary, t: Triple, rows: seq<Row>, bound: set<string>)
    requires Homogeneous(rows, bound)
    ensures var nested, ours := Contribution(p, dict, rows)(t), VariantContribution(v, p, dict, rows)(t);
      && multiset(nested) <= multiset(ours)
      && (Settles(p, bound) ==> multiset(ours) == multiset(nested))
  {
    if Relevant(p, dict, t) {
      StatementMatches(v, p, Decode(dict, t).value, rows, bound);
    }
  }

  /** On rows over one set of names a join over either variant delivers at least the bag of the nested loop, and the
      same bag when the pattern settles. */
  lemma JoinMatches(v: Variant, p: Pattern, dict: Dictionary, triples: seq<Triple>, rows: seq<Row>, bound: set<string>)
    requires Homogeneous(rows, bound)
    ensures multiset(NestedJoin(p, dict, triples, rows)) <= multiset(VariantJoin(v, p, dict, triples, rows))
    ensures Settles(p, bound) ==>
      multiset(VariantJoin(v, p, dict, triples, rows)) == multiset(NestedJoin(p, dict, triples, rows))
  {
    var nested, ours := Contribution(p, dict, rows), VariantContribution(v, p, dict, rows);
    forall t
      ensures multiset(nested(t)) <= multiset(ours(t))
      ensures Settles(p, bound) ==> multiset(ours(t)) == multiset(nested(t))
    {
      TripleMatches(v, p, dict, t, rows, bound);
    }
    forall y ensures multiset(FlatMap(nested, triples))[y] <= multiset(FlatMap(ours, triples))[y] {
      MoreFromMore(nested, ours, triples, y);
    }
    if Settles(p, bound) {
      FlatMapBagCongruent(ours, nested, triples);
    }
  }

  // ---------------------------------------------------------------- the whole loop

  /** Every pattern with one name in both positions comes when the name is bound. */
  predicate BoundBefore(patterns: seq<Pattern>, bound: set<string>) {
    patterns == []
    || (Settles(patterns[0], bound) && BoundBefore(patterns[1..], bound + {patterns[0].subj, patterns[0].obj}))
  }

  lemma {:induction false} EvaluateByFirst(v: Variant, patterns: seq<Pattern>, dict: Dictionary, triples: seq<Triple>,
                                           rows: seq<Row>)
    requires patterns != []
    ensures EvaluateBy(v, patterns, dict, triples, rows)
         == EvaluateBy(v, patterns[1..], dict, triples, VariantJoin(v, patterns[0], dict, triples, rows))
  {
    if |patterns| == 1 {
      assert patterns[..0] == [];
    } else {
      var n := |patterns| - 1;
      var rest, first := patterns[1..], VariantJoin(v, patterns[0], dict, triples, rows);
      EvaluateByFirst(v, patterns[..n], dict, triples, rows);
      assert patterns[..n][1..] == rest[..n - 1];
      EvaluateByLast(v, patterns, dict, triples, rows);
      EvaluateByLast(v, rest, dict, triples, first);
    }
  }

  lemma EvaluateByLast(v: Variant, patterns: seq<Pattern>, dict: Dictionary, triples: seq<Triple>, rows: seq<Row>)
    requires patterns != []
    ensures var n := |patterns| - 1;
      EvaluateBy(v, patterns, dict, triples, rows)
      == VariantJoin(v, patterns[n], dict, triples, EvaluateBy(v, patterns[..n], dict, triples, rows))
  {
  }

  lemma NestedJoinMore(p: Pattern, dict: Dictionary, triples: seq<Triple>, a: seq<Row>, b: seq<Row>)
    requires multiset(a) <= multiset(b)
    ensures multiset(NestedJoin(p, dict, triples, a)) <= multiset(NestedJoin(p, dict, triples, b))
  {
    forall t, y ensures multiset(Contribution(p, dict, a)(t))[y] <= multiset(Contribution(p, dict, b)(t))[y] {
      if Relevant(p, dict, t) {
        MoreRows(ExtendBy(p, Decode(dict, t).value), a, b, y);
      }
    }
    forall y ensures multiset(NestedJoin(p, dict, triples, a))[y] <= multiset(NestedJoin(p, dict, triples, b))[y] {
      MoreFromMore(Contribution(p, dict, a), Contribution(p, dict, b), triples, y);
    }
  }

  lemma {:induction false} MoreRows(f: Row -> seq<Row>, a: seq<Row>, b: seq<Row>, y: Row)
    requires multiset(a) <= multiset(b)
    ensures multiset(FlatMap(f, a))[y] <= multiset(FlatMap(f, b))[y]
    decreases |a|
  {
    if a != [] {
      assert a == [a[0]] + a[1..];
      assert a[0] in multiset(b);
      var k :| 0 <= k < |b| && b[k] == a[0];
      var rest := b[..k] + b[k + 1..];
      RemoveAtBag(b, k);
      MoreRows(f, a[1..], rest, y);
      FlatMapPull(f, b, k);
    }
  }

  lemma {:induction false} EvaluateMore(patterns: seq<Pattern>, dict: Dictionary, triples: seq<Triple>, a: seq<Row>,
                                        b: seq<Row>)
    requires multiset(a) <= multiset(b)
    ensures multiset(Evaluate(patterns, dict, triples, a)) <= multiset(Evaluate(patterns, dict, triples, b))
  {
    if patterns != [] {
      var n := |patterns| - 1;
      EvaluateMore(patterns[..n], dict, triples, a, b);
      NestedJoinMore(patterns[n], dict, triples, Evaluate(patterns[..n], dict, triples, a),
                     Evaluate(patterns[..n], dict, triples, b));
    }
  }

  /** The whole loop delivers at least the bag of the nested loops. */
  lemma {:induction false} VariantsDeliverMore(v: Variant, patterns: seq<Pattern>, dict: Dictionary,
                                               triples: seq<Triple>, rows: seq<Row>, bound: set<string>)
    requires Homogeneous(rows, bound)
    ensures multiset(Evaluate(patterns, dict, triples, rows)) <= multiset(EvaluateBy(v, patterns, dict, triples, rows))
  {
    if patterns != [] {
      var p, rest := patterns[0], patterns[1..];
      var nested, ours := NestedJoin(p, dict, triples, rows), VariantJoin(v, p, dict, triples, rows);
      JoinMatches(v, p, dict, triples, rows, bound);
      JoinKeys(v, p, dict, triples, rows, bound);
      VariantsDeliverMore(v, rest, dict, triples, ours, bound + {p.subj, p.obj});
      EvaluateMore(rest, dict, triples, nested, ours);
      EvaluateFirst(patterns, dict, triples, rows);
      EvaluateByFirst(v, patterns, dict, triples, rows);
    }
  }

  /** From rows over one set of variables the loop over either variant delivers the bag of the nested loops, when
      every pattern with one name in both positions comes when the name is bound. */
  lemma {:induction false} VariantsEvaluate(v: Variant, patterns: seq<Pattern>, dict: Dictionary, triples: seq<Triple>,
                                            rows: seq<Row>, bound: set<string>)
    requires Homogeneous(rows, bound) && BoundBefore(patterns, bound)
    ensures multiset(EvaluateBy(v, patterns, dict, triples, rows)) == multiset(Evaluate(patterns, dict, triples, rows))
  {
    if patterns != [] {
      var p, rest := patterns[0], patterns[1..];
      var nested, ours := NestedJoin(p, dict, triples, rows), VariantJoin(v, p, dict, triples, rows);
      JoinMatches(v, p, dict, triples, rows, bound);
      JoinKeys(v, p, dict, triples, rows, bound);
      VariantsEvaluate(v, rest, dict, triples, ours, bound + {p.subj, p.obj});
      EvaluateMore(rest, dict, triples, nested, ours);
      EvaluateMore(rest, dict, triples, ours, nested);
      EvaluateFirst(patterns, dict, triples, rows);
      EvaluateByFirst(v, patterns, dict, triples, rows);
    }
  }

  // ---------------------------------------------------------------- exactly when

  /** The loop over the variant agrees with the nested loops on every store. */
  ghost predicate Agrees(v: Variant, patterns: seq<Pattern>, rows: seq<Row>) {
    forall dict: Dictionary, triples: seq<Triple> :: Interned(dict, triples) ==>
      AgreesOn(v, patterns, dict, triples, rows)
  }

  ghost predicate AgreesOn(v: Variant, patterns: seq<Pattern>, dict: Dictionary, triples: seq<Triple>, rows: seq<Row>) {
    multiset(EvaluateBy(v, patterns, dict, triples, rows)) == multiset(Evaluate(patterns, dict, triples, rows))
  }

  /** The row, with every other name of the patterns standing for itself. */
  ghost function Completed(row: Row, patterns: seq<Pattern>): Row {
    row + map name | name in Names(patterns) && name !in row :: name
  }

  /** The row does not bind a fixed object to anything else. */
  ghost predicate Fits(row: Row, patterns: seq<Pattern>) {
    forall p | p in patterns && p.literal.Some? :: p.literal.value == if p.obj in row then row[p.obj] else p.obj
  }

  /** The statements that make the patterns hold in the completed row, and one more. */
  ghost function StatementsOf(patterns: seq<Pattern>, target: Row, clash: Statement): set<Statement>
    requires forall p | p in patterns :: p.subj in target && p.obj in target
  {
    (set p | p in patterns :: Statement(target[p.subj], p.pred, target[p.obj])) + {clash}
  }

  lemma CompletedHolds(patterns: seq<Pattern>, row: Row, clash: Statement)
    requires Fits(row, patterns)
    ensures var target := Completed(row, patterns);
      && (forall p | p in patterns :: p.subj in target && p.obj in target)
      && AllHold(patterns, StatementsOf(patterns, target, clash), target)
      && Below(target, Names(patterns))(row)
  {
    CompletedBelow(patterns, row);
    var target := Completed(row, patterns);
    var store := StatementsOf(patterns, target, clash);
    forall p | p in patterns ensures Holds(p, store, target) {
      assert Statement(target[p.subj], p.pred, target[p.obj]) in store;
    }
  }

  lemma CompletedBelow(patterns: seq<Pattern>, row: Row)
    ensures var target := Completed(row, patterns);
      && (forall p | p in patterns :: p.subj in target && p.obj in target)
      && Below(target, Names(patterns))(row)
  {
    NamesOf(patterns);
    var target := Completed(row, patterns);
    forall p | p in patterns ensures p.subj in target && p.obj in target {
      assert p.subj in Names(patterns) && p.obj in Names(patterns);
    }
  }

  /** A statement that clashes at the first pattern that binds one name in both positions for the first time. */
  function ClashOf(patterns: seq<Pattern>, bound: set<string>): Statement
    requires !BoundBefore(patterns, bound)
  {
    var p := patterns[0];
    if Settles(p, bound) then ClashOf(patterns[1..], bound + {p.subj, p.obj})
    else Statement(p.subj + "x", p.pred, p.obj)
  }

  lemma MoreBelow(target: Row, names: set<string>, a: seq<Row>, b: seq<Row>, row: Row)
    requires multiset(a) <= multiset(b) && multiset(a)[row] < multiset(b)[row] && Below(target, names)(row)
    ensures |Filter(Below(target, names), a)| < |Filter(Below(target, names), b)|
  {
    var x, y := multiset(Filter(Below(target, names), a)), multiset(Filter(Below(target, names), b));
    forall r ensures x[r] <= y[r] {
      FilterCount(Below(target, names), a, r);
      FilterCount(Below(target, names), b, r);
    }
    FilterCount(Below(target, names), a, row);
    FilterCount(Below(target, names), b, row);
    SmallerBag(x, y, row);
  }

  lemma SmallerBag<T>(x: multiset<T>, y: multiset<T>, r: T)
    requires x <= y && x[r] < y[r]
    ensures |x| < |y|
  {
    assert y == x + (y - x);
    assert r in y - x;
  }

  lemma ClashingTriple(v: Variant, p: Pattern, dict: Dictionary, t: Triple, rows: seq<Row>,
                       bound: set<string>, clash: Statement, row: Row)
    requires Homogeneous(rows, bound) && !Settles(p, bound) && row in rows
    requires Decode(dict, t) == Some(clash) && Selects(p, clash) && clash.subj != clash.obj
    ensures multiset(Contribution(p, dict, rows)(t))[row[p.obj := clash.obj]]
          < multiset(VariantContribution(v, p, dict, rows)(t))[row[p.obj := clash.obj]]
  {
    NothingFits(p, clash, rows);
    ClashAdds(v, p, clash, rows, bound, row);
    assert row[p.obj := clash.obj] in multiset(VariantContribution(v, p, dict, rows)(t));
  }

  /** At a clash the variant delivers one row more than the nested loop. */
  lemma ClashDeliversMore(v: Variant, p: Pattern, dict: Dictionary, triples: seq<Triple>, rows: seq<Row>,
                          bound: set<string>, clash: Statement, row: Row)
    requires Homogeneous(rows, bound) && !Settles(p, bound) && row in rows
    requires clash in Statements(dict, triples) && Selects(p, clash) && clash.subj != clash.obj
    ensures multiset(NestedJoin(p, dict, triples, rows))[row[p.obj := clash.obj]]
          < multiset(VariantJoin(v, p, dict, triples, rows))[row[p.obj := clash.obj]]
  {
    var nested, ours := Contribution(p, dict, rows), VariantContribution(v, p, dict, rows);
    var y := row[p.obj := clash.obj];
    NoFewer(v, p, dict, rows, bound, y);
    var t := TripleOf(dict, triples, clash);
    ClashingTriple(v, p, dict, t, rows, bound, clash, row);
    MoreWithOneMore(nested, ours, triples, t, y);
  }

  lemma NoFewer(v: Variant, p: Pattern, dict: Dictionary, rows: seq<Row>, bound: set<string>, y: Row)
    requires Homogeneous(rows, bound)
    ensures forall t ::
      multiset(Contribution(p, dict, rows)(t))[y] <= multiset(VariantContribution(v, p, dict, rows)(t))[y]
  {
    forall t
      ensures multiset(Contribution(p, dict, rows)(t))[y] <= multiset(VariantContribution(v, p, dict, rows)(t))[y]
    {
      TripleMatches(v, p, dict, t, rows, bound);
    }
  }

  lemma TripleOf(dict: Dictionary, triples: seq<Triple>, st: Statement) returns (t: Triple)
    requires st in Statements(dict, triples)
    ensures t in triples && Decode(dict, t) == Some(st)
  {
    t :| t in triples && Decode(dict, t) == Some(st);
  }

  lemma MoreWithOneMore<T, U>(f: T -> seq<U>, g: T -> seq<U>, s: seq<T>, t: T, y: U)
    requires forall x :: multiset(f(x))[y] <= multiset(g(x))[y]
    requires t in s && multiset(f(t))[y] < multiset(g(t))[y]
    ensures multiset(FlatMap(f, s))[y] < multiset(FlatMap(g, s))[y]
  {
    MoreFromMore(f, g, s, y);
  }

  /** On a store that makes the patterns hold in the target and has the clash, the variant delivers the target more
      often than the nested loops. */
  lemma {:induction false} ClashShows(v: Variant, patterns: seq<Pattern>, dict: Dictionary, triples: seq<Triple>,
                                      rows: seq<Row>, bound: set<string>, target: Row)
    requires Homogeneous(rows, bound) && Interned(dict, triples) && !BoundBefore(patterns, bound)
    requires AllHold(patterns, Statements(dict, triples), target)
    requires forall name | name in Names(patterns) && name !in bound :: name in target && target[name] == name
    requires ClashOf(patterns, bound) in Statements(dict, triples)
    requires Filter(Below(target, Names(patterns)), rows) != []
    ensures multiset(Evaluate(patterns, dict, triples, rows))[target]
          < multiset(EvaluateBy(v, patterns, dict, triples, rows))[target]
    decreases |patterns|
  {
    var p, rest := patterns[0], patterns[1..];
    var nested, ours := NestedJoin(p, dict, triples, rows), VariantJoin(v, p, dict, triples, rows);
    var wider := bound + {p.subj, p.obj};
    assert p in patterns && forall q | q in rest :: q in patterns;
    EvaluateFirst(patterns, dict, triples, rows);
    EvaluateByFirst(v, patterns, dict, triples, rows);
    JoinMatches(v, p, dict, triples, rows, bound);
    JoinKeys(v, p, dict, triples, rows, bound);
    JoinBelow(p, dict, triples, rows, target, Names(rest));
    if Settles(p, bound) {
      FilterBag(Below(target, Names(rest)), nested, ours);
      BagLength(Filter(Below(target, Names(rest)), nested), Filter(Below(target, Names(rest)), ours));
      ClashShows(v, rest, dict, triples, ours, wider, target);
      EvaluateMore(rest, dict, triples, nested, ours);
    } else {
      ClashHere(v, patterns, dict, triples, rows, bound, target);
    }
  }

  lemma ClashHere(v: Variant, patterns: seq<Pattern>, dict: Dictionary, triples: seq<Triple>, rows: seq<Row>,
                  bound: set<string>, target: Row)
    requires Homogeneous(rows, bound) && Interned(dict, triples) && patterns != [] && !Settles(patterns[0], bound)
    requires AllHold(patterns, Statements(dict, triples), target)
    requires patterns[0].obj in target && target[patterns[0].obj] == patterns[0].obj
    requires Statement(patterns[0].subj + "x", patterns[0].pred, patterns[0].obj) in Statements(dict, triples)
    requires Filter(Below(target, Names(patterns)), rows) != []
    ensures var p, rest := patterns[0], patterns[1..];
      multiset(Evaluate(rest, dict, triples, NestedJoin(p, dict, triples, rows)))[target]
      < multiset(EvaluateBy(v, rest, dict, triples, VariantJoin(v, p, dict, triples, rows)))[target]
  {
    var p, rest := patterns[0], patterns[1..];
    var nested, ours := NestedJoin(p, dict, triples, rows), VariantJoin(v, p, dict, triples, rows);
    var clash := Statement(p.subj + "x", p.pred, p.obj);
    var row := Filter(Below(target, Names(patterns)), rows)[0];
    assert row in Filter(Below(target, Names(patterns)), rows);
    assert |clash.subj| == |p.subj| + 1;
    ClashSelected(patterns, Statements(dict, triples), target, clash);
    ClashDeliversMore(v, p, dict, triples, rows, bound, clash, row);
    JoinMatches(v, p, dict, triples, rows, bound);
    ClashStaysBelow(patterns, row, target);
    MoreBelow(target, Names(rest), nested, ours, row[p.obj := p.obj]);
    JoinKeys(v, p, dict, triples, rows, bound);
    MoreDelivered(v, rest, dict, triples, nested, ours, bound + {p.subj, p.obj}, target);
  }

  lemma ClashSelected(patterns: seq<Pattern>, store: set<Statement>, target: Row, clash: Statement)
    requires patterns != [] && AllHold(patterns, store, target)
    requires patterns[0].obj in target && target[patterns[0].obj] == patterns[0].obj
    requires clash.pred == patterns[0].pred && clash.obj == patterns[0].obj
    ensures Selects(patterns[0], clash) && AllHold(patterns[1..], store, target)
  {
    assert patterns[0] in patterns && forall q | q in patterns[1..] :: q in patterns;
    assert Holds(patterns[0], store, target);
  }

  lemma ClashStaysBelow(patterns: seq<Pattern>, row: Row, target: Row)
    requires patterns != [] && patterns[0].subj == patterns[0].obj
    requires patterns[0].obj in target && target[patterns[0].obj] == patterns[0].obj
    requires Below(target, Names(patterns))(row)
    ensures Below(target, Names(patterns[1..]))(row[patterns[0].obj := patterns[0].obj])
  {
  }

  lemma MoreDelivered(v: Variant, rest: seq<Pattern>, dict: Dictionary, triples: seq<Triple>, nested: seq<Row>,
                      ours: seq<Row>, bound: set<string>, target: Row)
    requires Interned(dict, triples) && AllHold(rest, Statements(dict, triples), target) && Homogeneous(ours, bound)
    requires |Filter(Below(target, Names(rest)), nested)| < |Filter(Below(target, Names(rest)), ours)|
    ensures multiset(Evaluate(rest, dict, triples, nested))[target]
          < multiset(EvaluateBy(v, rest, dict, triples, ours))[target]
  {
    EvaluateCount(rest, dict, triples, nested, target);
    EvaluateCount(rest, dict, triples, ours, target);
    VariantsDeliverMore(v, rest, dict, triples, ours, bound);
  }

  lemma SomethingClashes(v: Variant, patterns: seq<Pattern>, rows: seq<Row>, bound: set<string>, row: Row)
    requires Homogeneous(rows, bound) && row in rows && Fits(row, patterns) && !BoundBefore(patterns, bound)
    ensures !Agrees(v, patterns, rows)
  {
    var target, clash := Completed(row, patterns), ClashOf(patterns, bound);
    CompletedHolds(patterns, row, clash);
    SomeStore(StatementsOf(patterns, target, clash));
    var dict: Dictionary, triples: seq<Triple> :| Interned(dict, triples)
      && Statements(dict, triples) == StatementsOf(patterns, target, clash);
    assert row in Filter(Below(target, Names(patterns)), rows);
    ClashShows(v, patterns, dict, triples, rows, bound, target);
    assert !AgreesOn(v, patterns, dict, triples, rows);
  }

  /** From rows over one set of variables, one of which fits the fixed objects, the loop over either variant delivers
      the bag of the nested loops on every store, if and only if every pattern with one name in both positions comes
      when the name is bound. */
  lemma VariantsAgreeExactly(v: Variant, patterns: seq<Pattern>, rows: seq<Row>, bound: set<string>)
    requires Homogeneous(rows, bound) && exists row | row in rows :: Fits(row, patterns)
    ensures Agrees(v, patterns, rows) <==> BoundBefore(patterns, bound)
  {
    if BoundBefore(patterns, bound) {
      forall dict: Dictionary, triples: seq<Triple> | Interned(dict, triples)
        ensures AgreesOn(v, patterns, dict, triples, rows)
      {
        VariantsEvaluate(v, patterns, dict, triples, rows, bound);
      }
    } else {
      var row :| row in rows && Fits(row, patterns);
      SomethingClashes(v, patterns, rows, bound, row);
    }
  }

  /** For a query without inline data. */
  lemma QueriesAgreeExactly(v: Variant, query: seq<QueryTriple>)
    ensures Agrees(v, ToPatterns(query), [map[]]) <==> BoundBefore(ToPatterns(query), {})
  {
    var empty: Row := map[];
    assert empty in [empty] && Fits(empty, ToPatterns(query));
    VariantsAgreeExactly(v, ToPatterns(query), [empty], {});
  }
}
