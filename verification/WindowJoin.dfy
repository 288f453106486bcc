/** The join of the latest results of all windows, and the rows an emission hands to the
    relation-to-stream operator. */
module WindowJoin {
  import opened Bags
  import opened Options
  import opened SolutionMappings
  import opened Sequences

  /** All windows joined, from the left; joining no window at all gives the one empty mapping. */
  function JoinAll(windows: seq<seq<Row>>): seq<Row> {
    if windows == [] then [map[]]
    else Join(JoinAll(windows[..|windows| - 1]), windows[|windows| - 1])
  }

  /** What the engine returns: without any window there is no row. */
  function JoinedWindows(windows: seq<seq<Row>>): seq<Row> {
    if windows == [] then [] else JoinAll(windows)
  }

  method JoinWindowResults(windows: seq<seq<Row>>) returns (joined: seq<Row>)
    ensures joined == JoinedWindows(windows)
    ensures windows == [] ==> joined == []
    ensures windows != [] ==> forall b :: multiset(joined)[b] == |Justifications(windows, b)|
  {
    forall b { JoinMultiplicity(windows, b); }
    if windows == [] {
      return [];
    }
    assert windows[..1] == [windows[0]] && windows[..0] == [];
    UnitJoin(windows[0]);
    JoinAllSnoc([], windows[0]);
    assert [] + [windows[0]] == windows[..1];
    if |windows| == 1 {
      assert windows == windows[..1];
      return windows[0];
    }
    joined := windows[0];
    for i := 1 to |windows|
      invariant joined == JoinAll(windows[..i])
    {
      assert windows[..i + 1][..i] == windows[..i];
      joined := NaturalJoin(joined, windows[i]);
    }
    TakeAll(windows);
  }

  lemma UnitJoin(w: seq<Row>)
    ensures Join([map[]], w) == w
  {
    FlatMapOne(JoinWith(w), map[]);
    UnitJoinRow(w);
  }

  lemma UnitJoinRow(w: seq<Row>)
    ensures JoinRow(map[], w) == w
  {
    if w != [] {
      UnitJoinRow(w[1..]);
      assert map[] + w[0] == w[0];
    }
  }

  lemma JoinAllSnoc(windows: seq<seq<Row>>, w: seq<Row>)
    ensures JoinAll(windows + [w]) == Join(JoinAll(windows), w)
  {
  }

  // ---------------------------------------------------------------- one row per window

  /** A choice of one row (by its position) in each window. */
  type Pick = seq<nat>

  ghost predicate IsPick(windows: seq<seq<Row>>, p: Pick) {
    |p| == |windows| && forall k | 0 <= k < |p| :: p[k] < |windows[k]|
  }

  ghost predicate PairwiseCompatible(windows: seq<seq<Row>>, p: Pick)
    requires IsPick(windows, p)
  {
    forall j, k | 0 <= j < k < |p| :: Compatible(windows[j][p[j]], windows[k][p[k]])
  }

  /** The variable `v` is bound to `val` by one of the chosen rows. */
  ghost predicate Binds(windows: seq<seq<Row>>, p: Pick, v: string, val: string)
    requires IsPick(windows, p)
  {
    exists k | 0 <= k < |p| :: v in windows[k][p[k]] && windows[k][p[k]][v] == val
  }

  /** `b` is the union of the chosen rows, as a set of bindings. */
  ghost predicate IsUnion(windows: seq<seq<Row>>, p: Pick, b: Row)
    requires IsPick(windows, p)
  {
    forall v, val :: (v in b && b[v] == val) <==> Binds(windows, p, v, val)
  }

  /** The chosen rows put together are the mapping `b`, so they bind no variable to two values. */
  ghost predicate Justifies(windows: seq<seq<Row>>, p: Pick, b: Row) {
    IsPick(windows, p) && IsUnion(windows, p, b)
  }

  lemma JustifiedRowsAgree(windows: seq<seq<Row>>, p: Pick, b: Row)
    requires Justifies(windows, p, b)
    ensures PairwiseCompatible(windows, p)
  {
    forall j, k | 0 <= j < k < |p| ensures Compatible(windows[j][p[j]], windows[k][p[k]]) {
      forall v | v in windows[j][p[j]] && v in windows[k][p[k]]
        ensures windows[j][p[j]][v] == windows[k][p[k]][v]
      {
        assert Binds(windows, p, v, windows[j][p[j]][v]) && Binds(windows, p, v, windows[k][p[k]][v]);
      }
    }
  }

  /** Every choice of one row per window. */
  ghost function Picks(windows: seq<seq<Row>>): (ps: set<Pick>)
    ensures forall p :: p in ps <==> IsPick(windows, p)
  {
    if windows == [] then
      {[]}
    else
      var shorter := Picks(windows[..|windows| - 1]);
      var ps := set p, i: nat | p in shorter && i < |windows[|windows| - 1]| :: p + [i];
      PicksComplete(windows, shorter, ps);
      ps
  }

  lemma PicksComplete(windows: seq<seq<Row>>, shorter: set<Pick>, ps: set<Pick>)
    requires windows != []
    requires forall p :: p in shorter <==> IsPick(windows[..|windows| - 1], p)
    requires ps == set p, i: nat | p in shorter && i < |windows[|windows| - 1]| :: p + [i]
    ensures forall p :: p in ps <==> IsPick(windows, p)
  {
    var n := |windows| - 1;
    forall p | IsPick(windows, p) ensures p in ps {
      assert p == p[..n] + [p[n]];
      assert p[..n] in shorter;
    }
  }

  /** The choices that justify the row `b`. */
  ghost function Justifications(windows: seq<seq<Row>>, b: Row): set<Pick> {
    set p | p in Picks(windows) && Justifies(windows, p, b)
  }

  // ---------------------------------------------------------------- the fold, choice by choice

  ghost function RowOf(windows: seq<seq<Row>>, p: Pick): Row
    requires IsPick(windows, p)
  {
    if p == [] then map[] else RowOf(windows[..|p| - 1], p[..|p| - 1]) + windows[|p| - 1][p[|p| - 1]]
  }

  ghost function Rows(windows: seq<seq<Row>>, ps: seq<Pick>): (rows: seq<Row>)
    requires forall p | p in ps :: IsPick(windows, p)
    ensures |rows| == |ps|
    ensures forall i | 0 <= i < |ps| :: rows[i] == RowOf(windows, ps[i])
  {
    if ps == [] then [] else
    assert ps[0] in ps;
    [RowOf(windows, ps[0])] + Rows(windows, ps[1..])
  }

  /** The choices whose rows the fold pushes, in the order in which it pushes them. */
  ghost function Pushed(windows: seq<seq<Row>>): (ps: seq<Pick>)
    ensures forall p | p in ps :: IsPick(windows, p)
  {
    if windows == [] then [[]]
    else PushedWith(windows, Pushed(windows[..|windows| - 1]))
  }

  ghost function PushedWith(windows: seq<seq<Row>>, ps: seq<Pick>): (qs: seq<Pick>)
    requires windows != []
    requires forall p | p in ps :: IsPick(windows[..|windows| - 1], p)
    ensures forall q | q in qs :: IsPick(windows, q)
  {
    if ps == [] then [] else
    assert ps[0] in ps && forall p | p in ps[1..] :: p in ps;
    Extensions(windows, ps[0], 0) + PushedWith(windows, ps[1..])
  }

  /** The extensions of the choice `p` by a row of the last window, from position `i` on. */
  ghost function Extensions(windows: seq<seq<Row>>, p: Pick, i: nat): (qs: seq<Pick>)
    requires windows != [] && i <= |windows[|windows| - 1]|
    requires IsPick(windows[..|windows| - 1], p)
    ensures forall q | q in qs :: IsPick(windows, q)
    decreases |windows[|windows| - 1]| - i
  {
    var last := windows[|windows| - 1];
    if i == |last| then [] else
    (if Compatible(RowOf(windows[..|windows| - 1], p), last[i]) then [p + [i]] else []) + Extensions(windows, p, i + 1)
  }

  lemma {:induction false} ExtensionsRows(windows: seq<seq<Row>>, p: Pick, i: nat)
    requires windows != [] && i <= |windows[|windows| - 1]|
    requires IsPick(windows[..|windows| - 1], p)
    ensures Rows(windows, Extensions(windows, p, i))
         == JoinRow(RowOf(windows[..|windows| - 1], p), windows[|windows| - 1][i..])
    decreases |windows[|windows| - 1]| - i
  {
    var n := |windows| - 1;
    var last := windows[n];
    if i < |last| {
      ExtensionsRows(windows, p, i + 1);
    }
  }

  lemma {:induction false} PushedWithRows(windows: seq<seq<Row>>, ps: seq<Pick>)
    requires windows != []
    requires forall p | p in ps :: IsPick(windows[..|windows| - 1], p)
    ensures Rows(windows, PushedWith(windows, ps)) == Join(Rows(windows[..|windows| - 1], ps), windows[|windows| - 1])
  {
    if ps != [] {
      assert ps[0] in ps && forall p | p in ps[1..] :: p in ps;
      PushedWithRows(windows, ps[1..]);
      ExtensionsRows(windows, ps[0], 0);
      assert windows[|windows| - 1][0..] == windows[|windows| - 1];
      RowsAppend(windows, Extensions(windows, ps[0], 0), PushedWith(windows, ps[1..]));
    }
  }

  lemma RowsAppend(windows: seq<seq<Row>>, a: seq<Pick>, b: seq<Pick>)
    requires forall p | p in a + b :: IsPick(windows, p)
    ensures (forall p | p in a :: p in a + b) && (forall p | p in b :: p in a + b)
    ensures Rows(windows, a + b) == Rows(windows, a) + Rows(windows, b)
  {
    assert forall p | p in a :: p in a + b;
    assert forall p | p in b :: p in a + b;
  }

  /** The fold pushes exactly the rows of the choices `Pushed`. */
  lemma {:induction false} PushedRows(windows: seq<seq<Row>>)
    ensures Rows(windows, Pushed(windows)) == JoinAll(windows)
  {
    if windows != [] {
      PushedRows(windows[..|windows| - 1]);
      PushedWithRows(windows, Pushed(windows[..|windows| - 1]));
    }
  }

  // ---------------------------------------------------------------- which choices are pushed

  /** The fold's left-biased merge is the union when the chosen rows agree pairwise. */
  lemma {:induction false} RowOfIsUnion(windows: seq<seq<Row>>, p: Pick)
    requires IsPick(windows, p) && PairwiseCompatible(windows, p)
    ensures IsUnion(windows, p, RowOf(windows, p))
  {
    if p != [] {
      var n := |p| - 1;
      var init, p' := windows[..n], p[..n];
      RowOfIsUnion(init, p');
      var before, row := RowOf(init, p'), windows[n][p[n]];
      forall v, val
        ensures (v in before + row && (before + row)[v] == val) <==> Binds(windows, p, v, val)
      {
        assert Binds(init, p', v, val) ==> Binds(windows, p, v, val) by {
          if Binds(init, p', v, val) {
            var k :| 0 <= k < |p'| && v in init[k][p'[k]] && init[k][p'[k]][v] == val;
            assert v in windows[k][p[k]];
          }
        }
        if Binds(windows, p, v, val) {
          var k :| 0 <= k < |p| && v in windows[k][p[k]] && windows[k][p[k]][v] == val;
          if k < n {
            assert v in init[k][p'[k]];
            assert Binds(init, p', v, val);
            assert Compatible(windows[k][p[k]], row);
          }
        }
        if v in row && row[v] == val {
          assert v in windows[n][p[n]];
        }
      }
    }
  }

  lemma UnionUnique(windows: seq<seq<Row>>, p: Pick, b: Row, c: Row)
    requires IsPick(windows, p) && IsUnion(windows, p, b) && IsUnion(windows, p, c)
    ensures b == c
  {
    forall v ensures v in b <==> v in c {
      if v in b { assert Binds(windows, p, v, b[v]); }
      if v in c { assert Binds(windows, p, v, c[v]); }
    }
    forall v | v in b ensures b[v] == c[v] {
      assert Binds(windows, p, v, b[v]);
    }
  }

  lemma PairwiseSnoc(windows: seq<seq<Row>>, p: Pick)
    requires p != [] && IsPick(windows, p)
    ensures var n := |p| - 1;
      PairwiseCompatible(windows, p) <==>
        PairwiseCompatible(windows[..n], p[..n]) && Compatible(RowOf(windows[..n], p[..n]), windows[n][p[n]])
  {
    var n := |p| - 1;
    var init, p', row := windows[..n], p[..n], windows[n][p[n]];
    assert PairwiseCompatible(windows, p) ==> PairwiseCompatible(init, p') by {
      if PairwiseCompatible(windows, p) {
        forall j, k | 0 <= j < k < n ensures Compatible(init[j][p'[j]], init[k][p'[k]]) {
          assert Compatible(windows[j][p[j]], windows[k][p[k]]);
        }
      }
    }
    if PairwiseCompatible(init, p') {
      RowOfIsUnion(init, p');
      var before := RowOf(init, p');
      if PairwiseCompatible(windows, p) {
        forall v | v in before && v in row ensures before[v] == row[v] {
          assert Binds(init, p', v, before[v]);
          var k :| 0 <= k < |p'| && v in init[k][p'[k]] && init[k][p'[k]][v] == before[v];
          assert Compatible(windows[k][p[k]], windows[n][p[n]]);
        }
      }
      if Compatible(before, row) {
        forall j, k | 0 <= j < k < |p| ensures Compatible(windows[j][p[j]], windows[k][p[k]]) {
          if k < n {
            assert Compatible(init[j][p'[j]], init[k][p'[k]]);
          } else {
            forall v | v in windows[j][p[j]] && v in row ensures windows[j][p[j]][v] == row[v] {
              assert v in init[j][p'[j]];
              assert Binds(init, p', v, windows[j][p[j]][v]);
            }
          }
        }
      }
    }
  }

  lemma {:induction false} ExtensionsMember(windows: seq<seq<Row>>, p: Pick, i: nat)
    requires windows != [] && i <= |windows[|windows| - 1]|
    requires IsPick(windows[..|windows| - 1], p)
    ensures var n := |windows| - 1;
      forall q :: q in Extensions(windows, p, i) <==>
        IsPick(windows, q) && q[..n] == p && i <= q[n] && Compatible(RowOf(windows[..n], p), windows[n][q[n]])
    ensures NoDuplicates(Extensions(windows, p, i))
    decreases |windows[|windows| - 1]| - i
  {
    var n := |windows| - 1;
    if i < |windows[n]| {
      ExtensionsMember(windows, p, i + 1);
      forall q | IsPick(windows, q) && q[..n] == p && q[n] == i ensures q == p + [i] {
        assert q == q[..n] + [q[n]];
      }
      assert (p + [i])[n] == i;
      assert p + [i] !in Extensions(windows, p, i + 1);
    }
  }

  lemma {:induction false} PushedWithMember(windows: seq<seq<Row>>, ps: seq<Pick>)
    requires windows != [] && NoDuplicates(ps)
    requires forall p | p in ps :: IsPick(windows[..|windows| - 1], p)
    ensures var n := |windows| - 1;
      forall q :: q in PushedWith(windows, ps) <==>
        IsPick(windows, q) && q[..n] in ps && Compatible(RowOf(windows[..n], q[..n]), windows[n][q[n]])
    ensures NoDuplicates(PushedWith(windows, ps))
  {
    if ps != [] {
      assert ps[0] in ps && forall p | p in ps[1..] :: p in ps;
      ExtensionsMember(windows, ps[0], 0);
      PushedWithMember(windows, ps[1..]);
      var here, later := Extensions(windows, ps[0], 0), PushedWith(windows, ps[1..]);
      forall i, j | 0 <= i < |here| && 0 <= j < |later| ensures here[i] != later[j] {
        assert here[i] in here && later[j] in later;
        assert later[j][..|windows| - 1] in ps[1..];
      }
    }
  }

  /** A choice is pushed exactly when its rows are pairwise compatible, and then once. */
  lemma {:induction false} PushedMember(windows: seq<seq<Row>>)
    ensures forall p :: p in Pushed(windows) <==> IsPick(windows, p) && PairwiseCompatible(windows, p)
    ensures NoDuplicates(Pushed(windows))
  {
    if windows == [] {
      forall p: Pick ensures p in Pushed(windows) <==> IsPick(windows, p) && PairwiseCompatible(windows, p) {
        assert |p| == 0 <==> p == [];
      }
    } else {
      var n := |windows| - 1;
      PushedMember(windows[..n]);
      PushedWithMember(windows, Pushed(windows[..n]));
      forall p | IsPick(windows, p) ensures p in Pushed(windows) <==> PairwiseCompatible(windows, p) {
        PairwiseSnoc(windows, p);
      }
    }
  }

  lemma JustifiedBy(windows: seq<seq<Row>>, p: Pick, b: Row)
    ensures Justifies(windows, p, b) <==> p in Pushed(windows) && IsPick(windows, p) && RowOf(windows, p) == b
  {
    PushedMember(windows);
    if Justifies(windows, p, b) {
      JustifiedRowsAgree(windows, p, b);
    }
    if IsPick(windows, p) && PairwiseCompatible(windows, p) {
      RowOfIsUnion(windows, p);
      if IsUnion(windows, p, b) {
        UnionUnique(windows, p, b, RowOf(windows, p));
      }
    }
  }

  /** The join of the windows is exact as a bag: the multiplicity of a row is the number of ways to
      choose one row per window, pairwise compatible, whose union is that row. */
  lemma JoinMultiplicity(windows: seq<seq<Row>>, b: Row)
    ensures multiset(JoinAll(windows))[b] == |Justifications(windows, b)|
  {
    PushedRows(windows);
    PushedMember(windows);
    var ps, rows := Pushed(windows), Rows(windows, Pushed(windows));
    forall p ensures p in Justifications(windows, b) <==> exists i :: 0 <= i < |ps| && ps[i] == p && rows[i] == b {
      JustifiedBy(windows, p, b);
    }
    CountLabels(ps, rows, b, Justifications(windows, b));
  }

  // ---------------------------------------------------------------- order of the windows

  /** Exchanging the last two windows permutes the rows. */
  lemma JoinExchange(rows: seq<Row>, x: seq<Row>, y: seq<Row>)
    ensures multiset(Join(Join(rows, x), y)) == multiset(Join(Join(rows, y), x))
  {
    JoinAssociates(rows, x, y);
    JoinAssociates(rows, y, x);
    JoinCommutes(x, y);
    JoinBag(rows, Join(x, y), rows, Join(y, x));
  }

  lemma LastApart<T>(before: seq<T>, w: T, init: seq<T>, z: T)
    ensures before + [w] + (init + [z]) == before + [w] + init + [z]
    ensures before + (init + [z]) == before + init + [z]
  {
  }

  lemma JoinLastStep(before: seq<seq<Row>>, w: seq<Row>, init: seq<seq<Row>>, z: seq<Row>)
    requires multiset(JoinAll(before + [w] + init)) == multiset(Join(JoinAll(before + init), w))
    ensures multiset(JoinAll(before + [w] + (init + [z]))) == multiset(Join(JoinAll(before + (init + [z])), w))
  {
    var rows := JoinAll(before + init);
    LastApart(before, w, init, z);
    JoinBag(JoinAll(before + [w] + init), z, Join(rows, w), z);
    JoinExchange(rows, w, z);
  }

  /** Joining a window last is the same, as a bag, as joining it at any earlier point. */
  lemma {:induction false} JoinLast(before: seq<seq<Row>>, w: seq<Row>, after: seq<seq<Row>>)
    ensures multiset(JoinAll(before + [w] + after)) == multiset(Join(JoinAll(before + after), w))
    decreases |after|
  {
    if after == [] {
      AppendNothing(before, after);
      AppendNothing(before + [w], after);
    } else {
      var n := |after| - 1;
      JoinLast(before, w, after[..n]);
      JoinLastStep(before, w, after[..n], after[n]);
      Ends(after);
    }
  }

  /** Any one window can be joined last. */
  lemma JoinFrom(windows: seq<seq<Row>>, k: nat)
    requires k < |windows|
    ensures multiset(JoinAll(windows)) == multiset(Join(JoinAll(windows[..k] + windows[k + 1..]), windows[k]))
  {
    Around(windows, k);
    JoinLast(windows[..k], windows[k], windows[k + 1..]);
  }

  lemma JoinFirst(windows: seq<seq<Row>>)
    requires windows != []
    ensures multiset(JoinAll(windows)) == multiset(Join(JoinAll(windows[1..]), windows[0]))
  {
    TakeAll(windows);
    AppendNothing(windows[1..], windows[..0]);
    JoinFrom(windows, 0);
  }

  lemma SameFirst(a: seq<Row>, b: seq<Row>, w: seq<Row>)
    requires multiset(a) == multiset(b)
    ensures multiset(Join(a, w)) == multiset(Join(b, w))
  {
    JoinBag(a, w, b, w);
  }

  /** The bag of joined rows does not depend on the order of the windows. */
  lemma {:induction false} JoinAllPermuted(windows: seq<seq<Row>>, permuted: seq<seq<Row>>)
    requires multiset(windows) == multiset(permuted)
    ensures multiset(JoinAll(windows)) == multiset(JoinAll(permuted))
    decreases |windows|
  {
    if windows == [] {
      assert |multiset(permuted)| == 0;
    } else {
      var k := FirstOccurrence(windows, permuted);
      var others := permuted[..k] + permuted[k + 1..];
      JoinAllPermuted(windows[1..], others);
      SameFirst(JoinAll(windows[1..]), JoinAll(others), windows[0]);
      JoinFirst(windows);
      JoinFrom(permuted, k);
    }
  }

  // ---------------------------------------------------------------- emission

  /** Window identifier to the rows it delivered last. */
  type Materialized = map<string, seq<Row>>

  /** An order in which a hash map may hand out its entries. */
  ghost predicate Enumerates(keys: seq<string>, m: Materialized) {
    NoDuplicates(keys) && forall k :: k in keys <==> k in m
  }

  function Lookup(m: Materialized): string -> seq<seq<Row>> {
    k => if k in m then [m[k]] else []
  }

  function Values(m: Materialized, keys: seq<string>): seq<seq<Row>> {
    FlatMap(Lookup(m), keys)
  }

  /** The rows an emission delivers when the map is iterated in the order `keys`. */
  function EmittedRows(m: Materialized, keys: seq<string>, background: Option<seq<Row>>): seq<Row>
  {
    var joined := JoinedWindows(Values(m, keys));
    if background.Some? then Join(joined, background.value) else joined
  }

  /** Everything an emission joins: the windows and, when there is a static plan, its bindings. */
  function Sources(m: Materialized, keys: seq<string>, background: Option<seq<Row>>): seq<seq<Row>>
  {
    Values(m, keys) + if background.Some? then [background.value] else []
  }

  lemma EmittedIsJoinAll(m: Materialized, keys: seq<string>, background: Option<seq<Row>>)
    requires Values(m, keys) != []
    ensures EmittedRows(m, keys, background) == JoinAll(Sources(m, keys, background))
  {
    var values := Values(m, keys);
    assert values + [] == values;
  }

  /** The emitted bag does not depend on the order in which the window map is iterated. */
  lemma EmissionOrderFree(m: Materialized, keys: seq<string>, others: seq<string>, background: Option<seq<Row>>)
    requires Enumerates(keys, m) && Enumerates(others, m)
    ensures multiset(EmittedRows(m, keys, background)) == multiset(EmittedRows(m, others, background))
  {
    if m != map[] {
      SameElements(keys, others);
      FlatMapPermuted(Lookup(m), keys, others);
      EmittedIsJoinAll(m, keys, background);
      EmittedIsJoinAll(m, others, background);
      JoinAllPermuted(Sources(m, keys, background), Sources(m, others, background));
    }
  }

  /** Joining the static bindings last equals joining them at any earlier point. */
  lemma BackgroundAtAnyPoint(m: Materialized, keys: seq<string>, background: seq<Row>, i: nat)
    requires 0 < |Values(m, keys)| && i <= |Values(m, keys)|
    ensures multiset(EmittedRows(m, keys, Some(background)))
         == multiset(JoinAll(Values(m, keys)[..i] + [background] + Values(m, keys)[i..]))
  {
    var values := Values(m, keys);
    assert values[..i] + values[i..] == values;
    JoinLast(values[..i], background, values[i..]);
  }

  /** The multiplicity of an emitted row counts the ways to choose one compatible row per source. */
  lemma EmissionMultiplicity(m: Materialized, keys: seq<string>, background: Option<seq<Row>>, b: Row)
    requires m != map[] && Enumerates(keys, m)
    ensures multiset(EmittedRows(m, keys, background))[b] == |Justifications(Sources(m, keys, background), b)|
  {
    EmittedIsJoinAll(m, keys, background);
    JoinMultiplicity(Sources(m, keys, background), b);
  }

  // ---------------------------------------------------------------- relation to stream

  datatype StreamOperator = RStream | IStream | DStream

  /** The rows delivered to the consumer, given those of the previous emission. */
  ghost function Delivered(operator: StreamOperator, last: set<Row>, rows: multiset<Row>): multiset<Row> {
    match operator
    case RStream => rows
    case IStream => WithoutAll(rows, last)
    case DStream => multiset(last - Support(rows))
  }

  ghost function Support(rows: multiset<Row>): set<Row> {
    set r | r in rows
  }

  ghost function WithoutAll(rows: multiset<Row>, last: set<Row>): (w: multiset<Row>)
    ensures forall r :: w[r] == if r in last then 0 else rows[r]
    decreases |last|
  {
    if last == {} then rows else
    var r :| r in last;
    WithoutAll(rows[r := 0], last - {r})
  }

  class Relation2Stream {
    const operator: StreamOperator
    var lastResult: set<Row>

    constructor (operator: StreamOperator)
      ensures this.operator == operator && lastResult == {}
    {
      this.operator := operator;
      lastResult := {};
    }

    method Eval(response: seq<Row>) returns (emitted: seq<Row>)
      modifies this
      ensures multiset(emitted) == Delivered(operator, old(lastResult), multiset(response))
      ensures forall b :: multiset(emitted)[b] == match operator
                case RStream => multiset(response)[b]
                case IStream => if b in old(lastResult) then 0 else multiset(response)[b]
                case DStream => if b in old(lastResult) && b !in response then 1 else 0
      ensures lastResult == if operator == RStream then old(lastResult) else Support(multiset(response))
    {
      match operator
      case RStream =>
        emitted := response;
      case IStream =>
        emitted := NotIn(response, lastResult);
        assert multiset(emitted) == WithoutAll(multiset(response), lastResult);
        lastResult := set r | r in response;
      case DStream =>
        var newSet := set r | r in response;
        emitted := CollectRows(lastResult - newSet);
        assert newSet == Support(multiset(response));
        lastResult := newSet;
    }
  }

  method NotIn(response: seq<Row>, last: set<Row>) returns (emitted: seq<Row>)
    ensures forall r :: multiset(emitted)[r] == if r in last then 0 else multiset(response)[r]
  {
    emitted := [];
    for i := 0 to |response|
      invariant forall r :: multiset(emitted)[r] == if r in last then 0 else multiset(response[..i])[r]
    {
      assert response[..i + 1] == response[..i] + [response[i]];
      if response[i] !in last {
        emitted := emitted + [response[i]];
      }
    }
    TakeAll(response);
  }

  method CollectRows(rows: set<Row>) returns (list: seq<Row>)
    ensures multiset(list) == multiset(rows)
  {
    list := [];
    var todo := rows;
    while todo != {}
      invariant todo <= rows
      invariant multiset(list) == multiset(rows - todo)
      decreases |todo|
    {
      var r :| r in todo;
      list, todo := list + [r], todo - {r};
    }
  }

  /** Collects the values of the map in the order in which the map hands them out. */
  method CollectValues(m: Materialized) returns (windows: seq<seq<Row>>, ghost order: seq<string>)
    ensures Enumerates(order, m) && windows == Values(m, order)
  {
    windows, order := [], [];
    var todo := m.Keys;
    while todo != {}
      invariant todo <= m.Keys && NoDuplicates(order)
      invariant forall k :: k in order <==> k in m.Keys - todo
      invariant windows == Values(m, order)
      decreases |todo|
    {
      var k :| k in todo;
      FlatMapSnoc(Lookup(m), order, k);
      assert forall i | 0 <= i < |order| :: order[i] in order;
      windows, order, todo := windows + [m[k]], order + [k], todo - {k};
    }
  }

  /** One emission: the windows joined in whatever order, the static bindings last, then the stream operator. */
  method EmitResults(m: Materialized, background: Option<seq<Row>>, stream: Relation2Stream) returns (outputs: seq<Row>)
    modifies stream
    ensures forall keys | Enumerates(keys, m) ::
              multiset(outputs)
                  == Delivered(stream.operator, old(stream.lastResult), multiset(EmittedRows(m, keys, background)))
    ensures forall keys, b | Enumerates(keys, m) && m != map[] ::
              var now := |Justifications(Sources(m, keys, background), b)|;
              multiset(outputs)[b] == match stream.operator
                case RStream => now
                case IStream => if b in old(stream.lastResult) then 0 else now
                case DStream => if b in old(stream.lastResult) && now == 0 then 1 else 0
    ensures forall keys | Enumerates(keys, m) && stream.operator != RStream ::
              stream.lastResult == Support(multiset(EmittedRows(m, keys, background)))
    ensures stream.operator == RStream ==> stream.lastResult == old(stream.lastResult)
  {
    var windows, order := CollectValues(m);
    var joined := JoinWindowResults(windows);
    if background.Some? {
      joined := NaturalJoin(joined, background.value);
    }
    forall keys | Enumerates(keys, m)
      ensures multiset(EmittedRows(m, keys, background)) == multiset(joined)
    {
      EmissionOrderFree(m, keys, order, background);
    }
    outputs := stream.Eval(joined);
    forall keys, b | Enumerates(keys, m) && m != map[]
      ensures multiset(joined)[b] == |Justifications(Sources(m, keys, background), b)|
    {
      EmissionMultiplicity(m, keys, background, b);
    }
  }
}
