/** Solution mappings and the natural join of two bags of them. */
module SolutionMappings {
  import opened Bags
  import opened Sequences

  /** A solution mapping: variable name to value. */
  type Row = map<string, string>

  /** The two mappings agree on every variable they share. */
  predicate Compatible(a: Row, b: Row) {
    forall v | v in a && v in b :: a[v] == b[v]
  }

  function Merge(a: Row, b: Row): seq<Row> {
    if Compatible(a, b) then [a + b] else []
  }

  function MergeWith(a: Row): Row -> seq<Row> {
    b => Merge(a, b)
  }

  function JoinRow(a: Row, right: seq<Row>): seq<Row> {
    FlatMap(MergeWith(a), right)
  }

  function JoinWith(right: seq<Row>): Row -> seq<Row> {
    a => JoinRow(a, right)
  }

  /** Join of two bags of mappings (section 18.5 of SPARQL 1.1 Query Language). */
  function Join(left: seq<Row>, right: seq<Row>): seq<Row> {
    FlatMap(JoinWith(right), left)
  }

  /** The pairwise loop of the engine: the inner loop pushes the merged row of each compatible pair. */
  method NaturalJoin(left: seq<Row>, right: seq<Row>) returns (result: seq<Row>)
    ensures result == Join(left, right)
  {
    if left == [] || right == [] {
      FlatMapNothing(JoinWith(right), left);
      return [];
    }
    result := [];
    for i := 0 to |left|
      invariant result == Join(left[..i], right)
    {
      for j := 0 to |right|
        invariant result == Join(left[..i], right) + JoinRow(left[i], right[..j])
      {
        var compatible := Agree(left[i], right[j]);
        if compatible {
          var merged := Insert(left[i], right[j]);
          result := result + [merged];
        }
        FlatMapStep(MergeWith(left[i]), right, j);
      }
      TakeAll(right);
      FlatMapStep(JoinWith(right), left, i);
    }
    TakeAll(left);
  }

  /** Inserts every entry of `b` into a copy of `a`, in any order. */
  method Insert(a: Row, b: Row) returns (merged: Row)
    ensures merged == a + b
  {
    merged := a;
    var todo := b.Keys;
    while todo != {}
      invariant todo <= b.Keys
      invariant merged.Keys == a.Keys + (b.Keys - todo)
      invariant forall v | v in merged :: merged[v] == if v in b && v !in todo then b[v] else a[v]
      decreases |todo|
    {
      var k :| k in todo;
      merged := merged[k := b[k]];
      todo := todo - {k};
    }
    assert merged == a + b;
  }

  /** The scan for a shared variable with two different values. */
  method Agree(a: Row, b: Row) returns (compatible: bool)
    ensures compatible == Compatible(a, b)
  {
    compatible := true;
    var todo := a.Keys;
    while todo != {}
      invariant todo <= a.Keys
      invariant compatible
      invariant forall v | v in a && v in b && v !in todo :: a[v] == b[v]
      decreases |todo|
    {
      var v :| v in todo;
      if v in b && a[v] != b[v] {
        return false;
      }
      todo := todo - {v};
    }
  }

  // ---------------------------------------------------------------- algebra

  lemma MergeCommutes(a: Row, b: Row)
    ensures Merge(a, b) == Merge(b, a)
  {
    if Compatible(a, b) {
      assert a + b == b + a;
    }
  }

  lemma MergeAssociates(a: Row, b: Row, c: Row)
    ensures Compatible(a, b) && Compatible(a + b, c) <==> Compatible(b, c) && Compatible(a, b + c)
    ensures (a + b) + c == a + (b + c)
  {
  }

  /** Joining is commutative on bags. */
  lemma JoinCommutes(left: seq<Row>, right: seq<Row>)
    ensures multiset(Join(left, right)) == multiset(Join(right, left))
  {
    forall a, b | a in left && b in right ensures MergeWith(a)(b) == MergeWith(b)(a) {
      MergeCommutes(a, b);
    }
    FlatMapExchange(MergeWith, MergeWith, JoinWith(right), JoinWith(left), left, right);
  }

  lemma MergeThenMerge(a: Row, b: Row, c: Row)
    ensures FlatMap(MergeWith(a), Merge(b, c)) == if Compatible(a, b) then Merge(a + b, c) else []
  {
    MergeAssociates(a, b, c);
    if Compatible(b, c) {
      FlatMapOne(MergeWith(a), b + c);
    }
  }

  lemma MergeThenJoinRow(a: Row, b: Row, third: seq<Row>)
    ensures Join(Merge(a, b), third) == FlatMap(MergeWith(a), JoinRow(b, third))
  {
    var both := c => FlatMap(MergeWith(a), Merge(b, c));
    FlatMapNested(MergeWith(a), MergeWith(b), both, third);
    forall c | c in third ensures both(c) == if Compatible(a, b) then Merge(a + b, c) else [] {
      MergeThenMerge(a, b, c);
    }
    if Compatible(a, b) {
      FlatMapOne(JoinWith(third), a + b);
      FlatMapCongruent(MergeWith(a + b), both, third);
    } else {
      FlatMapNothing(both, third);
    }
  }

  lemma JoinRowThenJoin(a: Row, second: seq<Row>, third: seq<Row>)
    ensures Join(JoinRow(a, second), third) == JoinRow(a, Join(second, third))
  {
    var both := b => Join(Merge(a, b), third);
    FlatMapNested(JoinWith(third), MergeWith(a), both, second);
    forall b | b in second ensures both(b) == FlatMap(MergeWith(a), JoinRow(b, third)) {
      MergeThenJoinRow(a, b, third);
    }
    FlatMapNested(MergeWith(a), JoinWith(third), both, second);
  }

  /** Joining is associative, even as a sequence. */
  lemma JoinAssociates(first: seq<Row>, second: seq<Row>, third: seq<Row>)
    ensures Join(Join(first, second), third) == Join(first, Join(second, third))
  {
    forall a | a in first ensures JoinWith(Join(second, third))(a) == Join(JoinRow(a, second), third) {
      JoinRowThenJoin(a, second, third);
    }
    FlatMapNested(JoinWith(third), JoinWith(second), JoinWith(Join(second, third)), first);
  }

  /** The bag of a join depends only on the bags joined. */
  lemma JoinBag(l1: seq<Row>, r1: seq<Row>, l2: seq<Row>, r2: seq<Row>)
    requires multiset(l1) == multiset(l2) && multiset(r1) == multiset(r2)
    ensures multiset(Join(l1, r1)) == multiset(Join(l2, r2))
  {
    FlatMapPermuted(JoinWith(r1), l1, l2);
    forall a | a in l2 ensures multiset(JoinRow(a, r1)) == multiset(JoinRow(a, r2)) {
      FlatMapPermuted(MergeWith(a), r1, r2);
    }
    FlatMapBagCongruent(JoinWith(r1), JoinWith(r2), l2);
  }
}
