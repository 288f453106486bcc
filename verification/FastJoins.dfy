/** The partitioned joins: sequential, and parallel with a shared result vector. */
module FastJoins {
  import opened Bags
  import opened SolutionMappings
  import opened PatternJoin
  import opened Triples
  import opened Sequences

  // ---------------------------------------------------------------- sequential

  /** The rows one triple contributes through the groups. */
  function GroupedContribution(p: Pattern, dict: Dictionary, g: Groups): Triple -> seq<Row> {
    t =>
      var st := Decode(dict, t);
      if st.Some? && Selects(p, st.value) then Grouped(p, st.value, g) else []
  }

  lemma GroupedIsNested(p: Pattern, dict: Dictionary, triples: seq<Triple>, rows: seq<Row>, g: Groups)
    requires Partitions(p, rows, g)
    ensures multiset(FlatMap(GroupedContribution(p, dict, g), triples)) == multiset(NestedJoin(p, dict, triples, rows))
  {
    forall t | t in triples
      ensures multiset(GroupedContribution(p, dict, g)(t)) == multiset(Contribution(p, dict, rows)(t))
    {
      var st := Decode(dict, t);
      if st.Some? && Selects(p, st.value) {
        assert Grouped(p, st.value, g) == ByGroups(p, st.value, rows);
        GroupsAreExact(p, st.value, rows);
      }
    }
    FlatMapBagCongruent(GroupedContribution(p, dict, g), Contribution(p, dict, rows), triples);
  }

  /** Pushes the matches of all four groups for one statement. */
  method PushMatches(p: Pattern, st: Statement, g: Groups, local: seq<Row>) returns (results: seq<Row>)
    ensures results == local + Grouped(p, st, g)
  {
    ghost var both := Get(g.both, (st.subj, st.obj));
    ghost var bySubject := FlatMap(BindTo(p.obj, st.obj), Get(g.bySubject, st.subj));
    ghost var byObject := FlatMap(BindTo(p.subj, st.subj), Get(g.byObject, st.obj));
    ghost var unbound := FlatMap(ExtendBy(p, st), g.neither);
    AppendFour(local, both, bySubject, byObject, unbound);
    results := local;
    if (st.subj, st.obj) in g.both {
      results := PushAll(g.both[(st.subj, st.obj)], results);
    }
    assert results == local + both;
    results := PushBound(p.obj, st.obj, Get(g.bySubject, st.subj), results);
    results := PushBound(p.subj, st.subj, Get(g.byObject, st.obj), results);
    results := PushUnbound(p, st, g.neither, results);
  }

  method PushAll(group: seq<Row>, local: seq<Row>) returns (results: seq<Row>)
    ensures results == local + group
  {
    results := local;
    for i := 0 to |group|
      invariant results == local + group[..i]
    {
      results := results + [group[i]];
    }
  }

  /** Pushes the rows in which neither position is bound. */
  method PushUnbound(p: Pattern, st: Statement, group: seq<Row>, local: seq<Row>) returns (results: seq<Row>)
    ensures results == local + FlatMap(ExtendBy(p, st), group)
  {
    results := local;
    for i := 0 to |group|
      invariant results == local + FlatMap(ExtendBy(p, st), group[..i])
    {
      FlatMapStep(ExtendBy(p, st), group, i);
      var extended := group[i];
      if p.subj in extended {
        if extended[p.subj] != st.subj {
          continue;
        }
      } else {
        extended := extended[p.subj := st.subj];
      }
      if p.obj in extended {
        if extended[p.obj] != st.obj {
          continue;
        }
      } else {
        extended := extended[p.obj := st.obj];
      }
      results := results + [extended];
    }
    TakeAll(group);
  }

  /** Pushes the rows of a group in which only the other position is bound. */
  method PushBound(v: string, value: string, group: seq<Row>, local: seq<Row>) returns (results: seq<Row>)
    ensures results == local + FlatMap(BindTo(v, value), group)
  {
    results := local;
    for i := 0 to |group|
      invariant results == local + FlatMap(BindTo(v, value), group[..i])
    {
      FlatMapStep(BindTo(v, value), group, i);
      var extended := group[i];
      if v in extended {
        if extended[v] != value {
          continue;
        }
      } else {
        extended := extended[v := value];
      }
      results := results + [extended];
    }
    TakeAll(group);
  }

  method JoinChunk(p: Pattern, dict: Dictionary, triples: seq<Triple>, g: Groups) returns (results: seq<Row>)
    ensures results == FlatMap(GroupedContribution(p, dict, g), triples)
  {
    results := [];
    for i := 0 to |triples|
      invariant results == FlatMap(GroupedContribution(p, dict, g), triples[..i])
    {
      FlatMapStep(GroupedContribution(p, dict, g), triples, i);
      var st := Decode(dict, triples[i]);
      if st.Some? {
        if st.value.pred != p.pred {
          continue;
        }
        if p.literal.Some? && st.value.obj != p.literal.value {
          continue;
        }
        results := PushMatches(p, st.value, g, results);
      }
    }
    TakeAll(triples);
  }

  lemma NoRows(p: Pattern, dict: Dictionary, triples: seq<Triple>)
    ensures NestedJoin(p, dict, triples, []) == []
  {
    FlatMapNothing(Contribution(p, dict, []), triples);
  }

  method PerformJoinSequential(p: Pattern, dict: Dictionary, triples: seq<Triple>, rows: seq<Row>)
    returns (results: seq<Row>)
    ensures multiset(results) == multiset(NestedJoin(p, dict, triples, rows))
  {
    if rows == [] {
      NoRows(p, dict, triples);
      return [];
    }
    var g := Partition(p, rows);
    results := JoinChunk(p, dict, triples, g);
    GroupedIsNested(p, dict, triples, rows, g);
  }

  // ---------------------------------------------------------------- chunks

  function Chunk(triples: seq<Triple>, size: nat, k: nat): seq<Triple>
    requires size > 0
  {
    var lo, hi := k * size, k * size + size;
    if |triples| <= lo then [] else if |triples| <= hi then triples[lo..] else triples[lo..hi]
  }

  function ChunkOutput(f: Triple -> seq<Row>, triples: seq<Triple>, size: nat): nat -> seq<Row>
    requires size > 0
  {
    (k: nat) => FlatMap(f, Chunk(triples, size, k))
  }

  function Upto(n: nat): (r: seq<nat>)
    ensures |r| == n && forall i | 0 <= i < n :: r[i] == i
  {
    if n == 0 then [] else Upto(n - 1) + [n - 1]
  }

  function Min(a: nat, b: nat): nat {
    if a < b then a else b
  }

  lemma ChunkAppends(triples: seq<Triple>, size: nat, k: nat)
    requires size > 0
    ensures triples[..Min((k + 1) * size, |triples|)] == triples[..Min(k * size, |triples|)] + Chunk(triples, size, k)
  {
  }

  /** The outputs of the first `n` chunks, in order, are the output of the triples they cover. */
  lemma {:induction false} ChunksInOrder(f: Triple -> seq<Row>, triples: seq<Triple>, size: nat, n: nat)
    requires size > 0
    ensures FlatMap(ChunkOutput(f, triples, size), Upto(n)) == FlatMap(f, triples[..Min(n * size, |triples|)])
  {
    if n == 0 {
      assert triples[..0] == [];
    } else {
      ChunksInOrder(f, triples, size, n - 1);
      FlatMapSnoc<nat, Row>(ChunkOutput(f, triples, size), Upto(n - 1), n - 1);
      ChunkAppends(triples, size, n - 1);
      FlatMapAppend(f, triples[..Min((n - 1) * size, |triples|)], Chunk(triples, size, n - 1));
    }
  }

  /** `schedule` lists every chunk exactly once, in the order in which the chunks get the lock. */
  ghost predicate IsSchedule(schedule: seq<nat>, chunks: nat) {
    NoDuplicates(schedule) && forall k: nat :: k in schedule <==> k < chunks
  }

  function ChunkCount(n: nat, size: nat): nat
    requires size > 0
  {
    (n + size - 1) / size
  }

  lemma ChunkCountCovers(n: nat, size: nat)
    requires size > 0
    ensures n <= ChunkCount(n, size) * size
  {
  }

  lemma AllChunks(f: Triple -> seq<Row>, triples: seq<Triple>, size: nat)
    requires size > 0
    ensures FlatMap(ChunkOutput(f, triples, size), Upto(ChunkCount(|triples|, size))) == FlatMap(f, triples)
  {
    ChunksInOrder(f, triples, size, ChunkCount(|triples|, size));
    ChunkCountCovers(|triples|, size);
    TakeAll(triples);
  }

  lemma ScheduledOutput(f: Triple -> seq<Row>, triples: seq<Triple>, size: nat, schedule: seq<nat>)
    requires size > 0 && IsSchedule(schedule, ChunkCount(|triples|, size))
    ensures multiset(FlatMap(ChunkOutput(f, triples, size), schedule)) == multiset(FlatMap(f, triples))
  {
    var n := ChunkCount(|triples|, size);
    assert NoDuplicates(Upto(n));
    forall k: nat ensures k in Upto(n) <==> k < n {
      if k < n { assert Upto(n)[k] == k; }
    }
    SameElements(schedule, Upto(n));
    FlatMapPermuted(ChunkOutput(f, triples, size), schedule, Upto(n));
    AllChunks(f, triples, size);
  }

  /** Chunks of 256 triples are joined in parallel; each appends its rows to the shared vector when it gets
      the lock. The order in which that happens is up to the scheduler. */
  method PerformJoinParallel(p: Pattern, dict: Dictionary, triples: seq<Triple>, rows: seq<Row>, schedule: seq<nat>)
    returns (results: seq<Row>)
    requires IsSchedule(schedule, ChunkCount(|triples|, 256))
    ensures multiset(results) == multiset(NestedJoin(p, dict, triples, rows))
  {
    if rows == [] {
      NoRows(p, dict, triples);
      return [];
    }
    var g := Partition(p, rows);
    ghost var f := GroupedContribution(p, dict, g);
    results := [];
    for i := 0 to |schedule|
      invariant results == FlatMap(ChunkOutput(f, triples, 256), schedule[..i])
    {
      var local := JoinChunk(p, dict, Chunk(triples, 256, schedule[i]), g);
      results := results + local;
      FlatMapStep(ChunkOutput(f, triples, 256), schedule, i);
    }
    TakeAll(schedule);
    ScheduledOutput(f, triples, 256, schedule);
    GroupedIsNested(p, dict, triples, rows, g);
  }
}
