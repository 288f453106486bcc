/** The loops of the index-based joins: groups hold positions of rows, triples are processed in chunks. */
module IndexedJoinLoops {
  import opened Bags
  import opened SolutionMappings
  import opened PatternJoin
  import opened FastJoins
  import opened IndexedJoins
  import opened Triples
  import opened Sequences
  import opened Naturals

  /** Groups of row positions. */
  datatype Index = Index(both: map<(string, string), seq<nat>>, bySubject: map<string, seq<nat>>,
                         byObject: map<string, seq<nat>>, neither: seq<nat>)

  function RowAt(rows: seq<Row>): nat -> seq<Row> {
    (i: nat) => if i < |rows| then [rows[i]] else []
  }

  function Resolve(rows: seq<Row>, ids: seq<nat>): seq<Row> {
    FlatMap(RowAt(rows), ids)
  }

  ghost predicate InRange(rows: seq<Row>, ids: seq<nat>) {
    forall i | i in ids :: i < |rows|
  }

  ghost predicate Lists(rows: seq<Row>, ids: seq<nat>, group: seq<Row>) {
    InRange(rows, ids) && Resolve(rows, ids) == group
  }

  /** Looking up the statement `st` in the index finds the positions of its four groups among the rows `seen`. */
  ghost predicate Serves(p: Pattern, st: Statement, rows: seq<Row>, seen: seq<Row>, index: Index) {
    && Lists(rows, Get(index.both, (st.subj, st.obj)), Filter(BindsBoth(p, st.subj, st.obj), seen))
    && ((st.subj, st.obj) in index.both <==> Filter(BindsBoth(p, st.subj, st.obj), seen) != [])
    && Lists(rows, Get(index.bySubject, st.subj), Filter(BindsSubject(p, st.subj), seen))
    && Lists(rows, Get(index.byObject, st.obj), Filter(BindsObject(p, st.obj), seen))
    && Lists(rows, index.neither, Filter(BindsNeither(p), seen))
  }

  ghost predicate Complete(p: Pattern, rows: seq<Row>, seen: seq<Row>, index: Index) {
    forall st: Statement :: Serves(p, st, rows, seen, index)
  }

  function AddPosition(p: Pattern, index: Index, row: Row, i: nat): Index {
    if p.subj in row && p.obj in row then index.(both := Push(index.both, (row[p.subj], row[p.obj]), i))
    else if p.subj in row then index.(bySubject := Push(index.bySubject, row[p.subj], i))
    else if p.obj in row then index.(byObject := Push(index.byObject, row[p.obj], i))
    else index.(neither := index.neither + [i])
  }

  lemma ListsSnoc(rows: seq<Row>, ids: seq<nat>, group: seq<Row>, i: nat)
    requires i < |rows| && Lists(rows, ids, group)
    ensures Lists(rows, ids + [i], group + [rows[i]])
  {
    FlatMapSnoc<nat, Row>(RowAt(rows), ids, i);
  }

  lemma PushLists<K>(rows: seq<Row>, m: map<K, seq<nat>>, key: K, i: nat, query: K, group: seq<Row>)
    requires i < |rows| && Lists(rows, Get(m, query), group)
    ensures Lists(rows, Get(Push(m, key, i), query), if query == key then group + [rows[i]] else group)
  {
    if query == key {
      ListsSnoc(rows, Get(m, query), group, i);
    }
  }

  lemma AddPositionServes(p: Pattern, st: Statement, rows: seq<Row>, seen: seq<Row>, index: Index, i: nat)
    requires i < |rows| && Serves(p, st, rows, seen, index)
    ensures Serves(p, st, rows, seen + [rows[i]], AddPosition(p, index, rows[i], i))
  {
    var row := rows[i];
    FilterSnoc(BindsBoth(p, st.subj, st.obj), seen, row);
    FilterSnoc(BindsSubject(p, st.subj), seen, row);
    FilterSnoc(BindsObject(p, st.obj), seen, row);
    FilterSnoc(BindsNeither(p), seen, row);
    if p.subj in row && p.obj in row {
      PushLists(rows, index.both, (row[p.subj], row[p.obj]), i, (st.subj, st.obj),
                Filter(BindsBoth(p, st.subj, st.obj), seen));
    } else if p.subj in row {
      PushLists(rows, index.bySubject, row[p.subj], i, st.subj, Filter(BindsSubject(p, st.subj), seen));
    } else if p.obj in row {
      PushLists(rows, index.byObject, row[p.obj], i, st.obj, Filter(BindsObject(p, st.obj), seen));
    } else {
      ListsSnoc(rows, index.neither, Filter(BindsNeither(p), seen), i);
    }
  }

  lemma AddPositionComplete(p: Pattern, rows: seq<Row>, seen: seq<Row>, index: Index, i: nat)
    requires i < |rows| && Complete(p, rows, seen, index)
    ensures Complete(p, rows, seen + [rows[i]], AddPosition(p, index, rows[i], i))
  {
    var seen', index' := seen + [rows[i]], AddPosition(p, index, rows[i], i);
    forall st: Statement ensures Serves(p, st, rows, seen', index') {
      assert Serves(p, st, rows, seen, index);
      AddPositionServes(p, st, rows, seen, index, i);
    }
  }

  method BuildIndex(p: Pattern, rows: seq<Row>) returns (index: Index)
    ensures Complete(p, rows, rows, index)
  {
    index := Index(map[], map[], map[], []);
    for i := 0 to |rows|
      invariant Complete(p, rows, rows[..i], index)
    {
      var row := rows[i];
      AddPositionComplete(p, rows, rows[..i], index, i);
      if p.subj in row && p.obj in row {
        index := index.(both := Push(index.both, (row[p.subj], row[p.obj]), i));
      } else if p.subj in row {
        index := index.(bySubject := Push(index.bySubject, row[p.subj], i));
      } else if p.obj in row {
        index := index.(byObject := Push(index.byObject, row[p.obj], i));
      } else {
        index := index.(neither := index.neither + [i]);
      }
      assert rows[..i + 1] == rows[..i] + [row];
    }
    TakeAll(rows);
  }

  lemma ResolveStep(rows: seq<Row>, f: Row -> seq<Row>, ids: seq<nat>, k: nat)
    requires k < |ids| && InRange(rows, ids)
    ensures ids[k] < |rows|
    ensures FlatMap(f, Resolve(rows, ids[..k + 1])) == FlatMap(f, Resolve(rows, ids[..k])) + f(rows[ids[k]])
  {
    FlatMapStep<nat, Row>(RowAt(rows), ids, k);
    assert ids[k] in ids;
    FlatMapSnoc(f, Resolve(rows, ids[..k]), rows[ids[k]]);
  }

  /** Pushes the rows of a group that binds the other position only. */
  method ProcessBound(v: string, value: string, rows: seq<Row>, ids: seq<nat>, local: seq<Row>)
    returns (results: seq<Row>)
    requires InRange(rows, ids)
    ensures results == local + FlatMap(BindTo(v, value), Resolve(rows, ids))
  {
    results := local;
    for k := 0 to |ids|
      invariant results == local + FlatMap(BindTo(v, value), Resolve(rows, ids[..k]))
    {
      ResolveStep(rows, BindTo(v, value), ids, k);
      var base := rows[ids[k]];
      if v in base {
        if base[v] == value {
          results := results + [base];
        }
      } else {
        results := results + [base[v := value]];
      }
    }
    TakeAll(ids);
  }

  /** Pushes the rows of the group that binds neither position, checking both against the base row. */
  method ProcessUnbound(p: Pattern, st: Statement, rows: seq<Row>, ids: seq<nat>, local: seq<Row>)
    returns (results: seq<Row>)
    requires InRange(rows, ids)
    ensures results == local + FlatMap(Overwrite(p, st), Resolve(rows, ids))
  {
    results := local;
    for k := 0 to |ids|
      invariant results == local + FlatMap(Overwrite(p, st), Resolve(rows, ids[..k]))
    {
      ResolveStep(rows, Overwrite(p, st), ids, k);
      var base := rows[ids[k]];
      var subjectConsistent := p.subj !in base || base[p.subj] == st.subj;
      var objectConsistent := p.obj !in base || base[p.obj] == st.obj;
      if subjectConsistent && objectConsistent {
        var extended := base;
        if p.subj !in base {
          extended := extended[p.subj := st.subj];
        }
        if p.obj !in base {
          extended := extended[p.obj := st.obj];
        }
        results := results + [extended];
      }
    }
    TakeAll(ids);
  }

  method ProcessPartly(p: Pattern, st: Statement, rows: seq<Row>, index: Index, local: seq<Row>)
    returns (results: seq<Row>)
    requires Serves(p, st, rows, rows, index)
    ensures results == local + Partly(p, st, rows)
  {
    ghost var bySubject := FlatMap(BindTo(p.obj, st.obj), Filter(BindsSubject(p, st.subj), rows));
    ghost var byObject := FlatMap(BindTo(p.subj, st.subj), Filter(BindsObject(p, st.obj), rows));
    ghost var unbound := FlatMap(Overwrite(p, st), Filter(BindsNeither(p), rows));
    results := ProcessBound(p.obj, st.obj, rows, Get(index.bySubject, st.subj), local);
    assert results == local + bySubject;
    results := ProcessBound(p.subj, st.subj, rows, Get(index.byObject, st.obj), results);
    assert results == local + bySubject + byObject;
    results := ProcessUnbound(p, st, rows, index.neither, results);
    AppendThree(local, bySubject, byObject, unbound);
  }

  method ProcessFully(rows: seq<Row>, ids: seq<nat>, local: seq<Row>) returns (results: seq<Row>)
    requires InRange(rows, ids)
    ensures results == local + Resolve(rows, ids)
  {
    results := local;
    for k := 0 to |ids|
      invariant results == local + Resolve(rows, ids[..k])
    {
      FlatMapStep<nat, Row>(RowAt(rows), ids, k);
      assert ids[k] in ids;
      results := results + [rows[ids[k]]];
    }
    TakeAll(ids);
  }

  /** One statement: the most restrictive group first; variant 4 returns when that group has an entry. */
  method ProcessJoin(v: Variant, p: Pattern, st: Statement, rows: seq<Row>, index: Index, local: seq<Row>)
    returns (results: seq<Row>)
    requires Serves(p, st, rows, rows, index)
    ensures results == local + Matches(v, p, st, rows)
  {
    ghost var full, partly := Fully(p, st, rows), Partly(p, st, rows);
    AppendTwo(local, full, partly);
    AppendNothing(local, []);
    results := local;
    if (st.subj, st.obj) in index.both {
      results := ProcessFully(rows, index.both[(st.subj, st.obj)], results);
      assert results == local + full;
      if v.FourthVariant? {
        return;
      }
    }
    results := ProcessPartly(p, st, rows, index, results);
  }

  /** One triple: the predicate is decoded first, then the object, the subject last. */
  method ProcessTriple(v: Variant, p: Pattern, dict: Dictionary, t: Triple, rows: seq<Row>, index: Index,
                       local: seq<Row>)
    returns (results: seq<Row>)
    requires Complete(p, rows, rows, index)
    ensures results == local + VariantContribution(v, p, dict, rows)(t)
  {
    results := local;
    if t.pred !in dict || dict[t.pred] != p.pred {
      return;
    }
    if p.literal.Some? && (t.obj !in dict || dict[t.obj] != p.literal.value) {
      return;
    }
    if t.subj in dict && t.obj in dict {
      var st := Statement(dict[t.subj], dict[t.pred], dict[t.obj]);
      assert Serves(p, st, rows, rows, index);
      results := ProcessJoin(v, p, st, rows, index, results);
    }
  }

  method ProcessChunk(v: Variant, p: Pattern, dict: Dictionary, chunk: seq<Triple>, rows: seq<Row>, index: Index,
                      local: seq<Row>)
    returns (results: seq<Row>)
    requires Complete(p, rows, rows, index)
    ensures results == local + VariantJoin(v, p, dict, chunk, rows)
  {
    results := local;
    for i := 0 to |chunk|
      invariant results == local + VariantJoin(v, p, dict, chunk[..i], rows)
    {
      results := ProcessTriple(v, p, dict, chunk[i], rows, index, results);
      FlatMapStep(VariantContribution(v, p, dict, rows), chunk, i);
      AppendTwo(local, VariantJoin(v, p, dict, chunk[..i], rows), VariantContribution(v, p, dict, rows)(chunk[i]));
    }
    TakeAll(chunk);
  }

  // ---------------------------------------------------------------- chunks

  /** The rows of the first `n` chunks, in order. */
  ghost function OutputUpto(v: Variant, p: Pattern, dict: Dictionary, triples: seq<Triple>, rows: seq<Row>, size: nat,
                            n: nat): seq<Row>
    requires size > 0
  {
    FlatMap(ChunkOutput(VariantContribution(v, p, dict, rows), triples, size), Upto(n))
  }

  lemma NextChunk(v: Variant, p: Pattern, dict: Dictionary, triples: seq<Triple>, rows: seq<Row>, size: nat, n: nat)
    requires size > 0
    ensures OutputUpto(v, p, dict, triples, rows, size, n + 1)
         == OutputUpto(v, p, dict, triples, rows, size, n) + VariantJoin(v, p, dict, Chunk(triples, size, n), rows)
  {
    FlatMapSnoc<nat, Row>(ChunkOutput(VariantContribution(v, p, dict, rows), triples, size), Upto(n), n);
  }

  lemma EveryChunk(v: Variant, p: Pattern, dict: Dictionary, triples: seq<Triple>, rows: seq<Row>, size: nat)
    requires size > 0
    ensures OutputUpto(v, p, dict, triples, rows, size, ChunkCount(|triples|, size))
         == VariantJoin(v, p, dict, triples, rows)
  {
    AllChunks(VariantContribution(v, p, dict, rows), triples, size);
  }

  /** Variant 3 collects the chunk outputs in chunk order. */
  method PerformThird(p: Pattern, dict: Dictionary, triples: seq<Triple>, rows: seq<Row>, threads: nat)
    returns (results: seq<Row>)
    requires threads > 0
    ensures results == VariantJoin(ThirdVariant, p, dict, triples, rows)
  {
    if rows == [] {
      NoVariantRows(ThirdVariant, p, dict, triples);
      return [];
    }
    var index := BuildIndex(p, rows);
    var size := Max(|triples| / threads, 1024);
    results := [];
    var chunks := ChunkCount(|triples|, size);
    for k := 0 to chunks
      invariant results == OutputUpto(ThirdVariant, p, dict, triples, rows, size, k)
    {
      var local := ProcessChunk(ThirdVariant, p, dict, Chunk(triples, size, k), rows, index, []);
      NextChunk(ThirdVariant, p, dict, triples, rows, size, k);
      results := results + local;
    }
    EveryChunk(ThirdVariant, p, dict, triples, rows, size);
  }

  lemma NoVariantRows(v: Variant, p: Pattern, dict: Dictionary, triples: seq<Triple>)
    ensures VariantJoin(v, p, dict, triples, []) == []
  {
    FlatMapNothing(VariantContribution(v, p, dict, []), triples);
  }

  // ---------------------------------------------------------------- fold and reduce

  /** How the scheduler splits the chunks among accumulators, and pairs the accumulators up. */
  datatype Plan = Fold(chunks: nat) | Reduce(left: Plan, right: Plan)

  function Size(plan: Plan): nat {
    match plan
    case Fold(chunks) => chunks
    case Reduce(left, right) => Size(left) + Size(right)
  }

  /** Runs the plan from chunk `first` on: chunks are folded into one accumulator, accumulators are appended. */
  method RunPlan(plan: Plan, first: nat, size: nat, p: Pattern, dict: Dictionary, triples: seq<Triple>, rows: seq<Row>,
                 index: Index)
    returns (results: seq<Row>)
    requires size > 0 && Complete(p, rows, rows, index)
    ensures OutputUpto(FourthVariant, p, dict, triples, rows, size, first) + results
         == OutputUpto(FourthVariant, p, dict, triples, rows, size, first + Size(plan))
    decreases plan
  {
    match plan
    case Fold(chunks) =>
      results := FoldChunks(chunks, first, size, p, dict, triples, rows, index);
    case Reduce(left, right) =>
      var middle := first + Size(left);
      var acc := RunPlan(left, first, size, p, dict, triples, rows, index);
      var chunk := RunPlan(right, middle, size, p, dict, triples, rows, index);
      results := Append(acc, chunk);
  }

  method Append(acc: seq<Row>, chunk: seq<Row>) returns (results: seq<Row>)
    ensures results == acc + chunk
  {
    if acc == [] {
      results := chunk;
    } else if chunk == [] {
      results := acc;
    } else {
      results := acc + chunk;
    }
  }

  method FoldChunks(chunks: nat, first: nat, size: nat, p: Pattern, dict: Dictionary, triples: seq<Triple>,
                    rows: seq<Row>, index: Index)
    returns (results: seq<Row>)
    requires size > 0 && Complete(p, rows, rows, index)
    ensures OutputUpto(FourthVariant, p, dict, triples, rows, size, first) + results
         == OutputUpto(FourthVariant, p, dict, triples, rows, size, first + chunks)
  {
    results := [];
    ghost var before := OutputUpto(FourthVariant, p, dict, triples, rows, size, first);
    AppendNothing(before, results);
    var n := first;
    while n < first + chunks
      invariant first <= n <= first + chunks
      invariant before + results == OutputUpto(FourthVariant, p, dict, triples, rows, size, n)
    {
      results := FoldChunk(n, size, p, dict, triples, rows, index, results, before);
      n := n + 1;
    }
  }

  /** One chunk more. */
  method FoldChunk(n: nat, size: nat, p: Pattern, dict: Dictionary, triples: seq<Triple>, rows: seq<Row>, index: Index,
                   folded: seq<Row>, ghost before: seq<Row>)
    returns (results: seq<Row>)
    requires size > 0 && Complete(p, rows, rows, index)
    requires before + folded == OutputUpto(FourthVariant, p, dict, triples, rows, size, n)
    ensures before + results == OutputUpto(FourthVariant, p, dict, triples, rows, size, n + 1)
  {
    var chunk := Chunk(triples, size, n);
    NextChunk(FourthVariant, p, dict, triples, rows, size, n);
    results := ProcessChunk(FourthVariant, p, dict, chunk, rows, index, folded);
    Chain(before, folded, OutputUpto(FourthVariant, p, dict, triples, rows, size, n),
          VariantJoin(FourthVariant, p, dict, chunk, rows),
          OutputUpto(FourthVariant, p, dict, triples, rows, size, n + 1));
  }

  /** Variant 4: whatever the plan, the rows come out in triple order. */
  method PerformFourth(p: Pattern, dict: Dictionary, triples: seq<Triple>, rows: seq<Row>, threads: nat, plan: Plan)
    returns (results: seq<Row>)
    requires threads > 0
    requires Size(plan) == ChunkCount(|triples|, Max(|triples| / threads * 3 / 2, 1024))
    ensures results == VariantJoin(FourthVariant, p, dict, triples, rows)
  {
    if rows == [] {
      NoVariantRows(FourthVariant, p, dict, triples);
      return [];
    }
    var index := BuildIndex(p, rows);
    var size := Max(|triples| / threads * 3 / 2, 1024);
    results := RunPlan(plan, 0, size, p, dict, triples, rows, index);
    EveryChunk(FourthVariant, p, dict, triples, rows, size);
  }
}
