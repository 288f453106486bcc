/** Sequences read as bags: the loops of the engine push into vectors whose order
    nobody relies on, so their results are compared as multisets. */
module Bags {

  /** The rows pushed by a loop over `s` whose body pushes `f(x)`. */
  function FlatMap<T, U>(f: T -> seq<U>, s: seq<T>): seq<U> {
    if s == [] then [] else f(s[0]) + FlatMap(f, s[1..])
  }

  function Filter<T>(p: T -> bool, s: seq<T>): (r: seq<T>)
    ensures forall x | x in r :: x in s && p(x)
    ensures forall x | x in s && p(x) :: x in r
  {
    if s == [] then [] else (if p(s[0]) then [s[0]] else []) + Filter(p, s[1..])
  }

  ghost predicate NoDuplicates<T>(s: seq<T>) {
    forall i, j :: 0 <= i < j < |s| ==> s[i] != s[j]
  }

  /** The multiplicity of `b` among rows that carry distinct labels is the number of labels carrying it. */
  lemma {:induction false} CountLabels<T(!new), U>(labels: seq<T>, rows: seq<U>, b: U, hits: set<T>)
    requires NoDuplicates(labels) && |rows| == |labels|
    requires forall p :: p in hits <==> exists i :: 0 <= i < |labels| && labels[i] == p && rows[i] == b
    ensures multiset(rows)[b] == |hits|
  {
    if labels == [] {
      assert hits == {} by {
        assert forall p :: p !in hits;
      }
    } else {
      var n := |labels| - 1;
      var last := if rows[n] == b then {labels[n]} else {};
      forall p ensures p in hits - last <==> exists i :: 0 <= i < n && labels[..n][i] == p && rows[..n][i] == b {
        if p in hits - last {
          var i :| 0 <= i < |labels| && labels[i] == p && rows[i] == b;
          assert labels[..n][i] == p && rows[..n][i] == b;
        }
      }
      CountLabels(labels[..n], rows[..n], b, hits - last);
      assert rows == rows[..n] + [rows[n]];
      assert last <= hits by {
        assert rows[n] == b ==> labels[n] in hits;
      }
    }
  }

  lemma SameElements<T(!new)>(a: seq<T>, b: seq<T>)
    requires NoDuplicates(a) && NoDuplicates(b)
    requires forall x :: x in a <==> x in b
    ensures multiset(a) == multiset(b)
  {
    forall x ensures multiset(a)[x] == multiset(b)[x] {
      OnceIfMember(a, x);
      OnceIfMember(b, x);
    }
  }

  lemma {:induction false} OnceIfMember<T>(s: seq<T>, x: T)
    requires NoDuplicates(s)
    ensures multiset(s)[x] == if x in s then 1 else 0
  {
    if s != [] {
      assert s == [s[0]] + s[1..];
      OnceIfMember(s[1..], x);
    }
  }

  lemma FlatMapAppend<T, U>(f: T -> seq<U>, a: seq<T>, b: seq<T>)
    ensures FlatMap(f, a + b) == FlatMap(f, a) + FlatMap(f, b)
  {
    if a == [] {
      assert a + b == b;
    } else {
      assert (a + b)[1..] == a[1..] + b;
      FlatMapAppend(f, a[1..], b);
    }
  }

  lemma FlatMapSnoc<T, U>(f: T -> seq<U>, a: seq<T>, x: T)
    ensures FlatMap(f, a + [x]) == FlatMap(f, a) + f(x)
  {
    FlatMapAppend(f, a, [x]);
    assert FlatMap(f, [x]) == f(x) + FlatMap(f, []);
  }

  /** One step of a loop that has already consumed `s[..i]`. */
  lemma FlatMapStep<T, U>(f: T -> seq<U>, s: seq<T>, i: nat)
    requires i < |s|
    ensures FlatMap(f, s[..i + 1]) == FlatMap(f, s[..i]) + f(s[i])
  {
    assert s[..i + 1] == s[..i] + [s[i]];
    FlatMapSnoc(f, s[..i], s[i]);
  }

  lemma FlatMapCongruent<T, U>(f: T -> seq<U>, g: T -> seq<U>, s: seq<T>)
    requires forall x | x in s :: f(x) == g(x)
    ensures FlatMap(f, s) == FlatMap(g, s)
  {
    if s != [] {
      assert s[0] in s;
      FlatMapCongruent(f, g, s[1..]);
    }
  }

  lemma FlatMapBagCongruent<T, U>(f: T -> seq<U>, g: T -> seq<U>, s: seq<T>)
    requires forall x | x in s :: multiset(f(x)) == multiset(g(x))
    ensures multiset(FlatMap(f, s)) == multiset(FlatMap(g, s))
  {
    if s != [] {
      assert s[0] in s;
      FlatMapBagCongruent(f, g, s[1..]);
    }
  }

  lemma FlatMapOne<T, U>(f: T -> seq<U>, x: T)
    ensures FlatMap(f, [x]) == f(x)
  {
    assert FlatMap(f, [x]) == f(x) + FlatMap(f, []);
  }

  lemma FlatMapMember<T, U>(f: T -> seq<U>, s: seq<T>, y: U)
    ensures y in FlatMap(f, s) <==> exists x :: x in s && y in f(x)
  {
    if s != [] {
      FlatMapMember(f, s[1..], y);
      assert s == [s[0]] + s[1..];
    }
  }

  /** Moving one element to the front does not change the bag produced. */
  lemma FlatMapPull<T, U>(f: T -> seq<U>, s: seq<T>, k: nat)
    requires k < |s|
    ensures multiset(FlatMap(f, s)) == multiset(f(s[k])) + multiset(FlatMap(f, s[..k] + s[k + 1..]))
  {
    assert s == s[..k] + ([s[k]] + s[k + 1..]);
    FlatMapAppend(f, s[..k], [s[k]] + s[k + 1..]);
    FlatMapAppend(f, s[..k], s[k + 1..]);
    assert FlatMap(f, [s[k]] + s[k + 1..]) == f(s[k]) + FlatMap(f, s[k + 1..]);
  }

  lemma RemoveAtBag<T>(s: seq<T>, k: nat)
    requires k < |s|
    ensures multiset(s[..k] + s[k + 1..]) == multiset(s) - multiset{s[k]}
  {
    assert s == s[..k] + ([s[k]] + s[k + 1..]);
  }

  lemma FirstOccurrence<T>(s: seq<T>, t: seq<T>) returns (k: nat)
    requires s != [] && multiset(s) == multiset(t)
    ensures k < |t| && t[k] == s[0]
    ensures multiset(s[1..]) == multiset(t[..k] + t[k + 1..])
  {
    assert s == [s[0]] + s[1..];
    assert s[0] in multiset(t);
    k :| 0 <= k < |t| && t[k] == s[0];
    RemoveAtBag(t, k);
  }

  /** A loop over a permuted vector pushes a permutation of the same rows. */
  lemma {:induction false} FlatMapPermuted<T, U>(f: T -> seq<U>, s: seq<T>, t: seq<T>)
    requires multiset(s) == multiset(t)
    ensures multiset(FlatMap(f, s)) == multiset(FlatMap(f, t))
    decreases |s|
  {
    if s == [] {
      assert |multiset(t)| == 0;
      assert t == [];
    } else {
      var k := FirstOccurrence(s, t);
      FlatMapPermuted(f, s[1..], t[..k] + t[k + 1..]);
      FlatMapPull(f, t, k);
    }
  }

  /** The bag pushed by a body that pushes `f(x)` and then `g(x)`. */
  lemma FlatMapSum<T, U>(f: T -> seq<U>, g: T -> seq<U>, h: T -> seq<U>, s: seq<T>)
    requires forall x | x in s :: multiset(h(x)) == multiset(f(x)) + multiset(g(x))
    ensures multiset(FlatMap(h, s)) == multiset(FlatMap(f, s)) + multiset(FlatMap(g, s))
  {
    if s != [] {
      assert s[0] in s;
      FlatMapSum(f, g, h, s[1..]);
    }
  }

  lemma FlatMapNothing<T, U>(f: T -> seq<U>, s: seq<T>)
    requires forall x | x in s :: f(x) == []
    ensures FlatMap(f, s) == []
  {
    if s != [] {
      assert s[0] in s;
      FlatMapNothing(f, s[1..]);
    }
  }

  /** Two nested loops may be exchanged. */
  lemma {:induction false} FlatMapExchange<T, S, U>(f: T -> S -> seq<U>, g: S -> T -> seq<U>,
                                                    rows: T -> seq<U>, columns: S -> seq<U>,
                                                    xs: seq<T>, ys: seq<S>)
    requires forall x, y | x in xs && y in ys :: f(x)(y) == g(y)(x)
    requires forall x | x in xs :: rows(x) == FlatMap(f(x), ys)
    requires forall y | y in ys :: columns(y) == FlatMap(g(y), xs)
    ensures multiset(FlatMap(rows, xs)) == multiset(FlatMap(columns, ys))
  {
    if xs == [] {
      FlatMapNothing(columns, ys);
    } else {
      var rest := (y: S) => FlatMap(g(y), xs[1..]);
      FlatMapExchange(f, g, rows, rest, xs[1..], ys);
      assert xs[0] in xs;
      FlatMapSum(f(xs[0]), rest, columns, ys);
    }
  }

  /** A loop over the rows pushed by another loop. */
  lemma {:induction false} FlatMapNested<T, S, U>(f: S -> seq<U>, g: T -> seq<S>, h: T -> seq<U>, s: seq<T>)
    requires forall x | x in s :: h(x) == FlatMap(f, g(x))
    ensures FlatMap(f, FlatMap(g, s)) == FlatMap(h, s)
  {
    if s != [] {
      assert s[0] in s;
      FlatMapAppend(f, g(s[0]), FlatMap(g, s[1..]));
      FlatMapNested(f, g, h, s[1..]);
    }
  }

  lemma {:induction false} FilterSnoc<T>(f: T -> bool, s: seq<T>, x: T)
    ensures Filter(f, s + [x]) == Filter(f, s) + if f(x) then [x] else []
  {
    if s == [] {
      assert [] + [x] == [x];
    } else {
      assert (s + [x])[1..] == s[1..] + [x];
      FilterSnoc(f, s[1..], x);
    }
  }

  lemma FilterOne<T>(f: T -> bool, x: T)
    ensures Filter(f, [x]) == if f(x) then [x] else []
  {
  }

  lemma {:induction false} FilterCongruent<T>(f: T -> bool, g: T -> bool, s: seq<T>)
    requires forall x | x in s :: f(x) == g(x)
    ensures Filter(f, s) == Filter(g, s)
  {
    if s != [] {
      assert s[0] in s;
      FilterCongruent(f, g, s[1..]);
    }
  }

  lemma {:induction false} FilterTwice<T>(f: T -> bool, g: T -> bool, h: T -> bool, s: seq<T>)
    requires forall x :: h(x) == (f(x) && g(x))
    ensures Filter(h, s) == Filter(g, Filter(f, s))
  {
    if s != [] {
      FilterTwice(f, g, h, s[1..]);
      FilterFirst(f, s);
      FilterFirst(h, s);
      FilterCons(g, s[0], Filter(f, s[1..]));
    }
  }

  lemma FilterFirst<T>(f: T -> bool, s: seq<T>)
    requires s != []
    ensures Filter(f, s) == if f(s[0]) then [s[0]] + Filter(f, s[1..]) else Filter(f, s[1..])
  {
    assert [] + Filter(f, s[1..]) == Filter(f, s[1..]);
  }

  lemma FilterCons<T>(f: T -> bool, x: T, s: seq<T>)
    ensures Filter(f, [x] + s) == if f(x) then [x] + Filter(f, s) else Filter(f, s)
  {
    assert ([x] + s)[1..] == s;
    FilterFirst(f, [x] + s);
  }

  lemma {:induction false} FilterAll<T>(f: T -> bool, s: seq<T>)
    requires forall x :: f(x)
    ensures Filter(f, s) == s
  {
    if s != [] {
      FilterAll(f, s[1..]);
    }
  }

  lemma FilterAppend<T>(q: T -> bool, a: seq<T>, b: seq<T>)
    ensures Filter(q, a + b) == Filter(q, a) + Filter(q, b)
  {
    if a == [] {
      assert a + b == b;
    } else {
      assert (a + b)[1..] == a[1..] + b;
      FilterAppend(q, a[1..], b);
    }
  }

  lemma {:induction false} FilterCount<T>(f: T -> bool, s: seq<T>, x: T)
    ensures multiset(Filter(f, s))[x] == if f(x) then multiset(s)[x] else 0
  {
    if s != [] {
      FilterCount(f, s[1..], x);
      assert s == [s[0]] + s[1..];
    }
  }

  function Positions<T>(f: T -> bool, s: seq<T>): set<nat> {
    set i: nat | i < |s| && f(s[i])
  }

  lemma {:induction false} FilterPositions<T>(f: T -> bool, s: seq<T>)
    ensures |Filter(f, s)| == |Positions(f, s)|
  {
    if s != [] {
      var n := |s| - 1;
      FilterPositions(f, s[..n]);
      assert |Filter(f, s)| == |Filter(f, s[..n])| + if f(s[n]) then 1 else 0 by {
        FilterSnoc(f, s[..n], s[n]);
        assert s == s[..n] + [s[n]];
      }
      OnePositionMore(f, s);
    }
  }

  lemma OnePositionMore<T>(f: T -> bool, s: seq<T>)
    requires s != []
    ensures var n := |s| - 1; |Positions(f, s)| == |Positions(f, s[..n])| + if f(s[n]) then 1 else 0
  {
    var n := |s| - 1;
    var before := Positions(f, s[..n]);
    PositionsSnoc(f, s);
    assert n !in before;
    assert |before + {n}| == |before| + 1 && before + {} == before;
  }

  lemma PositionsSnoc<T>(f: T -> bool, s: seq<T>)
    requires s != []
    ensures var n := |s| - 1; Positions(f, s) == Positions(f, s[..n]) + if f(s[n]) then {n} else {}
  {
    assert forall i | 0 <= i < |s| - 1 :: s[..|s| - 1][i] == s[i];
  }

  /** One step of a filtering loop that has already looked at `s[..i]`. */
  lemma FilterStep<T>(f: T -> bool, s: seq<T>, i: nat)
    requires i < |s|
    ensures Filter(f, s[..i + 1]) == Filter(f, s[..i]) + if f(s[i]) then [s[i]] else []
  {
    assert s[..i + 1] == s[..i] + [s[i]];
    FilterSnoc(f, s[..i], s[i]);
  }

  lemma BagLength<T>(a: seq<T>, b: seq<T>)
    requires multiset(a) == multiset(b)
    ensures |a| == |b|
  {
    assert |multiset(a)| == |a| && |multiset(b)| == |b|;
  }

  function Kept<T>(f: T -> bool): T -> seq<T> {
    x => if f(x) then [x] else []
  }

  lemma {:induction false} FilterIsFlatMap<T>(f: T -> bool, s: seq<T>)
    ensures Filter(f, s) == FlatMap(Kept(f), s)
  {
    if s != [] {
      FilterIsFlatMap(f, s[1..]);
    }
  }

  lemma FilterBag<T>(f: T -> bool, a: seq<T>, b: seq<T>)
    requires multiset(a) == multiset(b)
    ensures multiset(Filter(f, a)) == multiset(Filter(f, b))
  {
    FilterIsFlatMap(f, a);
    FilterIsFlatMap(f, b);
    FlatMapPermuted(Kept(f), a, b);
  }
}
