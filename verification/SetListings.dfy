/** Finite sets and listings of their elements. */
module SetListings {
  import opened Bags

  /** Some listing, without repetition. */
  ghost function Listed<T(!new)>(s: set<T>): (xs: seq<T>)
    ensures NoDuplicates(xs) && |xs| == |s| && forall x :: x in xs <==> x in s
    decreases |s|
  {
    if s == {} then [] else
    var x :| x in s;
    var rest := Listed(s - {x});
    assert x !in rest;
    rest + [x]
  }

  ghost function Position<T>(xs: seq<T>, x: T): (i: nat)
    requires x in xs
    ensures i < |xs| && xs[i] == x
  {
    var i: nat :| i < |xs| && xs[i] == x;
    i
  }

  lemma SameSize<T>(a: set<T>, b: set<T>)
    requires a <= b
    ensures |a| == |b| <==> a == b
  {
    if a != b {
      assert b == a + (b - a);
      assert |b - a| > 0 by {
        var x :| x in b && x !in a;
        assert x in b - a;
      }
    }
  }

  lemma {:induction false} DistinctMembers<T>(s: seq<T>)
    requires NoDuplicates(s)
    ensures |set x | x in s| == |s|
  {
    if s != [] {
      var n := |s| - 1;
      DistinctMembers(s[..n]);
      assert s == s[..n] + [s[n]];
      assert (set x | x in s) == (set x | x in s[..n]) + {s[n]};
    }
  }

  lemma SameMembers<T(!new)>(a: seq<T>, b: seq<T>)
    requires NoDuplicates(a) && NoDuplicates(b) && |a| == |b| && forall x | x in a :: x in b
    ensures multiset(a) == multiset(b)
  {
    var left, right := set x | x in a, set x | x in b;
    DistinctMembers(a);
    DistinctMembers(b);
    SameSize(left, right);
    forall x ensures x in a <==> x in b {
      assert x in left <==> x in right;
    }
    SameElements(a, b);
  }

  lemma Occurs<T>(zs: seq<T>, xs: seq<T>, x: T) returns (i: nat)
    requires multiset(zs) == multiset(xs) && x in xs
    ensures i < |zs| && zs[i] == x
  {
    assert x in multiset(zs);
    i :| 0 <= i < |zs| && zs[i] == x;
  }
}
