/** The search for repairs: maximal consistent subsets of the facts.
    Violation is an arbitrary predicate on sets of facts, and the order in which a set is listed is an arbitrary
    function of the set. */
module Repairs {
  import opened Triples
  import opened SetListings
  import opened Sequences

  // ---------------------------------------------------------------- what a repair is

  predicate Consistent(violates: set<Triple> -> bool, s: set<Triple>) {
    !violates(s)
  }

  /** No fact set between `s` and `facts`, other than `s`, is consistent. */
  ghost predicate Maximal(violates: set<Triple> -> bool, facts: set<Triple>, s: set<Triple>) {
    && s <= facts
    && Consistent(violates, s)
    && forall t :: s <= t <= facts && Consistent(violates, t) ==> t == s
  }

  /** A listing of each set: every element once, in any order. */
  ghost predicate Lists(xs: seq<Triple>, s: set<Triple>) {
    |xs| == |s| && forall x :: x in s <==> x in xs
  }

  ghost predicate Listing(order: set<Triple> -> seq<Triple>) {
    forall s :: Lists(order(s), s)
  }

  // ---------------------------------------------------------------- the measure

  /** How many sets a search below a set of `n` facts visits when nothing is ever skipped. */
  function Visits(n: nat): (v: nat)
    ensures v >= 1
  {
    if n == 0 then 1 else 1 + n * Visits(n - 1)
  }

  ghost function Measure(queue: seq<set<Triple>>): nat {
    if queue == [] then 0 else Measure(queue[..|queue| - 1]) + Visits(|queue[|queue| - 1]|)
  }

  lemma {:induction false} MeasureAppend(a: seq<set<Triple>>, b: seq<set<Triple>>)
    ensures Measure(a + b) == Measure(a) + Measure(b)
  {
    if b == [] {
      assert a + b == a;
    } else {
      var c := a + b;
      assert c[..|c| - 1] == a + b[..|b| - 1];
      MeasureAppend(a, b[..|b| - 1]);
    }
  }

  // ---------------------------------------------------------------- one step

  /** The candidates with one fact less, without those already seen. */
  function Children(xs: seq<Triple>, current: set<Triple>, seen: set<set<Triple>>): seq<set<Triple>> {
    if xs == [] then [] else
    var child := current - {xs[|xs| - 1]};
    Children(xs[..|xs| - 1], current, seen) + if child in seen then [] else [child]
  }

  lemma {:induction false} ChildMembers(xs: seq<Triple>, current: set<Triple>, seen: set<set<Triple>>, c: set<Triple>)
    ensures c in Children(xs, current, seen) <==> c !in seen && exists x :: x in xs && c == current - {x}
  {
    if xs != [] {
      var rest, last := xs[..|xs| - 1], xs[|xs| - 1];
      assert xs == rest + [last];
      ChildMembers(rest, current, seen, c);
    }
  }

  lemma MeasureOne(queue: seq<set<Triple>>, s: set<Triple>)
    ensures Measure(queue + [s]) == Measure(queue) + Visits(|s|)
  {
    assert (queue + [s])[..|queue|] == queue;
  }

  lemma OneMore(n: nat, v: nat)
    ensures n * v + v == (n + 1) * v
  {
  }

  lemma {:induction false} ChildMeasure(xs: seq<Triple>, current: set<Triple>, seen: set<set<Triple>>, v: nat)
    requires current != {} && v == Visits(|current| - 1)
    requires forall x | x in xs :: x in current
    ensures Measure(Children(xs, current, seen)) <= |xs| * v
  {
    if xs != [] {
      var rest, last := xs[..|xs| - 1], xs[|xs| - 1];
      assert xs == rest + [last];
      ChildMeasure(rest, current, seen, v);
      assert last in current && |current - {last}| == |current| - 1;
      MeasureOne(Children(rest, current, seen), current - {last});
      OneMore(|rest|, v);
      assert Children(rest, current, seen) + [] == Children(rest, current, seen);
    }
  }

  /** Replacing a set by its children shrinks the measure, whatever has been seen: the search would end without
      remembering anything. */
  lemma PopShrinks(rest: seq<set<Triple>>, current: set<Triple>, xs: seq<Triple>, seen: set<set<Triple>>)
    requires Lists(xs, current)
    ensures Measure(rest) < Measure(rest + [current])
    ensures Measure(rest + Children(xs, current, seen)) < Measure(rest + [current])
  {
    assert (rest + [current])[..|rest|] == rest;
    MeasureAppend(rest, Children(xs, current, seen));
    if xs != [] {
      assert xs[0] in current;
      ChildMeasure(xs, current, seen, Visits(|current| - 1));
    }
  }

  predicate Accepted(repairs: seq<set<Triple>>, current: set<Triple>) {
    forall r | r in repairs :: !(current <= r) || r == current
  }

  // ---------------------------------------------------------------- the search

  datatype Progress = Progress(queue: seq<set<Triple>>, seen: set<set<Triple>>, repairs: seq<set<Triple>>)

  /** One turn of the loop: the last set of the queue is taken out. */
  function Turn(violates: set<Triple> -> bool, order: set<Triple> -> seq<Triple>, p: Progress): Progress
    requires p.queue != []
  {
    var current, rest := p.queue[|p.queue| - 1], p.queue[..|p.queue| - 1];
    var seen := p.seen + {current};
    if current in p.seen then p.(queue := rest)
    else if Consistent(violates, current) then
      Progress(rest, seen, if Accepted(p.repairs, current) then p.repairs + [current] else p.repairs)
    else Progress(rest + Children(order(current), current, seen), seen, p.repairs)
  }

  lemma TurnShrinks(violates: set<Triple> -> bool, order: set<Triple> -> seq<Triple>, p: Progress)
    requires Listing(order) && p.queue != []
    ensures Measure(Turn(violates, order, p).queue) < Measure(p.queue)
  {
    var current, rest := p.queue[|p.queue| - 1], p.queue[..|p.queue| - 1];
    assert p.queue == rest + [current];
    assert Lists(order(current), current);
    PopShrinks(rest, current, order(current), p.seen + {current});
  }

  ghost function Search(violates: set<Triple> -> bool, order: set<Triple> -> seq<Triple>, p: Progress): seq<set<Triple>>
    requires Listing(order)
    decreases Measure(p.queue)
  {
    if p.queue == [] then p.repairs else
    TurnShrinks(violates, order, p);
    Search(violates, order, Turn(violates, order, p))
  }

  function Start(facts: set<Triple>): Progress {
    Progress([facts], {}, [])
  }

  ghost function Found(violates: set<Triple> -> bool, order: set<Triple> -> seq<Triple>,
                       facts: set<Triple>): seq<set<Triple>>
    requires Listing(order)
  {
    Search(violates, order, Start(facts))
  }

  /** The listings of exactly these sets. */
  ghost predicate Remembers(order: set<Triple> -> seq<Triple>, seen: set<seq<Triple>>, sets: set<set<Triple>>) {
    forall s :: order(s) in seen <==> s in sets
  }

  lemma RemembersOneMore(order: set<Triple> -> seq<Triple>, seen: set<seq<Triple>>, sets: set<set<Triple>>,
                         current: set<Triple>)
    requires Listing(order) && Remembers(order, seen, sets)
    ensures Remembers(order, seen + {order(current)}, sets + {current})
  {
    forall s | order(s) == order(current) ensures s == current {
      assert Lists(order(s), s) && Lists(order(current), current);
      assert forall x :: x in s <==> x in current;
    }
  }

  /** Pushes the set without each of its facts in turn, unless it has been seen. */
  method PushChildren(order: set<Triple> -> seq<Triple>, xs: seq<Triple>, current: set<Triple>, seen: set<seq<Triple>>,
                      rest: seq<set<Triple>>, ghost seenSets: set<set<Triple>>)
    returns (workQueue: seq<set<Triple>>)
    requires Remembers(order, seen, seenSets)
    ensures workQueue == rest + Children(xs, current, seenSets)
  {
    workQueue := rest;
    for k := 0 to |xs|
      invariant workQueue == rest + Children(xs[..k], current, seenSets)
    {
      assert xs[..k + 1][..k] == xs[..k];
      var child := current - {xs[k]};
      if order(child) !in seen {
        workQueue := workQueue + [child];
      }
    }
    TakeAll(xs);
  }

  /** What has been seen is remembered by its listing. */
  method ComputeRepairs(violates: set<Triple> -> bool, order: set<Triple> -> seq<Triple>, facts: set<Triple>)
    returns (repairs: seq<set<Triple>>)
    requires Listing(order)
    ensures repairs == Found(violates, order, facts)
  {
    repairs := [];
    var workQueue, seen: set<seq<Triple>> := [facts], {};
    ghost var seenSets := {};
    while workQueue != []
      invariant Remembers(order, seen, seenSets)
      invariant Search(violates, order, Progress(workQueue, seenSets, repairs)) == Found(violates, order, facts)
      decreases Measure(workQueue)
    {
      ghost var before := Progress(workQueue, seenSets, repairs);
      TurnShrinks(violates, order, before);
      var current := workQueue[|workQueue| - 1];
      workQueue := workQueue[..|workQueue| - 1];
      var listing := order(current);
      if listing in seen {
        continue;
      }
      RemembersOneMore(order, seen, seenSets, current);
      seen, seenSets := seen + {listing}, seenSets + {current};
      if !violates(current) {
        if Accepted(repairs, current) {
          repairs := repairs + [current];
        }
      } else {
        workQueue := PushChildren(order, listing, current, seen, workQueue, seenSets);
      }
      assert Progress(workQueue, seenSets, repairs) == Turn(violates, order, before);
    }
  }

  // ---------------------------------------------------------------- what every turn keeps

  /** Whatever has been seen is accounted for: a consistent set lies in a listed one, and everything below a
      violating set has been seen or is waiting. */
  ghost predicate Accounted(violates: set<Triple> -> bool, p: Progress, s: set<Triple>) {
    if Consistent(violates, s) then exists r :: r in p.repairs && s <= r
    else forall x :: x in s ==> s - {x} in p.seen || s - {x} in p.queue
  }

  ghost predicate Sound(violates: set<Triple> -> bool, facts: set<Triple>, p: Progress) {
    && (forall q :: q in p.queue ==> q <= facts)
    && (forall r :: r in p.repairs ==> r <= facts && Consistent(violates, r) && r in p.seen)
    && (forall s :: s in p.seen ==> Accounted(violates, p, s))
    && (facts in p.seen || facts in p.queue)
  }

  /** No listed set is part of an earlier one. */
  ghost predicate NeverShrinks(repairs: seq<set<Triple>>) {
    forall i, j :: 0 <= i < j < |repairs| ==> !(repairs[j] <= repairs[i])
  }

  lemma StaysAccounted(violates: set<Triple> -> bool, p: Progress, q: Progress, s: set<Triple>)
    requires Accounted(violates, p, s)
    requires forall r :: r in p.repairs ==> r in q.repairs
    requires forall c :: c in p.seen || c in p.queue ==> c in q.seen || c in q.queue
    ensures Accounted(violates, q, s)
  {
    if Consistent(violates, s) {
      var r :| r in p.repairs && s <= r;
      assert r in q.repairs;
    }
  }

  lemma TurnLosesNothing(violates: set<Triple> -> bool, order: set<Triple> -> seq<Triple>, p: Progress)
    requires p.queue != []
    ensures var q := Turn(violates, order, p);
      && (forall r :: r in p.repairs ==> r in q.repairs)
      && (forall c :: c in p.seen || c in p.queue ==> c in q.seen || c in q.queue)
  {
    assert p.queue == p.queue[..|p.queue| - 1] + [p.queue[|p.queue| - 1]];
  }

  /** The set just taken out is accounted for. */
  lemma TakenIsAccounted(violates: set<Triple> -> bool, order: set<Triple> -> seq<Triple>, p: Progress)
    requires Listing(order) && p.queue != []
    requires p.queue[|p.queue| - 1] !in p.seen
    ensures Accounted(violates, Turn(violates, order, p), p.queue[|p.queue| - 1])
  {
    var current := p.queue[|p.queue| - 1];
    var q := Turn(violates, order, p);
    if Consistent(violates, current) {
      if Accepted(p.repairs, current) {
        assert current in q.repairs && current <= current;
      } else {
        var r :| r in p.repairs && current <= r;
        assert r in q.repairs;
      }
    } else {
      assert Lists(order(current), current);
      forall x | x in current ensures current - {x} in q.seen || current - {x} in q.queue {
        ChildMembers(order(current), current, q.seen, current - {x});
      }
    }
  }

  lemma TurnStaysInside(violates: set<Triple> -> bool, order: set<Triple> -> seq<Triple>, facts: set<Triple>,
                        p: Progress)
    requires p.queue != [] && forall q :: q in p.queue ==> q <= facts
    ensures forall q :: q in Turn(violates, order, p).queue ==> q <= facts
  {
    var current := p.queue[|p.queue| - 1];
    assert current in p.queue;
    forall q | q in Turn(violates, order, p).queue ensures q <= facts {
      ChildMembers(order(current), current, p.seen + {current}, q);
      assert q in p.queue || q in Children(order(current), current, p.seen + {current});
    }
  }

  lemma TurnIsSound(violates: set<Triple> -> bool, order: set<Triple> -> seq<Triple>, facts: set<Triple>, p: Progress)
    requires Listing(order) && p.queue != [] && Sound(violates, facts, p)
    ensures Sound(violates, facts, Turn(violates, order, p))
  {
    var current := p.queue[|p.queue| - 1];
    var q := Turn(violates, order, p);
    assert current in p.queue;
    TurnStaysInside(violates, order, facts, p);
    TurnLosesNothing(violates, order, p);
    forall s | s in q.seen ensures Accounted(violates, q, s) {
      if s in p.seen {
        StaysAccounted(violates, p, q, s);
      } else {
        TakenIsAccounted(violates, order, p);
      }
    }
  }

  lemma TurnNeverShrinks(violates: set<Triple> -> bool, order: set<Triple> -> seq<Triple>, facts: set<Triple>,
                         p: Progress)
    requires p.queue != [] && Sound(violates, facts, p) && NeverShrinks(p.repairs)
    ensures NeverShrinks(Turn(violates, order, p).repairs)
  {
    var q := Turn(violates, order, p);
    if q.repairs != p.repairs {
      var current := p.queue[|p.queue| - 1];
      forall i | 0 <= i < |p.repairs| ensures !(current <= p.repairs[i]) {
        assert p.repairs[i] in p.repairs && p.repairs[i] in p.seen;
      }
    }
  }

  /** The state in which the search stops, seen from any state on the way. */
  lemma {:induction false} SearchEnds(violates: set<Triple> -> bool, order: set<Triple> -> seq<Triple>,
                                      facts: set<Triple>, p: Progress)
    requires Listing(order) && Sound(violates, facts, p) && NeverShrinks(p.repairs)
    ensures exists e: Progress ::
      && e.queue == [] && e.repairs == Search(violates, order, p)
      && Sound(violates, facts, e) && NeverShrinks(e.repairs)
    decreases Measure(p.queue)
  {
    if p.queue != [] {
      TurnShrinks(violates, order, p);
      TurnIsSound(violates, order, facts, p);
      TurnNeverShrinks(violates, order, facts, p);
      SearchEnds(violates, order, facts, Turn(violates, order, p));
    }
  }

  // ---------------------------------------------------------------- what the search finds

  /** Below a set that has been seen, every consistent set lies in a listed one. */
  lemma {:induction false} Covered(violates: set<Triple> -> bool, facts: set<Triple>, p: Progress, s: set<Triple>,
                                   c: set<Triple>)
    requires Sound(violates, facts, p) && p.queue == []
    requires s in p.seen && c <= s && Consistent(violates, c)
    ensures exists r :: r in p.repairs && c <= r
    decreases |s|
  {
    assert Accounted(violates, p, s);
    if !Consistent(violates, s) {
      assert s != c;
      assert s == c + (s - c) && c + {} == c;
      var x :| x in s - c;
      assert s - {x} in p.seen;
      Covered(violates, facts, p, s - {x}, c);
    }
  }

  /** What the search promises of its list. */
  ghost predicate Covers(violates: set<Triple> -> bool, facts: set<Triple>, found: seq<set<Triple>>) {
    && (forall r :: r in found ==> r <= facts && Consistent(violates, r))
    && forall c :: c <= facts && Consistent(violates, c) ==> Within(c, found)
  }

  ghost predicate Within(c: set<Triple>, found: seq<set<Triple>>) {
    exists r :: r in found && c <= r
  }

  /** Every listed set is consistent, no listed set is part of an earlier one, and every consistent set of facts
      lies in a listed one. */
  lemma FoundSoundly(violates: set<Triple> -> bool, order: set<Triple> -> seq<Triple>, facts: set<Triple>)
    requires Listing(order)
    ensures var found := Found(violates, order, facts);
      Covers(violates, facts, found) && NeverShrinks(found)
  {
    var found := Found(violates, order, facts);
    SearchEnds(violates, order, facts, Start(facts));
    var e: Progress :| e.queue == [] && e.repairs == found && Sound(violates, facts, e) && NeverShrinks(found);
    forall c | c <= facts && Consistent(violates, c) ensures Within(c, found) {
      Covered(violates, facts, e, facts, c);
    }
  }

  ghost predicate Largest(found: seq<set<Triple>>, r: set<Triple>) {
    r in found && forall s :: s in found && r <= s ==> s == r
  }

  lemma LargestIsMaximal(violates: set<Triple> -> bool, facts: set<Triple>, found: seq<set<Triple>>, r: set<Triple>)
    requires Covers(violates, facts, found) && Largest(found, r)
    ensures Maximal(violates, facts, r)
  {
    forall t | r <= t <= facts && Consistent(violates, t) ensures t == r {
      assert Within(t, found);
      var s :| s in found && t <= s;
      assert r <= s;
    }
  }

  lemma MaximalIsLargest(violates: set<Triple> -> bool, facts: set<Triple>, found: seq<set<Triple>>, r: set<Triple>)
    requires Covers(violates, facts, found) && Maximal(violates, facts, r)
    ensures Largest(found, r)
  {
    assert Within(r, found);
    var s :| s in found && r <= s;
    assert s == r;
  }

  lemma StrictlyLess(a: set<Triple>, b: set<Triple>)
    requires a < b
    ensures |a| < |b|
  {
    assert b == a + (b - a);
  }

  /** Every consistent set of facts is part of a repair. */
  lemma {:induction false} ExtendsToRepair(violates: set<Triple> -> bool, facts: set<Triple>, c: set<Triple>)
    requires c <= facts && Consistent(violates, c)
    ensures exists r :: c <= r && Maximal(violates, facts, r)
    decreases |facts - c|
  {
    if t :| c <= t <= facts && Consistent(violates, t) && t != c {
      assert facts - t < facts - c by {
        assert exists x :: x in t && x !in c;
      }
      StrictlyLess(facts - t, facts - c);
      ExtendsToRepair(violates, facts, t);
    } else {
      assert Maximal(violates, facts, c);
    }
  }

  /** The largest listed sets are exactly the repairs. */
  lemma LargestAreRepairs(violates: set<Triple> -> bool, order: set<Triple> -> seq<Triple>, facts: set<Triple>,
                          r: set<Triple>)
    requires Listing(order)
    ensures Largest(Found(violates, order, facts), r) <==> Maximal(violates, facts, r)
  {
    FoundSoundly(violates, order, facts);
    var found := Found(violates, order, facts);
    if Largest(found, r) {
      LargestIsMaximal(violates, facts, found, r);
    }
    if Maximal(violates, facts, r) {
      MaximalIsLargest(violates, facts, found, r);
    }
  }

  /** A fact common to all listed sets belongs to every repair. */
  lemma CommonFactsAreSafe(violates: set<Triple> -> bool, order: set<Triple> -> seq<Triple>, facts: set<Triple>,
                           x: Triple, r: set<Triple>)
    requires Listing(order)
    requires forall s :: s in Found(violates, order, facts) ==> x in s
    requires Maximal(violates, facts, r)
    ensures x in r
  {
    LargestAreRepairs(violates, order, facts, r);
  }

  // ---------------------------------------------------------------- when the list is exactly the repairs

  /** The list holds the repairs and nothing else. */
  ghost predicate Exact(violates: set<Triple> -> bool, facts: set<Triple>, found: seq<set<Triple>>) {
    forall r :: r in found <==> Maximal(violates, facts, r)
  }

  /** Sets met when facts are removed one at a time, always from a violating set. */
  ghost predicate Descent(violates: set<Triple> -> bool, path: seq<set<Triple>>) {
    forall i :: 0 <= i < |path| - 1 ==> StepsDown(violates, path[i], path[i + 1])
  }

  ghost predicate StepsDown(violates: set<Triple> -> bool, s: set<Triple>, t: set<Triple>) {
    !Consistent(violates, s) && exists x :: x in s && t == s - {x}
  }

  ghost predicate Reached(violates: set<Triple> -> bool, facts: set<Triple>, s: set<Triple>) {
    exists path :: Leads(violates, facts, path, s)
  }

  ghost predicate Leads(violates: set<Triple> -> bool, facts: set<Triple>, path: seq<set<Triple>>, s: set<Triple>) {
    path != [] && path[0] == facts && path[|path| - 1] == s && Descent(violates, path)
  }

  /** Removing facts one at a time never stops at a consistent set that is not maximal. */
  ghost predicate StopsAreMaximal(violates: set<Triple> -> bool, facts: set<Triple>) {
    forall s :: Reached(violates, facts, s) && Consistent(violates, s) ==> Maximal(violates, facts, s)
  }

  ghost predicate AllReached(violates: set<Triple> -> bool, facts: set<Triple>, p: Progress) {
    && (forall q :: q in p.queue ==> Reached(violates, facts, q))
    && (forall r :: r in p.repairs ==> Reached(violates, facts, r))
  }

  lemma ReachedBelow(violates: set<Triple> -> bool, facts: set<Triple>, s: set<Triple>, x: Triple)
    requires Reached(violates, facts, s) && !Consistent(violates, s) && x in s
    ensures Reached(violates, facts, s - {x})
  {
    var path :| Leads(violates, facts, path, s);
    assert StepsDown(violates, s, s - {x});
    assert Leads(violates, facts, path + [s - {x}], s - {x});
  }

  lemma TurnReaches(violates: set<Triple> -> bool, order: set<Triple> -> seq<Triple>, facts: set<Triple>, p: Progress)
    requires Listing(order) && p.queue != [] && AllReached(violates, facts, p)
    ensures AllReached(violates, facts, Turn(violates, order, p))
  {
    var current := p.queue[|p.queue| - 1];
    var q := Turn(violates, order, p);
    assert current in p.queue;
    assert Lists(order(current), current);
    forall c | c in q.queue ensures Reached(violates, facts, c) {
      if c !in p.queue {
        ChildMembers(order(current), current, q.seen, c);
        var x :| x in order(current) && c == current - {x};
        ReachedBelow(violates, facts, current, x);
      }
    }
  }

  lemma {:induction false} SearchReaches(violates: set<Triple> -> bool, order: set<Triple> -> seq<Triple>,
                                         facts: set<Triple>, p: Progress)
    requires Listing(order) && AllReached(violates, facts, p)
    ensures forall r :: r in Search(violates, order, p) ==> Reached(violates, facts, r)
    decreases Measure(p.queue)
  {
    if p.queue != [] {
      TurnShrinks(violates, order, p);
      TurnReaches(violates, order, facts, p);
      SearchReaches(violates, order, facts, Turn(violates, order, p));
    }
  }

  lemma FoundIsReached(violates: set<Triple> -> bool, order: set<Triple> -> seq<Triple>, facts: set<Triple>)
    requires Listing(order)
    ensures forall r :: r in Found(violates, order, facts) ==> Reached(violates, facts, r) && Consistent(violates, r)
  {
    assert Leads(violates, facts, [facts], facts);
    SearchReaches(violates, order, facts, Start(facts));
    FoundSoundly(violates, order, facts);
  }

  lemma ExactWhenStopsAreMaximal(violates: set<Triple> -> bool, order: set<Triple> -> seq<Triple>, facts: set<Triple>)
    requires Listing(order) && StopsAreMaximal(violates, facts)
    ensures Exact(violates, facts, Found(violates, order, facts))
  {
    var found := Found(violates, order, facts);
    FoundIsReached(violates, order, facts);
    forall r ensures r in found <==> Maximal(violates, facts, r) {
      LargestAreRepairs(violates, order, facts, r);
    }
  }

  // ---------------------------------------------------------------- an order that walks down a given path

  /** The members of `s` in the order of `xs`. */
  function Inside(xs: seq<Triple>, s: set<Triple>): seq<Triple> {
    if xs == [] then [] else
    Inside(xs[..|xs| - 1], s) + if xs[|xs| - 1] in s then [xs[|xs| - 1]] else []
  }

  /** Every set is listed in the order of one listing `xs` of the facts, as the copies of one hash set are. */
  ghost function ListedBy(xs: seq<Triple>, facts: set<Triple>): set<Triple> -> seq<Triple> {
    s => Listed(s - facts) + Inside(xs, s)
  }

  lemma ListsFront(xs: seq<Triple>, s: set<Triple>)
    requires Lists(xs, s) && xs != []
    ensures xs[|xs| - 1] in s && Lists(xs[..|xs| - 1], s - {xs[|xs| - 1]})
  {
    var front, last := xs[..|xs| - 1], xs[|xs| - 1];
    assert xs == front + [last];
    assert last !in front by {
      SetOfListing(front);
      assert last in front ==> s == set x | x in front;
    }
  }

  lemma {:induction false} SetOfListing(xs: seq<Triple>)
    ensures |set x | x in xs| <= |xs|
  {
    if xs != [] {
      var front, last := xs[..|xs| - 1], xs[|xs| - 1];
      SetOfListing(front);
      assert (set x | x in xs) == (set x | x in front) + {last};
    }
  }

  lemma {:induction false} InsideLists(xs: seq<Triple>, facts: set<Triple>, s: set<Triple>)
    requires Lists(xs, facts)
    ensures Lists(Inside(xs, s), s * facts)
  {
    if xs == [] {
      assert s * facts == {};
    } else {
      var last := xs[|xs| - 1];
      ListsFront(xs, facts);
      InsideLists(xs[..|xs| - 1], facts - {last}, s);
      assert s * facts == s * (facts - {last}) + if last in s then {last} else {};
    }
  }

  lemma ListedByLists(xs: seq<Triple>, facts: set<Triple>)
    requires Lists(xs, facts)
    ensures Listing(ListedBy(xs, facts))
  {
    forall s ensures Lists(ListedBy(xs, facts)(s), s) {
      InsideLists(xs, facts, s);
      assert s == (s - facts) + (s * facts);
    }
  }

  /** The fact that one step of a path removes. */
  ghost function Removed(s: set<Triple>, t: set<Triple>): (x: Triple)
    requires exists x :: x in s && t == s - {x}
    ensures x in s && t == s - {x}
  {
    var x :| x in s && t == s - {x};
    x
  }

  /** A listing of the first set in which the facts removed along the path come last, the first one removed at
      the very end. */
  ghost function Along(violates: set<Triple> -> bool, path: seq<set<Triple>>): (xs: seq<Triple>)
    requires path != [] && Descent(violates, path)
    ensures Lists(xs, path[0])
  {
    if |path| == 1 then Listed(path[0]) else
    assert StepsDown(violates, path[0], path[1]);
    DescentTail(violates, path);
    Along(violates, path[1..]) + [Removed(path[0], path[1])]
  }

  lemma {:induction false} DescentShrinks(violates: set<Triple> -> bool, path: seq<set<Triple>>, i: nat, j: nat)
    requires Descent(violates, path) && i < j < |path|
    ensures path[j] < path[i]
    decreases j
  {
    assert StepsDown(violates, path[j - 1], path[j]);
    if i < j - 1 {
      DescentShrinks(violates, path, i, j - 1);
    }
  }

  lemma StaysBelow(violates: set<Triple> -> bool, facts: set<Triple>, path: seq<set<Triple>>, i: nat)
    requires Descent(violates, path) && i < |path| && path[0] <= facts
    ensures path[i] <= facts
  {
    if i > 0 {
      DescentShrinks(violates, path, 0, i);
    }
  }

  lemma DescentTail(violates: set<Triple> -> bool, path: seq<set<Triple>>)
    requires Descent(violates, path) && path != []
    ensures Descent(violates, path[1..])
  {
    forall k | 0 <= k < |path[1..]| - 1 ensures StepsDown(violates, path[1..][k], path[1..][k + 1]) {
      assert StepsDown(violates, path[k + 1], path[k + 2]);
    }
  }

  /** On its path every set is listed with the fact to remove at the end. */
  lemma {:induction false} AlongEnds(violates: set<Triple> -> bool, path: seq<set<Triple>>, i: nat)
    requires Descent(violates, path) && i + 1 < |path|
    ensures EndsWithRemoved(Inside(Along(violates, path), path[i]), path[i], path[i + 1])
    decreases i
  {
    DescentTail(violates, path);
    assert StepsDown(violates, path[0], path[1]);
    var rest, x := Along(violates, path[1..]), Removed(path[0], path[1]);
    assert Along(violates, path) == rest + [x];
    InsideSnoc(rest, x, path[i]);
    if i > 0 {
      StaysBelow(violates, path[1], path[1..], i - 1);
      AlongEnds(violates, path[1..], i - 1);
    }
  }

  lemma InsideSnoc(rest: seq<Triple>, x: Triple, s: set<Triple>)
    ensures Inside(rest + [x], s) == Inside(rest, s) + if x in s then [x] else []
  {
    assert (rest + [x])[..|rest|] == rest;
  }

  /** The search on its way down the path: nothing listed yet, and only larger sets seen. */
  ghost predicate OnPath(path: seq<set<Triple>>, i: nat, p: Progress)
    requires i < |path|
  {
    && p.queue != [] && p.queue[|p.queue| - 1] == path[i]
    && p.repairs == []
    && forall s :: s in p.seen ==> path[i] < s
  }

  /** The order lists every set of the path with the fact to remove at the end. */
  ghost predicate WalksDown(order: set<Triple> -> seq<Triple>, path: seq<set<Triple>>) {
    forall i :: 0 <= i < |path| - 1 ==> EndsWithRemoved(order(path[i]), path[i], path[i + 1])
  }

  ghost predicate EndsWithRemoved(xs: seq<Triple>, s: set<Triple>, t: set<Triple>) {
    xs != [] && t == s - {xs[|xs| - 1]}
  }

  lemma ListedEnds(xs: seq<Triple>, facts: set<Triple>, s: set<Triple>, t: set<Triple>)
    requires EndsWithRemoved(Inside(xs, s), s, t)
    ensures EndsWithRemoved(ListedBy(xs, facts)(s), s, t)
  {
  }

  lemma AlongWalksDown(violates: set<Triple> -> bool, path: seq<set<Triple>>, xs: seq<Triple>)
    requires Descent(violates, path) && path != [] && xs == Along(violates, path)
    ensures WalksDown(ListedBy(xs, path[0]), path)
  {
    forall i | 0 <= i < |path| - 1 ensures EndsWithRemoved(ListedBy(xs, path[0])(path[i]), path[i], path[i + 1]) {
      AlongEnds(violates, path, i);
      ListedEnds(xs, path[0], path[i], path[i + 1]);
    }
  }

  lemma LastChild(xs: seq<Triple>, current: set<Triple>, seen: set<set<Triple>>, next: set<Triple>)
    requires EndsWithRemoved(xs, current, next) && next !in seen
    ensures var children := Children(xs, current, seen); children != [] && children[|children| - 1] == next
  {
  }

  lemma PathTurn(violates: set<Triple> -> bool, order: set<Triple> -> seq<Triple>, path: seq<set<Triple>>, i: nat,
                 p: Progress)
    requires Descent(violates, path) && WalksDown(order, path)
    requires i + 1 < |path| && OnPath(path, i, p)
    ensures OnPath(path, i + 1, Turn(violates, order, p))
  {
    assert StepsDown(violates, path[i], path[i + 1]);
    assert EndsWithRemoved(order(path[i]), path[i], path[i + 1]);
    DescentShrinks(violates, path, i, i + 1);
    LastChild(order(path[i]), path[i], p.seen + {path[i]}, path[i + 1]);
  }

  lemma {:induction false} KeepsListed(violates: set<Triple> -> bool, order: set<Triple> -> seq<Triple>, p: Progress,
                                       r: set<Triple>)
    requires Listing(order) && r in p.repairs
    ensures r in Search(violates, order, p)
    decreases Measure(p.queue)
  {
    if p.queue != [] {
      TurnShrinks(violates, order, p);
      KeepsListed(violates, order, Turn(violates, order, p), r);
    }
  }

  /** A consistent set taken out before anything is listed gets listed. */
  lemma StopIsListed(violates: set<Triple> -> bool, order: set<Triple> -> seq<Triple>, p: Progress, s: set<Triple>)
    requires Listing(order) && Consistent(violates, s)
    requires p.queue != [] && p.queue[|p.queue| - 1] == s && s !in p.seen && p.repairs == []
    ensures s in Search(violates, order, p)
  {
    assert Accepted(p.repairs, s);
    assert s in Turn(violates, order, p).repairs;
    TurnShrinks(violates, order, p);
    KeepsListed(violates, order, Turn(violates, order, p), s);
  }

  lemma {:induction false} PathIsListed(violates: set<Triple> -> bool, order: set<Triple> -> seq<Triple>,
                                        path: seq<set<Triple>>, i: nat, p: Progress)
    requires Descent(violates, path) && WalksDown(order, path) && Listing(order)
    requires i < |path| && OnPath(path, i, p) && Consistent(violates, path[|path| - 1])
    ensures path[|path| - 1] in Search(violates, order, p)
    decreases |path| - i
  {
    if i == |path| - 1 {
      StopIsListed(violates, order, p, path[i]);
    } else {
      TurnShrinks(violates, order, p);
      PathTurn(violates, order, path, i, p);
      PathIsListed(violates, order, path, i + 1, Turn(violates, order, p));
    }
  }

  /** Some listing of the facts makes the search list any consistent set it can stop at. */
  lemma EveryStopCanBeListed(violates: set<Triple> -> bool, facts: set<Triple>, s: set<Triple>)
    requires Reached(violates, facts, s) && Consistent(violates, s)
    ensures exists xs ::
      Lists(xs, facts) && Listing(ListedBy(xs, facts)) && s in Found(violates, ListedBy(xs, facts), facts)
  {
    var path :| Leads(violates, facts, path, s);
    var xs := Along(violates, path);
    ListedByLists(xs, facts);
    AlongWalksDown(violates, path, xs);
    PathIsListed(violates, ListedBy(xs, facts), path, 0, Start(facts));
  }

  /** When the facts are listed by `xs` the search lists exactly the repairs. */
  ghost predicate ExactFor(violates: set<Triple> -> bool, facts: set<Triple>, xs: seq<Triple>)
    requires Lists(xs, facts)
  {
    ListedByLists(xs, facts);
    Exact(violates, facts, Found(violates, ListedBy(xs, facts), facts))
  }

  /** The list is exactly the repairs, in every iteration order, if and only if no consistent set reached by
      removing facts one at a time falls short of a repair; orders that come from one listing of the facts are
      enough to see a difference. */
  lemma ExactIff(violates: set<Triple> -> bool, facts: set<Triple>)
    ensures StopsAreMaximal(violates, facts)
      <==> forall order :: Listing(order) ==> Exact(violates, facts, Found(violates, order, facts))
    ensures StopsAreMaximal(violates, facts) <==> forall xs :: Lists(xs, facts) ==> ExactFor(violates, facts, xs)
  {
    if StopsAreMaximal(violates, facts) {
      forall order | Listing(order) ensures Exact(violates, facts, Found(violates, order, facts)) {
        ExactWhenStopsAreMaximal(violates, order, facts);
      }
      forall xs | Lists(xs, facts) ensures ExactFor(violates, facts, xs) {
        ListedByLists(xs, facts);
      }
    } else {
      var s :| Reached(violates, facts, s) && Consistent(violates, s) && !Maximal(violates, facts, s);
      EveryStopCanBeListed(violates, facts, s);
      var xs :| Lists(xs, facts) && Listing(ListedBy(xs, facts)) && s in Found(violates, ListedBy(xs, facts), facts);
      assert !Exact(violates, facts, Found(violates, ListedBy(xs, facts), facts));
      assert !ExactFor(violates, facts, xs);
    }
  }

  // ---------------------------------------------------------------- constraints that only more facts can violate

  ghost predicate Monotone(violates: set<Triple> -> bool) {
    forall s, t :: s <= t && violates(s) ==> violates(t)
  }

  /** A violating set all of whose facts are needed for the violation. */
  ghost predicate Conflict(violates: set<Triple> -> bool, k: set<Triple>) {
    violates(k) && forall x :: x in k ==> Consistent(violates, k - {x})
  }

  ghost predicate ConflictsAreTight(violates: set<Triple> -> bool, facts: set<Triple>) {
    forall k, x :: k <= facts && Conflict(violates, k) && x in k ==> Maximal(violates, facts, k - {x})
  }

  lemma {:induction false} ConflictInside(violates: set<Triple> -> bool, s: set<Triple>)
    requires violates(s)
    ensures exists k :: k <= s && Conflict(violates, k)
    decreases |s|
  {
    if x :| x in s && violates(s - {x}) {
      ConflictInside(violates, s - {x});
    } else {
      assert Conflict(violates, s);
    }
  }

  lemma {:induction false} ReachesConflict(violates: set<Triple> -> bool, facts: set<Triple>, s: set<Triple>,
                                           k: set<Triple>)
    requires Monotone(violates) && Reached(violates, facts, s) && k <= s && violates(k)
    ensures Reached(violates, facts, k)
    decreases |s|
  {
    if k != s {
      assert s == k + (s - k) && k + {} == k;
      var x :| x in s - k;
      ReachedBelow(violates, facts, s, x);
      ReachesConflict(violates, facts, s - {x}, k);
    }
  }

  ghost predicate OneAbove(violates: set<Triple> -> bool, facts: set<Triple>, s: set<Triple>, v: set<Triple>,
                           x: Triple) {
    v <= facts && violates(v) && x in v && s == v - {x}
  }

  /** A stop that is not the whole fact set is a violating set without one of its facts. */
  lemma StopAbove(violates: set<Triple> -> bool, facts: set<Triple>, s: set<Triple>)
    requires Reached(violates, facts, s) && s != facts
    ensures exists v, x :: OneAbove(violates, facts, s, v, x)
  {
    var path :| Leads(violates, facts, path, s);
    assert StepsDown(violates, path[|path| - 2], path[|path| - 1]);
    StaysBelow(violates, facts, path, |path| - 2);
    var x :| x in path[|path| - 2] && s == path[|path| - 2] - {x};
    assert OneAbove(violates, facts, s, path[|path| - 2], x);
  }

  lemma TightStop(violates: set<Triple> -> bool, facts: set<Triple>, s: set<Triple>)
    requires Monotone(violates) && ConflictsAreTight(violates, facts)
    requires Reached(violates, facts, s) && Consistent(violates, s)
    ensures Maximal(violates, facts, s)
  {
    if s != facts {
      StopAbove(violates, facts, s);
      var v, x :| OneAbove(violates, facts, s, v, x);
      ConflictInside(violates, v);
      var k :| k <= v && Conflict(violates, k);
      assert k <= s ==> violates(s);
      assert x in k;
      assert k - {x} <= s;
    }
  }

  /** For constraints that only more facts can violate, the list is exactly the repairs in every iteration order
      if and only if dropping one fact of a conflict always leaves a repair. */
  lemma ExactIffConflictsAreTight(violates: set<Triple> -> bool, facts: set<Triple>)
    requires Monotone(violates)
    ensures ConflictsAreTight(violates, facts)
      <==> forall order :: Listing(order) ==> Exact(violates, facts, Found(violates, order, facts))
  {
    ExactIff(violates, facts);
    if ConflictsAreTight(violates, facts) {
      forall s | Reached(violates, facts, s) && Consistent(violates, s) ensures Maximal(violates, facts, s) {
        TightStop(violates, facts, s);
      }
    }
    if StopsAreMaximal(violates, facts) {
      forall k, x | k <= facts && Conflict(violates, k) && x in k ensures Maximal(violates, facts, k - {x}) {
        assert Leads(violates, facts, [facts], facts);
        ReachesConflict(violates, facts, facts, k);
        ReachedBelow(violates, facts, k, x);
      }
    }
  }
}
