/** Inconsistency-tolerant queries: the matches of one pattern that every listed set supports. */
module RepairQueries {
  import opened Bags
  import opened Triples
  import opened Sequences
  import opened RuleMatch
  import opened Repairs

  /** Matching the fact from no bindings yields this binding. What a failed match has bound is not looked at. */
  ghost predicate IsMatch(p: TriplePattern, f: Triple, b: Binding) {
    PatternMatch(p, f, map[]) == Matched(true, b)
  }

  /** Some fact of the set matches the pattern with this binding. */
  ghost predicate Supported(p: TriplePattern, s: set<Triple>, b: Binding) {
    exists f :: f in s && IsMatch(p, f, b)
  }

  method SupportedBy(p: TriplePattern, xs: seq<Triple>, ghost s: set<Triple>, b: Binding) returns (found: bool)
    requires Lists(xs, s)
    ensures found <==> Supported(p, s, b)
  {
    found := false;
    for i := 0 to |xs|
      invariant found <==> exists f :: f in xs[..i] && IsMatch(p, f, b)
    {
      assert xs[..i + 1] == xs[..i] + [xs[i]];
      var ok, bindings := MatchesRulePattern(p, xs[i], map[]);
      assert IsMatch(p, xs[i], b) <==> ok && bindings == b;
      if ok && bindings == b {
        found := true;
      }
    }
  }

  /** One binding for every matching fact, in the order of the listing. */
  function Matches(p: TriplePattern, xs: seq<Triple>): seq<Binding> {
    if xs == [] then [] else
    var m := PatternMatch(p, xs[|xs| - 1], map[]);
    Matches(p, xs[..|xs| - 1]) + if m.ok then [m.bindings] else []
  }

  method BindingsOf(p: TriplePattern, xs: seq<Triple>) returns (results: seq<Binding>)
    ensures results == Matches(p, xs)
  {
    results := [];
    for i := 0 to |xs|
      invariant results == Matches(p, xs[..i])
    {
      assert xs[..i + 1][..i] == xs[..i];
      var ok, bindings := MatchesRulePattern(p, xs[i], map[]);
      if ok {
        results := results + [bindings];
      }
    }
    TakeAll(xs);
  }

  /** A binding is the match of one fact only. */
  lemma BindingFixesFact(p: TriplePattern, f: Triple, g: Triple, b: Binding)
    requires IsMatch(p, f, b) && IsMatch(p, g, b)
    ensures f == g
  {
    MatchIsSound(p, f, map[]);
    MatchIsSound(p, g, map[]);
  }

  lemma {:induction false} MatchesOnce(p: TriplePattern, xs: seq<Triple>, s: set<Triple>, b: Binding)
    requires Lists(xs, s)
    ensures multiset(Matches(p, xs))[b] == if Supported(p, s, b) then 1 else 0
  {
    if xs != [] {
      var front, last := xs[..|xs| - 1], xs[|xs| - 1];
      ListsFront(xs, s);
      MatchesOnce(p, front, s - {last}, b);
      if IsMatch(p, last, b) {
        forall f | f in s && IsMatch(p, f, b) ensures f == last {
          BindingFixesFact(p, f, last, b);
        }
      }
    }
  }

  ghost predicate Answers(p: TriplePattern, found: seq<set<Triple>>, b: Binding) {
    found != [] && forall r :: r in found ==> Supported(p, r, b)
  }

  ghost function InAll(p: TriplePattern, sets: seq<set<Triple>>): Binding -> bool {
    b => forall r :: r in sets ==> Supported(p, r, b)
  }

  lemma AnswersFromFirst(p: TriplePattern, found: seq<set<Triple>>, b: Binding)
    requires found != []
    ensures Answers(p, found, b) <==> Supported(p, found[0], b) && InAll(p, found[1..])(b)
  {
    assert found == [found[0]] + found[1..];
  }

  /** Looks for the binding in all sets but the first. */
  method SupportedByAll(p: TriplePattern, order: set<Triple> -> seq<Triple>, repairs: seq<set<Triple>>, b: Binding)
    returns (everywhere: bool)
    requires Listing(order) && repairs != []
    ensures everywhere <==> InAll(p, repairs[1..])(b)
  {
    everywhere := true;
    for j := 1 to |repairs|
      invariant everywhere <==> InAll(p, repairs[1..j])(b)
    {
      assert Lists(order(repairs[j]), repairs[j]);
      var here := SupportedBy(p, order(repairs[j]), repairs[j], b);
      assert repairs[1..j + 1] == repairs[1..j] + [repairs[j]];
      everywhere := everywhere && here;
    }
    assert repairs[1..|repairs|] == repairs[1..];
  }

  /** Every binding supported by all listed sets is delivered, once, and nothing else. */
  method QueryWithRepairs(violates: set<Triple> -> bool, order: set<Triple> -> seq<Triple>, facts: set<Triple>,
                          p: TriplePattern)
    returns (results: seq<Binding>)
    requires Listing(order)
    ensures forall b :: multiset(results)[b] == if Answers(p, Found(violates, order, facts), b) then 1 else 0
  {
    var repairs := ComputeRepairs(violates, order, facts);
    results := [];
    if repairs == [] {
      return;
    }
    assert Lists(order(repairs[0]), repairs[0]);
    var first := BindingsOf(p, order(repairs[0]));
    for i := 0 to |first|
      invariant results == Filter(InAll(p, repairs[1..]), first[..i])
    {
      var everywhere := SupportedByAll(p, order, repairs, first[i]);
      FilterStep(InAll(p, repairs[1..]), first, i);
      if everywhere {
        results := results + [first[i]];
      }
    }
    TakeAll(first);
    forall b ensures multiset(results)[b] == if Answers(p, repairs, b) then 1 else 0 {
      MatchesOnce(p, order(repairs[0]), repairs[0], b);
      FilterCount(InAll(p, repairs[1..]), first, b);
      AnswersFromFirst(p, repairs, b);
    }
  }

  /** The answers are those of the facts common to all listed sets: for one pattern, being an answer in each of them
      and being an answer in their intersection is the same. */
  lemma AnswersOfCommonFacts(p: TriplePattern, found: seq<set<Triple>>, b: Binding)
    requires found != []
    ensures Answers(p, found, b)
      <==> exists f :: IsMatch(p, f, b) && forall r :: r in found ==> f in r
  {
    if Answers(p, found, b) {
      assert found[0] in found;
      var f :| f in found[0] && IsMatch(p, f, b);
      forall r | r in found ensures f in r {
        var g :| g in r && IsMatch(p, g, b);
        BindingFixesFact(p, f, g, b);
      }
    }
  }

  // ---------------------------------------------------------------- answers that hold in every repair

  ghost predicate InEveryRepair(violates: set<Triple> -> bool, facts: set<Triple>, p: TriplePattern, b: Binding) {
    forall r :: Maximal(violates, facts, r) ==> Supported(p, r, b)
  }

  /** Every answer holds in every repair. */
  lemma AnswersHoldInRepairs(violates: set<Triple> -> bool, order: set<Triple> -> seq<Triple>, facts: set<Triple>,
                             p: TriplePattern, b: Binding)
    requires Listing(order) && Answers(p, Found(violates, order, facts), b)
    ensures InEveryRepair(violates, facts, p, b)
  {
    forall r | Maximal(violates, facts, r) ensures r in Found(violates, order, facts) {
      LargestAreRepairs(violates, order, facts, r);
    }
  }

  ghost predicate HasRepair(violates: set<Triple> -> bool, facts: set<Triple>) {
    exists r :: Maximal(violates, facts, r)
  }

  ghost predicate Common(violates: set<Triple> -> bool, facts: set<Triple>, x: Triple) {
    forall r :: Maximal(violates, facts, r) ==> x in r
  }

  /** No query loses an answer that holds in every repair, in whatever order the facts are listed. */
  ghost predicate NothingLost(violates: set<Triple> -> bool, facts: set<Triple>) {
    forall order, p, b :: Listing(order) && InEveryRepair(violates, facts, p, b) ==>
        Answers(p, Found(violates, order, facts), b)
  }

  /** Every consistent set at which removing facts one at a time can stop keeps the facts common to all repairs. */
  ghost predicate StopsKeepCommon(violates: set<Triple> -> bool, facts: set<Triple>) {
    forall s, x :: !Misses(violates, facts, s, x)
  }

  ghost predicate Misses(violates: set<Triple> -> bool, facts: set<Triple>, s: set<Triple>, x: Triple) {
    Reached(violates, facts, s) && Consistent(violates, s) && Common(violates, facts, x) && x !in s
  }

  lemma AnswerKept(violates: set<Triple> -> bool, order: set<Triple> -> seq<Triple>, facts: set<Triple>,
                   p: TriplePattern, b: Binding)
    requires HasRepair(violates, facts) && StopsKeepCommon(violates, facts)
    requires Listing(order) && InEveryRepair(violates, facts, p, b)
    ensures Answers(p, Found(violates, order, facts), b)
  {
    var found := Found(violates, order, facts);
    var r :| Maximal(violates, facts, r);
    assert Supported(p, r, b);
    LargestAreRepairs(violates, order, facts, r);
    var f :| f in r && IsMatch(p, f, b);
    forall q | Maximal(violates, facts, q) ensures f in q {
      assert Supported(p, q, b);
      var g :| g in q && IsMatch(p, g, b);
      BindingFixesFact(p, f, g, b);
    }
    assert Common(violates, facts, f);
    FoundIsReached(violates, order, facts);
    forall s | s in found ensures Supported(p, s, b) {
      assert !Misses(violates, facts, s, f);
    }
  }

  /** The pattern that asks for one fact. */
  function Exactly(x: Triple): TriplePattern {
    TriplePattern(Constant(x.subj), Constant(x.pred), Constant(x.obj))
  }

  lemma AskForOneFact(x: Triple, s: set<Triple>)
    ensures Supported(Exactly(x), s, map[]) <==> x in s
  {
    assert IsMatch(Exactly(x), x, map[]);
  }

  /** With the facts listed in this order the binding is not delivered. */
  ghost predicate Loses(violates: set<Triple> -> bool, facts: set<Triple>, xs: seq<Triple>, p: TriplePattern,
                        b: Binding) {
    && Lists(xs, facts) && Listing(ListedBy(xs, facts))
    && !Answers(p, Found(violates, ListedBy(xs, facts), facts), b)
  }

  /** A stop without a common fact: some order and some pattern lose the answer. */
  lemma AnswerLost(violates: set<Triple> -> bool, facts: set<Triple>, s: set<Triple>, x: Triple)
    requires Misses(violates, facts, s, x)
    ensures InEveryRepair(violates, facts, Exactly(x), map[])
    ensures exists xs :: Loses(violates, facts, xs, Exactly(x), map[])
  {
    forall r | Maximal(violates, facts, r) ensures Supported(Exactly(x), r, map[]) {
      AskForOneFact(x, r);
    }
    EveryStopCanBeListed(violates, facts, s);
    var xs :| Lists(xs, facts) && Listing(ListedBy(xs, facts)) && s in Found(violates, ListedBy(xs, facts), facts);
    AskForOneFact(x, s);
    assert Loses(violates, facts, xs, Exactly(x), map[]);
  }

  /** When there is a repair at all, no answer is lost, in any order and for any pattern, if and only if every
      consistent set that can be stopped at holds all facts common to the repairs. */
  lemma NothingLostExactly(violates: set<Triple> -> bool, facts: set<Triple>)
    requires HasRepair(violates, facts)
    ensures NothingLost(violates, facts) <==> StopsKeepCommon(violates, facts)
  {
    if StopsKeepCommon(violates, facts) {
      forall order, p, b | Listing(order) && InEveryRepair(violates, facts, p, b)
        ensures Answers(p, Found(violates, order, facts), b)
      {
        AnswerKept(violates, order, facts, p, b);
      }
    } else {
      var s, x :| Misses(violates, facts, s, x);
      AnswerLost(violates, facts, s, x);
    }
  }

  // ---------------------------------------------------------------- constraints that only more facts can violate

  ghost predicate InConflict(violates: set<Triple> -> bool, facts: set<Triple>, x: Triple) {
    exists k :: k <= facts && Conflict(violates, k) && x in k
  }

  /** A fact that takes part in a conflict is missing from some repair ... */
  lemma ConflictingIsNotCommon(violates: set<Triple> -> bool, facts: set<Triple>, x: Triple)
    requires Monotone(violates) && InConflict(violates, facts, x)
    ensures !Common(violates, facts, x)
  {
    var k :| k <= facts && Conflict(violates, k) && x in k;
    ExtendsToRepair(violates, facts, k - {x});
    var r :| k - {x} <= r && Maximal(violates, facts, r);
    assert x in r ==> k <= r;
    assert k <= r ==> violates(r);
  }

  lemma NewConflict(violates: set<Triple> -> bool, facts: set<Triple>, x: Triple, r: set<Triple>)
    requires Monotone(violates) && x in facts && r <= facts
    requires Consistent(violates, r) && violates(r + {x})
    ensures InConflict(violates, facts, x)
  {
    ConflictInside(violates, r + {x});
    var k :| k <= r + {x} && Conflict(violates, k);
    assert !(k <= r);
  }

  /** ... and a fact in no conflict is common to all repairs. */
  lemma FreeIsCommon(violates: set<Triple> -> bool, facts: set<Triple>, x: Triple)
    requires Monotone(violates) && x in facts && !InConflict(violates, facts, x)
    ensures Common(violates, facts, x)
  {
    forall r | Maximal(violates, facts, r) ensures x in r {
      if violates(r + {x}) {
        NewConflict(violates, facts, x, r);
      }
      assert r <= r + {x} <= facts;
    }
  }

  /** Removing a fact in no conflict first leads to a stop without it. */
  lemma FreeFactMissed(violates: set<Triple> -> bool, facts: set<Triple>, x: Triple) returns (s: set<Triple>)
    requires Monotone(violates) && Consistent(violates, {}) && violates(facts)
    requires x in facts && !InConflict(violates, facts, x)
    ensures Reached(violates, facts, s) && Consistent(violates, s) && x !in s
  {
    ConflictInside(violates, facts);
    var k :| k <= facts && Conflict(violates, k);
    assert x !in k && k <= facts - {x};
    assert Leads(violates, facts, [facts], facts);
    ReachedBelow(violates, facts, facts, x);
    ReachesConflict(violates, facts, facts - {x}, k);
    assert k != {};
    var y :| y in k;
    ReachedBelow(violates, facts, k, y);
    s := k - {y};
  }

  lemma OnlyTheFacts(violates: set<Triple> -> bool, facts: set<Triple>, s: set<Triple>)
    requires Consistent(violates, facts) && Reached(violates, facts, s)
    ensures s == facts
  {
    var path :| Leads(violates, facts, path, s);
    assert |path| > 1 ==> StepsDown(violates, path[0], path[1]);
  }

  /** For constraints that only more facts can violate, nothing is lost if and only if the facts are consistent or
      every single fact takes part in a conflict. */
  lemma NothingLostIffNoFreeFact(violates: set<Triple> -> bool, facts: set<Triple>)
    requires Monotone(violates) && Consistent(violates, {})
    ensures NothingLost(violates, facts)
      <==> Consistent(violates, facts) || forall x :: x in facts ==> InConflict(violates, facts, x)
  {
    ExtendsToRepair(violates, facts, {});
    NothingLostExactly(violates, facts);
    if Consistent(violates, facts) {
      assert Maximal(violates, facts, facts);
      forall s | Reached(violates, facts, s) ensures s == facts {
        OnlyTheFacts(violates, facts, s);
      }
    } else if x :| x in facts && !InConflict(violates, facts, x) {
      FreeIsCommon(violates, facts, x);
      var s := FreeFactMissed(violates, facts, x);
      assert Misses(violates, facts, s, x);
    } else {
      var r :| Maximal(violates, facts, r);
      forall x ensures !Common(violates, facts, x) {
        if x in facts {
          ConflictingIsNotCommon(violates, facts, x);
        } else {
          assert x !in r;
        }
      }
    }
  }

  /** The constraint that two facts exclude each other. */
  function Excludes(a: Triple, b: Triple): set<Triple> -> bool {
    (s: set<Triple>) => a in s && b in s
  }

  /** With one conflict and one fact outside it, the fact is in every repair, yet in some listing of the facts a
      listed set lacks it and the query for it comes back empty. */
  lemma CertainFactLost(a: Triple, b: Triple, c: Triple, facts: set<Triple>)
    requires a != b && a != c && b != c && facts == {a, b, c}
    ensures InEveryRepair(Excludes(a, b), facts, Exactly(c), map[])
    ensures exists xs :: Loses(Excludes(a, b), facts, xs, Exactly(c), map[])
  {
    var violates := Excludes(a, b);
    forall k | Conflict(violates, k) ensures c !in k {
      assert violates(k - {c});
    }
    FreeIsCommon(violates, facts, c);
    var s := FreeFactMissed(violates, facts, c);
    AnswerLost(violates, facts, s, c);
  }
}
