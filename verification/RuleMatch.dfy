/** Applying a rule with one or two premises to a list of facts. */
module RuleMatch {
  import opened Options
  import opened Bags
  import opened Triples

  datatype Term = Variable(name: string) | Constant(id: nat) | Quoted(s: Term, p: Term, o: Term)

  datatype TriplePattern = TriplePattern(subj: Term, pred: Term, obj: Term)

  datatype Rule = Rule(premise: seq<TriplePattern>, conclusion: seq<TriplePattern>)

  type Binding = map<string, nat>

  // ---------------------------------------------------------------- what a substitution makes of a pattern

  function Resolve(t: Term, m: Binding): Option<nat> {
    match t
    case Variable(name) => if name in m then Some(m[name]) else None
    case Constant(id) => Some(id)
    case Quoted(_, _, _) => None
  }

  function Instance(p: TriplePattern, m: Binding): Option<Triple> {
    var s, q, o := Resolve(p.subj, m), Resolve(p.pred, m), Resolve(p.obj, m);
    if s.Some? && q.Some? && o.Some? then Some(Triple(s.value, q.value, o.value)) else None
  }

  function TermVariables(t: Term): set<string> {
    if t.Variable? then {t.name} else {}
  }

  function PatternVariables(p: TriplePattern): set<string> {
    TermVariables(p.subj) + TermVariables(p.pred) + TermVariables(p.obj)
  }

  function Variables(ps: seq<TriplePattern>): set<string> {
    if ps == [] then {} else PatternVariables(ps[0]) + Variables(ps[1..])
  }

  /** `m` keeps every binding of `b`. */
  ghost predicate Extends(b: Binding, m: Binding) {
    forall v :: v in b ==> v in m && m[v] == b[v]
  }

  // ---------------------------------------------------------------- matching

  /** The answer of a match, and the bindings it leaves behind, also when it fails. */
  datatype Matched = Matched(ok: bool, bindings: Binding)

  function TermMatch(t: Term, x: nat, b: Binding): Matched {
    match t
    case Variable(name) => if name in b then Matched(b[name] == x, b) else Matched(true, b[name := x])
    case Constant(id) => Matched(id == x, b)
    case Quoted(_, _, _) => Matched(false, b)
  }

  function Then(r: Matched, t: Term, x: nat): Matched {
    if r.ok then TermMatch(t, x, r.bindings) else r
  }

  function PatternMatch(p: TriplePattern, f: Triple, b: Binding): Matched {
    Then(Then(TermMatch(p.subj, f.subj, b), p.pred, f.pred), p.obj, f.obj)
  }

  method MatchTerm(t: Term, x: nat, bindings: Binding) returns (ok: bool, after: Binding)
    ensures Matched(ok, after) == TermMatch(t, x, bindings)
  {
    after := bindings;
    match t
    case Variable(name) =>
      if name in after {
        ok := after[name] == x;
      } else {
        after := after[name := x];
        ok := true;
      }
    case Constant(id) =>
      ok := id == x;
    case Quoted(_, _, _) =>
      ok := false;
  }

  method MatchesRulePattern(p: TriplePattern, f: Triple, bindings: Binding) returns (ok: bool, after: Binding)
    ensures Matched(ok, after) == PatternMatch(p, f, bindings)
  {
    ok, after := MatchTerm(p.subj, f.subj, bindings);
    if !ok {
      return;
    }
    ok, after := MatchTerm(p.pred, f.pred, after);
    if !ok {
      return;
    }
    ok, after := MatchTerm(p.obj, f.obj, after);
  }

  lemma LeastTermMatch(t: Term, x: nat, b: Binding, m: Binding)
    requires Extends(b, m)
    ensures var r := TermMatch(t, x, b);
      && (r.ok ==>
        Extends(b, r.bindings) && Resolve(t, r.bindings) == Some(x) && r.bindings.Keys == b.Keys + TermVariables(t))
      && (Resolve(t, m) == Some(x) ==> r.ok && Extends(r.bindings, m))
  {
  }

  /** A match succeeds if it can: any extension of the bindings that makes the fact out of the pattern extends the
      bindings the match computes. */
  lemma MatchFindsLeast(p: TriplePattern, f: Triple, b: Binding, m: Binding)
    requires Extends(b, m) && Instance(p, m) == Some(f)
    ensures PatternMatch(p, f, b).ok && Extends(PatternMatch(p, f, b).bindings, m)
  {
  }

  /** A successful match extends the bindings by the variables of the pattern and makes the fact out of it. */
  lemma MatchIsSound(p: TriplePattern, f: Triple, b: Binding)
    requires PatternMatch(p, f, b).ok
    ensures var after := PatternMatch(p, f, b).bindings;
      Extends(b, after) && Instance(p, after) == Some(f) && after.Keys == b.Keys + PatternVariables(p)
  {
    var r := TermMatch(p.subj, f.subj, b);
    var q := Then(r, p.pred, f.pred);
    var u := Then(q, p.obj, f.obj);
    LeastTermMatch(p.subj, f.subj, b, b);
    LeastTermMatch(p.pred, f.pred, r.bindings, r.bindings);
    LeastTermMatch(p.obj, f.obj, q.bindings, q.bindings);
  }

  /** What matching computes: the least extension of the bindings that turns the pattern into the fact. */
  lemma MatchIsLeast(p: TriplePattern, f: Triple, b: Binding)
    ensures PatternMatch(p, f, b).ok <==> exists m :: Extends(b, m) && Instance(p, m) == Some(f)
    ensures PatternMatch(p, f, b).ok ==>
      var after := PatternMatch(p, f, b).bindings;
      && Extends(b, after) && Instance(p, after) == Some(f)
      && forall m :: Extends(b, m) && Instance(p, m) == Some(f) ==> Extends(after, m)
  {
    if PatternMatch(p, f, b).ok {
      MatchIsSound(p, f, b);
    }
    forall m | Extends(b, m) && Instance(p, m) == Some(f)
      ensures PatternMatch(p, f, b).ok && Extends(PatternMatch(p, f, b).bindings, m)
    {
    }
  }

  // ---------------------------------------------------------------- what a rule derives

  /** A substitution for exactly the variables of the premises turns them into the facts at the picked positions, and
      a conclusion into `t`. */
  ghost predicate Fires(rule: Rule, facts: seq<Triple>, pick: seq<nat>, m: Binding, t: Triple) {
    && |pick| == |rule.premise|
    && (forall k | 0 <= k < |pick| :: pick[k] < |facts| && Instance(rule.premise[k], m) == Some(facts[pick[k]]))
    && m.Keys == Variables(rule.premise)
    && Concludes(rule.conclusion, m, t)
  }

  ghost predicate Distinct(pick: seq<nat>) {
    forall i, j | 0 <= i < j < |pick| :: pick[i] != pick[j]
  }

  ghost predicate Concludes(conclusion: seq<TriplePattern>, m: Binding, t: Triple) {
    exists c | c in conclusion :: Instance(c, m) == Some(t)
  }

  ghost predicate Derivable(rule: Rule, facts: seq<Triple>, t: Triple) {
    exists pick, m :: Distinct(pick) && Fires(rule, facts, pick, m, t)
  }

  // ---------------------------------------------------------------- one premise

  /** `t` comes out of matching one fact. */
  ghost predicate FromOne(rule: Rule, f: Triple, t: Triple)
    requires |rule.premise| == 1
  {
    var r := PatternMatch(rule.premise[0], f, map[]);
    r.ok && Concludes(rule.conclusion, r.bindings, t)
  }

  lemma SameBinding(a: Binding, b: Binding)
    requires Extends(a, b) && a.Keys == b.Keys
    ensures a == b
  {
  }

  lemma OnePremise(rule: Rule, facts: seq<Triple>, t: Triple)
    requires |rule.premise| == 1
    ensures Derivable(rule, facts, t) <==> exists i | 0 <= i < |facts| :: FromOne(rule, facts[i], t)
  {
    var p := rule.premise[0];
    assert Variables(rule.premise) == PatternVariables(p);
    if i :| 0 <= i < |facts| && FromOne(rule, facts[i], t) {
      MatchIsSound(p, facts[i], map[]);
      assert Distinct([i]) && Fires(rule, facts, [i], PatternMatch(p, facts[i], map[]).bindings, t);
    }
    if Derivable(rule, facts, t) {
      var pick, m :| Distinct(pick) && Fires(rule, facts, pick, m, t);
      var f := facts[pick[0]];
      MatchFindsLeast(p, f, map[], m);
      MatchIsSound(p, f, map[]);
      SameBinding(PatternMatch(p, f, map[]).bindings, m);
      assert FromOne(rule, facts[pick[0]], t);
    }
  }

  // ---------------------------------------------------------------- two premises

  function PairMatch(rule: Rule, f: Triple, g: Triple): Matched
    requires |rule.premise| == 2
  {
    var r := PatternMatch(rule.premise[0], f, map[]);
    if r.ok then PatternMatch(rule.premise[1], g, r.bindings) else r
  }

  /** `t` comes out of matching two facts, one after the other. */
  ghost predicate FromTwo(rule: Rule, f: Triple, g: Triple, t: Triple)
    requires |rule.premise| == 2
  {
    PairMatch(rule, f, g).ok && Concludes(rule.conclusion, PairMatch(rule, f, g).bindings, t)
  }

  lemma PairMatchIsSound(rule: Rule, f: Triple, g: Triple)
    requires |rule.premise| == 2 && PairMatch(rule, f, g).ok
    ensures var m := PairMatch(rule, f, g).bindings;
      && Instance(rule.premise[0], m) == Some(f) && Instance(rule.premise[1], m) == Some(g)
      && m.Keys == Variables(rule.premise)
  {
    var p, q := rule.premise[0], rule.premise[1];
    var b := PatternMatch(p, f, map[]).bindings;
    MatchIsSound(p, f, map[]);
    MatchIsSound(q, g, b);
    var m := PatternMatch(q, g, b).bindings;
    assert rule.premise[1..] == [q] && Variables([q]) == PatternVariables(q);
  }

  lemma PairMatchFinds(rule: Rule, f: Triple, g: Triple, m: Binding)
    requires |rule.premise| == 2
    requires Instance(rule.premise[0], m) == Some(f) && Instance(rule.premise[1], m) == Some(g)
    requires m.Keys == Variables(rule.premise)
    ensures PairMatch(rule, f, g) == Matched(true, m)
  {
    MatchFindsLeast(rule.premise[1], g, PatternMatch(rule.premise[0], f, map[]).bindings, m);
    PairMatchIsSound(rule, f, g);
    SameBinding(PairMatch(rule, f, g).bindings, m);
  }

  ghost predicate FromPair(rule: Rule, facts: seq<Triple>, i: nat, j: nat, t: Triple)
    requires |rule.premise| == 2
  {
    i < |facts| && j < |facts| && i != j && FromTwo(rule, facts[i], facts[j], t)
  }

  lemma TwoPremises(rule: Rule, facts: seq<Triple>, t: Triple)
    requires |rule.premise| == 2
    ensures Derivable(rule, facts, t) <==> exists i: nat, j: nat :: FromPair(rule, facts, i, j, t)
  {
    if i: nat, j: nat :| FromPair(rule, facts, i, j, t) {
      PairMatchIsSound(rule, facts[i], facts[j]);
      assert Distinct([i, j]) && Fires(rule, facts, [i, j], PairMatch(rule, facts[i], facts[j]).bindings, t);
    }
    if Derivable(rule, facts, t) {
      var pick, m :| Distinct(pick) && Fires(rule, facts, pick, m, t);
      PairMatchFinds(rule, facts[pick[0]], facts[pick[1]], m);
      assert FromPair(rule, facts, pick[0], pick[1], t);
    }
  }

  // ---------------------------------------------------------------- the loops

  /** Adds the new instances of the conclusions under one binding. The set of facts seen so far is the set of
      members of the list. */
  method AddConclusions(conclusion: seq<TriplePattern>, bindings: Binding, newFacts: seq<Triple>)
    returns (extended: seq<Triple>)
    requires NoDuplicates(newFacts)
    ensures NoDuplicates(extended)
    ensures forall t :: t in extended <==> t in newFacts || Concludes(conclusion, bindings, t)
  {
    extended := newFacts;
    for i := 0 to |conclusion|
      invariant NoDuplicates(extended)
      invariant forall t :: t in extended <==> t in newFacts || Concludes(conclusion[..i], bindings, t)
    {
      assert conclusion[..i + 1] == conclusion[..i] + [conclusion[i]];
      var fact := Instance(conclusion[i], bindings);
      if fact.Some? && fact.value !in extended {
        extended := extended + [fact.value];
      }
    }
  }

  method ApplyOnePremise(rule: Rule, facts: seq<Triple>) returns (newFacts: seq<Triple>)
    requires |rule.premise| == 1
    ensures NoDuplicates(newFacts)
    ensures forall t :: t in newFacts <==> exists i | 0 <= i < |facts| :: FromOne(rule, facts[i], t)
  {
    newFacts := [];
    for i := 0 to |facts|
      invariant NoDuplicates(newFacts)
      invariant forall t :: t in newFacts <==> exists k | 0 <= k < i :: FromOne(rule, facts[k], t)
    {
      var ok, bindings := MatchesRulePattern(rule.premise[0], facts[i], map[]);
      if ok {
        newFacts := AddConclusions(rule.conclusion, bindings, newFacts);
      }
    }
  }

  /** The pairs the nested loops have visited before `(i, j)`. */
  ghost predicate Before(a: nat, b: nat, i: nat, j: nat) {
    a < i || (a == i && b < j)
  }

  ghost predicate FromEarlier(rule: Rule, facts: seq<Triple>, i: nat, j: nat, t: Triple)
    requires |rule.premise| == 2
  {
    exists a, b :: Before(a, b, i, j) && FromPair(rule, facts, a, b, t)
  }

  method ApplyTwoPremises(rule: Rule, facts: seq<Triple>) returns (newFacts: seq<Triple>)
    requires |rule.premise| == 2
    ensures NoDuplicates(newFacts)
    ensures forall t :: t in newFacts <==> FromEarlier(rule, facts, |facts|, 0, t)
  {
    newFacts := [];
    for i := 0 to |facts|
      invariant NoDuplicates(newFacts)
      invariant forall t :: t in newFacts <==> FromEarlier(rule, facts, i, 0, t)
    {
      for j := 0 to |facts|
        invariant NoDuplicates(newFacts)
        invariant forall t :: t in newFacts <==> FromEarlier(rule, facts, i, j, t)
      {
        assert forall t :: FromEarlier(rule, facts, i, j + 1, t) <==>
          FromEarlier(rule, facts, i, j, t) || FromPair(rule, facts, i, j, t);
        if i == j {
          continue;
        }
        ghost var sofar := newFacts;
        var ok, bindings := MatchesRulePattern(rule.premise[0], facts[i], map[]);
        if ok {
          ok, bindings := MatchesRulePattern(rule.premise[1], facts[j], bindings);
        }
        assert Matched(ok, bindings) == PairMatch(rule, facts[i], facts[j]);
        if ok {
          newFacts := AddConclusions(rule.conclusion, bindings, newFacts);
        }
        assert forall t :: t in newFacts <==> t in sofar || FromPair(rule, facts, i, j, t);
      }
      assert forall t :: FromEarlier(rule, facts, i, |facts|, t) <==> FromEarlier(rule, facts, i + 1, 0, t);
    }
  }

  /** A rule with one or two premises yields each derivable fact once and nothing else; any other rule yields
      nothing. */
  method ApplyRuleToFacts(rule: Rule, facts: seq<Triple>) returns (newFacts: seq<Triple>)
    ensures NoDuplicates(newFacts)
    ensures forall t :: t in newFacts <==> (|rule.premise| == 1 || |rule.premise| == 2) && Derivable(rule, facts, t)
  {
    if |rule.premise| == 1 {
      newFacts := ApplyOnePremise(rule, facts);
      forall t ensures t in newFacts <==> Derivable(rule, facts, t) {
        OnePremise(rule, facts, t);
      }
    } else if |rule.premise| == 2 {
      newFacts := ApplyTwoPremises(rule, facts);
      forall t ensures t in newFacts <==> Derivable(rule, facts, t) {
        TwoPremises(rule, facts, t);
        assert FromEarlier(rule, facts, |facts|, 0, t) <==> exists i: nat, j: nat :: FromPair(rule, facts, i, j, t) by {
          if i: nat, j: nat :| FromPair(rule, facts, i, j, t) {
            assert Before(i, j, |facts|, 0);
          }
        }
      }
    } else {
      newFacts := [];
    }
  }

  /** A rule whose conclusions use only variables of its premises derives the same facts under any substitution. */
  lemma ExtraVariablesDoNotMatter(rule: Rule, facts: seq<Triple>, pick: seq<nat>, m: Binding, t: Triple)
    requires |pick| == |rule.premise| && Distinct(pick)
    requires forall k | 0 <= k < |pick| :: pick[k] < |facts| && Instance(rule.premise[k], m) == Some(facts[pick[k]])
    requires Variables(rule.conclusion) <= Variables(rule.premise)
    requires Concludes(rule.conclusion, m, t)
    ensures Derivable(rule, facts, t)
  {
    var vs := Variables(rule.premise);
    AllBound(rule.premise, m);
    var n := map v | v in vs :: m[v];
    forall k | 0 <= k < |pick| ensures Instance(rule.premise[k], n) == Some(facts[pick[k]]) {
      VariablesOf(rule.premise, k);
      SameInstance(rule.premise[k], m, n);
    }
    var c :| c in rule.conclusion && Instance(c, m) == Some(t);
    var k :| 0 <= k < |rule.conclusion| && rule.conclusion[k] == c;
    VariablesOf(rule.conclusion, k);
    SameInstance(c, m, n);
    assert Fires(rule, facts, pick, n, t);
  }

  lemma {:induction false} VariablesOf(ps: seq<TriplePattern>, k: nat)
    requires k < |ps|
    ensures PatternVariables(ps[k]) <= Variables(ps)
  {
    if k > 0 {
      VariablesOf(ps[1..], k - 1);
    }
  }

  lemma {:induction false} AllBound(ps: seq<TriplePattern>, m: Binding)
    requires forall k | 0 <= k < |ps| :: Instance(ps[k], m).Some?
    ensures Variables(ps) <= m.Keys
  {
    if ps != [] {
      assert Instance(ps[0], m).Some?;
      assert forall k | 0 <= k < |ps[1..]| :: ps[1..][k] == ps[k + 1];
      AllBound(ps[1..], m);
    }
  }

  lemma SameInstance(p: TriplePattern, m: Binding, n: Binding)
    requires forall v | v in PatternVariables(p) && v in m :: v in n && n[v] == m[v]
    requires Instance(p, m).Some?
    ensures Instance(p, n) == Instance(p, m)
  {
  }
}
