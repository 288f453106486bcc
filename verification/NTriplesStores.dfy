/** Exactly which stores survive writing and loading. That the set of statements is the same could also come about by
    statements turning into one another; measures that loading only moves in one direction exclude it. */
module NTriplesStores {
  import opened Options
  import opened Bags
  import opened SetListings
  import opened TermText
  import opened TermStore
  import opened PatternJoin
  import opened NTriples
  import opened NTriplesRoundTrip
  import opened NTriplesExactly

  // ---------------------------------------------------------------- measures along a permutation

  function Total<T>(m: T -> nat, s: seq<T>): nat {
    if s == [] then 0 else m(s[0]) + Total(m, s[1..])
  }

  lemma {:induction false} TotalAppend<T>(m: T -> nat, a: seq<T>, b: seq<T>)
    ensures Total(m, a + b) == Total(m, a) + Total(m, b)
  {
    if a == [] {
      assert a + b == b;
    } else {
      assert (a + b)[1..] == a[1..] + b;
      TotalAppend(m, a[1..], b);
    }
  }

  lemma {:induction false} TotalPermuted<T>(m: T -> nat, a: seq<T>, b: seq<T>)
    requires multiset(a) == multiset(b)
    ensures Total(m, a) == Total(m, b)
    decreases |a|
  {
    if a == [] {
      assert |multiset(b)| == 0;
      assert b == [];
    } else {
      var k := FirstOccurrence(a, b);
      TotalPermuted(m, a[1..], b[..k] + b[k + 1..]);
      TotalAppend(m, b[..k], b[k + 1..]);
      TotalAppend(m, b[..k], [b[k]] + b[k + 1..]);
      assert b == b[..k] + ([b[k]] + b[k + 1..]);
    }
  }

  lemma {:induction false} TotalCompared<T>(m: T -> nat, a: seq<T>, b: seq<T>)
    requires |a| == |b| && forall i | 0 <= i < |a| :: m(a[i]) <= m(b[i])
    ensures Total(m, a) <= Total(m, b)
    ensures Total(m, a) == Total(m, b) ==> forall i | 0 <= i < |a| :: m(a[i]) == m(b[i])
  {
    if a != [] {
      forall i | 0 <= i < |a[1..]| ensures m(a[1..][i]) <= m(b[1..][i]) {
        assert a[1..][i] == a[i + 1] && b[1..][i] == b[i + 1];
      }
      TotalCompared(m, a[1..], b[1..]);
      if Total(m, a) == Total(m, b) {
        forall i | 0 <= i < |a| ensures m(a[i]) == m(b[i]) {
          assert i > 0 ==> a[i] == a[1..][i - 1] && b[i] == b[1..][i - 1];
        }
      }
    }
  }

  /** A measure that never falls along a permutation stays the same everywhere. */
  lemma Stationary<T>(m: T -> nat, a: seq<T>, b: seq<T>)
    requires |a| == |b| && multiset(a) == multiset(b) && forall i | 0 <= i < |a| :: m(a[i]) <= m(b[i])
    ensures forall i | 0 <= i < |a| :: m(a[i]) == m(b[i])
  {
    TotalPermuted(m, a, b);
    TotalCompared(m, a, b);
  }

  // ---------------------------------------------------------------- what becomes of an identifier

  /** The scanner stops at a bracket inside the text ... */
  predicate Cut(s: string, y: string) {
    |y| < |s| && y == s[..|y|] && s[|y|] == '>'
  }

  /** ... or reads all of it ... */
  predicate Whole(s: string, y: string) {
    y == s && !Pending(false, s)
  }

  /** ... or goes on behind an escaped closing bracket, at least up to the next part. */
  predicate Longer(s: string, y: string) {
    Pending(false, s) && s != [] && s[|s| - 1] == '\\' && |y| >= |s| + 3 && y[..|s|] == s && !IsBlank(y[|s| + 2])
  }

  ghost predicate Found(s: string, y: string) {
    NeverCloses('>', y) && if NeverCloses('>', s) then Whole(s, y) || Longer(s, y) else Cut(s, y)
  }

  /** An identifier comes back as another one. */
  ghost predicate Rewrites(s: string, t: string) {
    (s == [] || s[0] != '<') && exists y :: Found(s, y) && t == Cleaned(Trim(y))
  }

  lemma {:induction false} NothingBefore(end: char, escaped: bool, s: string, n: nat)
    requires n <= |s| && (CloseAt(end, escaped, s).Some? ==> n <= CloseAt(end, escaped, s).value)
    ensures CloseAt(end, escaped, s[..n]).None?
    decreases n
  {
    if n > 0 {
      assert s[..n][1..] == s[1..][..n - 1] && s[..n][0] == s[0];
      NothingBefore(end, !escaped && s[0] == '\\', s[1..], n - 1);
    }
  }

  lemma FoundBehind(s: string, k: string, m: nat)
    requires MoreBehind(k) && CloseAt('>', false, s + (">" + k)) == Some(m)
    ensures Found(s, (s + (">" + k))[..m])
  {
    var text := s + (">" + k);
    CloseBehind('>', false, s, ">" + k);
    NothingBefore('>', false, text, m);
    if !NeverCloses('>', s) {
      assert text[..m] == s[..m];
    } else {
      if Pending(false, s) {
        ClosedBehind(k);
        PendingEnds(false, s);
        assert text[..m][..|s|] == s && text[|s| + 2] == k[1];
      } else {
        assert text[..m] == s;
      }
    }
  }

  /** What a part in brackets comes back as, unless as a quoted triple. */
  lemma IdentifierRewrites(parts: seq<string>, s: string, k: string)
    requires !HasPrefix(s, "<<") && MoreBehind(k)
    ensures var found := FinishLine(ScanLine(Between(parts), Bracketed(s) + k));
      |found| > |parts| + 1 && !HasPrefix(Reread(found[|parts|]), "<<") ==> Rewrites(s, Reread(found[|parts|]))
  {
    var found := FinishLine(ScanLine(Between(parts), Bracketed(s) + k));
    if s != [] && s[0] == '<' {
      BracketOpensTriple(parts, s, k);
      if |found| > |parts| + 1 {
        QuotedReread(found[|parts|]);
      }
    } else if CloseAt('>', false, s + (">" + k)).None? {
      NotClosed(parts, s, k);
    } else {
      var m := CloseAt('>', false, s + (">" + k)).value;
      UriFound(parts, s, k, m);
      CutRewrites(s, k, m);
    }
  }

  lemma CutRewrites(s: string, k: string, m: nat)
    requires (s == [] || s[0] != '<') && MoreBehind(k) && CloseAt('>', false, s + (">" + k)) == Some(m)
    ensures var found := Normal((s + (">" + k))[..m]); !HasPrefix(found, "<<") ==> Rewrites(s, found)
  {
    FoundBehind(s, k, m);
    FoundRewrites(s, (s + (">" + k))[..m]);
  }

  lemma FoundRewrites(s: string, y: string)
    requires (s == [] || s[0] != '<') && Found(s, y)
    ensures !HasPrefix(Normal(y), "<<") ==> Rewrites(s, Normal(y))
  {
    NormalKinds(y);
    if !HasPrefix(Normal(y), "<<") {
      assert Normal(y) == Cleaned(Trim(y));
    }
  }

  // ---------------------------------------------------------------- identifiers begin plainly

  predicate IsShell(c: char) {
    IsBlank(c) || c == '<' || c == '"'
  }

  /** How many characters that loading may strip the text begins with. */
  function Shell(s: string): nat {
    if s != [] && IsShell(s[0]) then 1 + Shell(s[1..]) else 0
  }

  lemma {:induction false} ShellOfFront(s: string, n: nat)
    requires n <= |s|
    ensures Shell(s[..n]) <= Shell(s)
    ensures n > 0 && !IsShell(s[n - 1]) ==> Shell(s[..n]) == Shell(s)
  {
    if n > 0 {
      assert s[..n][1..] == s[1..][..n - 1] && s[..n][0] == s[0];
      if n > 1 {
        assert s[1..][n - 2] == s[n - 1];
      }
      ShellOfFront(s[1..], n - 1);
    }
  }

  lemma {:induction false} ShellOfTrimStart(s: string)
    ensures Shell(TrimStart(s)) <= Shell(s)
    ensures s != [] && IsBlank(s[0]) ==> Shell(TrimStart(s)) < Shell(s)
  {
    if s != [] && IsBlank(s[0]) {
      ShellOfTrimStart(s[1..]);
    }
  }

  lemma {:induction false} TrimEndIsFront(s: string)
    ensures TrimEnd(s) <= s
  {
    if s != [] && IsBlank(s[|s| - 1]) {
      TrimEndIsFront(s[..|s| - 1]);
    }
  }

  lemma ShellOfTrim(y: string)
    ensures Shell(Trim(y)) <= Shell(y)
    ensures y != [] && IsBlank(y[0]) ==> Shell(Trim(y)) < Shell(y)
  {
    var t := TrimStart(y);
    ShellOfTrimStart(y);
    TrimEndIsFront(t);
    ShellOfFront(t, |TrimEnd(t)|);
    assert t[..|TrimEnd(t)|] == TrimEnd(t);
  }

  lemma ShellOfCleaned(t: string)
    ensures Shell(Cleaned(t)) <= Shell(t)
    ensures t != [] && t[0] == '"' ==> Shell(Cleaned(t)) < Shell(t)
  {
    if |t| >= 2 && t[0] == '<' && t[|t| - 1] == '>' {
      ShellOfMiddle(t, |t| - 1);
    } else if t != [] && t[0] == '"' {
      var close := Find('"', t[1..]);
      var n := if close.Some? then close.value + 1 else |t|;
      assert Cleaned(t) == t[1..n];
      ShellOfMiddle(t, n);
    } else {
      assert Cleaned(t) == t;
    }
  }

  lemma ShellOfMiddle(t: string, n: nat)
    requires 0 < n <= |t| && IsShell(t[0])
    ensures Shell(t[1..n]) < Shell(t)
  {
    ShellOfFront(t[1..], n - 1);
    assert t[1..][..n - 1] == t[1..n];
  }

  lemma ShellOfFound(s: string, y: string)
    requires Found(s, y)
    ensures Shell(y) <= Shell(s) && (s != [] && IsShell(s[0]) ==> y != [] && y[0] == s[0])
  {
    if Cut(s, y) {
      ShellOfFront(s, |y|);
    } else if Longer(s, y) {
      ShellOfFront(y, |s|);
    }
  }

  /** Loading strips such characters from the front of an identifier until there are none. */
  lemma ShellFalls(s: string, t: string)
    requires Rewrites(s, t)
    ensures Shell(t) <= Shell(s) && (s != [] && IsShell(s[0]) ==> Shell(t) < Shell(s))
  {
    var y :| Found(s, y) && t == Cleaned(Trim(y));
    ShellOfFound(s, y);
    ShellOfTrim(y);
    ShellOfCleaned(Trim(y));
    if s != [] && s[0] == '"' {
      TrimEndIsFront(y);
      assert TrimStart(y) == y && TrimEnd(y) != [] by {
        TrimEndKeepsFirst(y);
      }
    }
  }

  lemma {:induction false} TrimEndKeepsFirst(y: string)
    requires y != [] && !IsBlank(y[0])
    ensures TrimEnd(y) != [] && TrimEnd(y)[0] == y[0]
  {
    if IsBlank(y[|y| - 1]) {
      assert y[..|y| - 1][0] == y[0];
      TrimEndKeepsFirst(y[..|y| - 1]);
    }
  }

  // ---------------------------------------------------------------- then they only grow

  predicate BeginsPlainly(s: string) {
    s == [] || !IsShell(s[0])
  }

  /** An identifier that begins plainly loses nothing but white space at the end. */
  lemma PlainFound(s: string, y: string)
    requires Found(s, y) && BeginsPlainly(s)
    ensures Cleaned(Trim(y)) == TrimEnd(y) && Trimmed(TrimEnd(y)) && NeverCloses('>', TrimEnd(y))
  {
    if y != [] {
      assert y[0] == s[0];
      TrimEndKeepsFirst(y);
    }
    assert TrimStart(y) == y;
    TrimEndIsFront(y);
    TrimEndLast(y);
    NothingBefore('>', false, y, |TrimEnd(y)|);
    assert y[..|TrimEnd(y)|] == TrimEnd(y);
  }

  /** It comes back trimmed and never closing. */
  lemma PlainComesBack(s: string, t: string)
    requires Rewrites(s, t) && BeginsPlainly(s)
    ensures Trimmed(t) && NeverCloses('>', t)
    ensures NeverCloses('>', s) && Trimmed(s) ==> |s| <= |t| && (|s| == |t| ==> !Pending(false, s))
  {
    var y :| Found(s, y) && t == Cleaned(Trim(y));
    PlainFound(s, y);
    if NeverCloses('>', s) && Trimmed(s) {
      GrowsUnlessWhole(s, y);
    }
  }

  lemma GrowsUnlessWhole(s: string, y: string)
    requires Found(s, y) && NeverCloses('>', s) && Trimmed(s)
    ensures |s| <= |TrimEnd(y)| && (|s| == |TrimEnd(y)| ==> !Pending(false, s))
  {
    if Longer(s, y) {
      var front, back := y[..|s| + 3], y[|s| + 3..];
      assert front[|front| - 1] == y[|s| + 2];
      TrimEndBehind(front, back);
      assert front + back == y;
    } else {
      TrimEndTrimmed(s);
    }
  }

  lemma TrimEndTrimmed(s: string)
    requires Trimmed(s)
    ensures TrimEnd(s) == s
  {
  }

  /** Along a permutation that rewrites the identifiers every one of them is one already. */
  lemma IdentifiersSettle(field: Statement -> string, a: seq<Statement>, b: seq<Statement>)
    requires |a| == |b| && multiset(a) == multiset(b)
    requires forall i | 0 <= i < |a| :: Rewrites(field(a[i]), field(b[i]))
    ensures forall i | 0 <= i < |a| :: IsIdentifier(field(a[i]))
  {
    AllBeginPlainly(field, a, b);
    forall i | 0 <= i < |b| ensures Trimmed(field(b[i])) && NeverCloses('>', field(b[i])) {
      PlainComesBack(field(a[i]), field(b[i]));
    }
    var length := (st: Statement) => |field(st)|;
    forall i | 0 <= i < |a|
      ensures Trimmed(field(a[i])) && NeverCloses('>', field(a[i])) && length(a[i]) <= length(b[i])
    {
      assert a[i] in multiset(b);
      var j :| 0 <= j < |b| && b[j] == a[i];
      PlainComesBack(field(a[i]), field(b[i]));
    }
    Stationary(length, a, b);
    forall i | 0 <= i < |a| ensures IsIdentifier(field(a[i])) {
      assert length(a[i]) == length(b[i]);
      PlainComesBack(field(a[i]), field(b[i]));
    }
  }

  lemma AllBeginPlainly(field: Statement -> string, a: seq<Statement>, b: seq<Statement>)
    requires |a| == |b| && multiset(a) == multiset(b)
    requires forall i | 0 <= i < |a| :: Rewrites(field(a[i]), field(b[i]))
    ensures forall i | 0 <= i < |a| :: BeginsPlainly(field(a[i]))
  {
    var shell := (st: Statement) => Shell(field(st));
    forall i | 0 <= i < |a| ensures shell(b[i]) <= shell(a[i]) {
      ShellFalls(field(a[i]), field(b[i]));
    }
    Stationary(shell, b, a);
    forall i | 0 <= i < |a| ensures BeginsPlainly(field(a[i])) {
      assert shell(b[i]) == shell(a[i]);
      ShellFalls(field(a[i]), field(b[i]));
    }
  }

  // ---------------------------------------------------------------- what becomes of an object

  /** The first quote moves to the back. */
  predicate QuoteMoves(o: string, t: string) {
    var i, j := Find('"', o), Find('"', t);
    i.Some? && j.Some? && i.value < j.value
  }

  /** An object does not get longer; when it stays as long, it stays the same and is loadable, or its first quote
      moves. */
  predicate ObjectStep(o: string, t: string) {
    |t| <= |o| && (|t| == |o| ==> (t == o && LoadableObject(o)) || QuoteMoves(o, t))
  }

  lemma NormalShortens(y: string)
    requires !HasPrefix(Normal(y), "<<")
    ensures |Normal(y)| <= |y| && (|Normal(y)| == |y| ==> Normal(y) == y && Trimmed(y) && Cleaned(y) == y)
  {
    NormalKinds(y);
    TrimShortens(y);
    CleanedShortens(Trim(y));
  }

  lemma WebCut(parts: seq<string>, o: string, m: nat)
    requires IsWebAddress(o) && CloseAt('>', false, o) == Some(m)
    ensures var found := FinishLine(ScanLine(Between(parts), Bracketed(o)));
      |found| > |parts| && Reread(found[|parts|]) == Normal(o[..m])
  {
    CloseBehind('>', false, o, ">" + "");
    UriFound(parts, o, "", m);
    BracketedPieces(o, "");
    assert (o + ">")[..m] == o[..m];
  }

  lemma WebStep(parts: seq<string>, o: string)
    requires IsWebAddress(o) && !Has('\n', o)
    ensures var found := FinishLine(ScanLine(Between(parts), Bracketed(o)));
      |found| == |parts| + 1 && !HasPrefix(Reread(found[|parts|]), "<<") ==> ObjectStep(o, Reread(found[|parts|]))
  {
    var found := FinishLine(ScanLine(Between(parts), Bracketed(o)));
    if CloseAt('>', false, o).Some? {
      var m := CloseAt('>', false, o).value;
      WebCut(parts, o, m);
      if !HasPrefix(Normal(o[..m]), "<<") {
        NormalShortens(o[..m]);
      }
    } else {
      WebPart(parts, o);
      CleanUri(o);
      if !HasPrefix(Normal(o), "<<") {
        NormalShortens(o);
      }
    }
  }

  lemma FirstQuoteMoves(o: string, i: nat)
    requires Find('"', o) == Some(i) && HasPrefix(o[i + 1..] + "\"", "@")
    ensures QuoteMoves(o, o[..i] + (o[i + 1..] + "\""))
  {
    var rest := o[i + 1..] + "\"";
    FindFirst('"', o);
    FindIn('"', o[..i], rest);
    assert rest[0] == '@' && rest[|rest| - 1] == '"';
    FindSome('"', rest, |rest| - 1);
  }

  lemma {:induction false} FindSome(c: char, s: string, k: nat)
    requires k < |s| && s[k] == c
    ensures Find(c, s).Some? && (s[0] != c ==> Find(c, s).value > 0)
  {
    if s[0] != c {
      FindSome(c, s[1..], k - 1);
    }
  }

  lemma LiteralStep(o: string)
    requires !IsWebAddress(o) && !Has('\n', o) && !HasPrefix(o, "<<")
    requires !HasPrefix(Reread("\"" + o + "\""), "<<")
    ensures ObjectStep(o, Reread("\"" + o + "\""))
  {
    if !Has('"', o) {
      CleanLiteral(o);
      NormalShortens(o);
    } else {
      FindFirst('"', o);
      var i := Find('"', o).value;
      if HasPrefix(o[i + 1..] + "\"", "@") {
        TaggedCleans(o, i);
        NormalShortens(o[..i] + (o[i + 1..] + "\""));
        FirstQuoteMoves(o, i);
      } else {
        QuotedCleans(o, i);
        if Reread("\"" + o + "\"") == Normal(o[..i]) {
          NormalShortens(o[..i]);
        }
      }
    }
  }

  lemma ObjectRewrites(parts: seq<string>, o: string)
    requires !HasPrefix(o, "<<") && !Has('\n', o)
    ensures var found := FinishLine(ScanLine(Between(parts), WriteObject(o)));
      |found| == |parts| + 1 && !HasPrefix(Reread(found[|parts|]), "<<") ==> ObjectStep(o, Reread(found[|parts|]))
  {
    if IsWebAddress(o) {
      WebStep(parts, o);
    } else {
      LiteralPart(parts, o);
      if !HasPrefix(Reread("\"" + o + "\""), "<<") {
        LiteralStep(o);
      }
    }
  }

  function FirstQuote(o: string): nat {
    if Find('"', o).Some? then Find('"', o).value else 0
  }

  lemma ObjectsSettle(a: seq<Statement>, b: seq<Statement>)
    requires |a| == |b| && multiset(a) == multiset(b)
    requires forall i | 0 <= i < |a| :: ObjectStep(a[i].obj, b[i].obj)
    ensures forall i | 0 <= i < |a| :: LoadableObject(a[i].obj)
  {
    var length, quote := (st: Statement) => |st.obj|, (st: Statement) => FirstQuote(st.obj);
    Stationary(length, b, a);
    forall i | 0 <= i < |a| ensures |b[i].obj| == |a[i].obj| && quote(a[i]) <= quote(b[i]) {
      assert length(b[i]) == length(a[i]);
    }
    Stationary(quote, a, b);
    forall i | 0 <= i < |a| ensures LoadableObject(a[i].obj) {
      assert quote(a[i]) == quote(b[i]);
    }
  }

  // ---------------------------------------------------------------- what becomes of a statement

  /** The statement that is loaded from the line written for `st`. */
  function Image(st: Statement): Option<Statement> {
    var p := ParseLine(Written3(st));
    if p.Some? then Some(Stored(p.value)) else None
  }

  ghost predicate Ordinary(st: Statement) {
    NoTriples(st) && NoBreaks(st)
  }

  lemma ImageParts(st: Statement, image: Statement)
    requires Image(st) == Some(image)
    ensures ReadAs(FinishLine(ScanLine(Between([]), Written3(st))), image)
  {
  }

  lemma SubjectRewrites(st: Statement, image: Statement)
    requires Ordinary(st) && NoTriples(image) && Image(st) == Some(image)
    ensures Rewrites(st.subj, image.subj)
  {
    ImageParts(st, image);
    PredicateBehind(st.pred, " " + WriteObject(st.obj));
    SubjectFound(st.subj, " " + (Bracketed(st.pred) + (" " + WriteObject(st.obj))), image);
  }

  lemma PredicateBehind(p: string, k: string)
    ensures MoreBehind(" " + (Bracketed(p) + k))
  {
  }

  lemma SubjectFound(s: string, k: string, image: Statement)
    requires !HasPrefix(s, "<<") && !HasPrefix(image.subj, "<<") && MoreBehind(k)
    requires ReadAs(FinishLine(ScanLine(Between([]), Bracketed(s) + k)), image)
    ensures Rewrites(s, image.subj)
  {
    IdentifierRewrites([], s, k);
  }

  lemma PredicateRewrites(st: Statement, image: Statement)
    requires Ordinary(st) && NoTriples(image) && Image(st) == Some(image) && LoadableUri(st.subj)
    ensures Rewrites(st.pred, image.pred)
  {
    ImageBehindSubject(st, image);
    ObjectBehind(st.obj);
    PredicateFound([WriteSubject(st.subj)], st.pred, " " + WriteObject(st.obj), image);
  }

  lemma ObjectBehind(o: string)
    ensures MoreBehind(" " + WriteObject(o))
  {
    assert HasPrefix(o, "<<") ==> o[0] == '<';
  }

  lemma ImageBehindSubject(st: Statement, image: Statement)
    requires Image(st) == Some(image) && LoadableUri(st.subj)
    ensures var rest := Bracketed(st.pred) + (" " + WriteObject(st.obj));
      ReadAs(FinishLine(ScanLine(Between([WriteSubject(st.subj)]), rest)), image)
  {
    ImageParts(st, image);
    SecondPart(st);
  }

  lemma PredicateFound(parts: seq<string>, p: string, k: string, image: Statement)
    requires |parts| == 1 && !HasPrefix(p, "<<") && !HasPrefix(image.pred, "<<") && MoreBehind(k)
    requires ReadAs(FinishLine(ScanLine(Between(parts), Bracketed(p) + k)), image)
    ensures Rewrites(p, image.pred)
  {
    UriPartOnly(parts, p, k);
    IdentifierRewrites(parts, p, k);
  }

  lemma ObjectMoves(st: Statement, image: Statement)
    requires Ordinary(st) && NoTriples(image) && Image(st) == Some(image)
    requires LoadableUri(st.subj) && LoadableUri(st.pred)
    ensures ObjectStep(st.obj, image.obj)
  {
    ImageParts(st, image);
    ThirdPart(st);
    ObjectRewrites([WriteSubject(st.subj), Bracketed(st.pred)], st.obj);
  }

  ghost predicate AllOrdinary(sts: seq<Statement>) {
    forall st | st in sts :: Ordinary(st)
  }

  lemma OrdinaryMember(xs: seq<Statement>, x: Statement)
    requires AllOrdinary(xs) && x in xs
    ensures Ordinary(x) && NoTriples(x)
  {
  }

  lemma PermutedAreLoadable(a: seq<Statement>, b: seq<Statement>)
    requires |a| == |b| && multiset(a) == multiset(b) && AllOrdinary(a) && AllOrdinary(b)
    requires forall i | 0 <= i < |a| :: Image(a[i]) == Some(b[i])
    ensures forall i | 0 <= i < |a| :: Loadable(a[i])
  {
    forall i | 0 <= i < |a| ensures Rewrites(a[i].subj, b[i].subj) && Ordinary(a[i]) && NoTriples(b[i]) {
      OrdinaryMember(a, a[i]);
      OrdinaryMember(b, b[i]);
      SubjectRewrites(a[i], b[i]);
    }
    IdentifiersSettle((st: Statement) => st.subj, a, b);
    forall i | 0 <= i < |a| ensures Rewrites(a[i].pred, b[i].pred) {
      PredicateRewrites(a[i], b[i]);
    }
    IdentifiersSettle((st: Statement) => st.pred, a, b);
    forall i | 0 <= i < |a| ensures ObjectStep(a[i].obj, b[i].obj) {
      ObjectMoves(a[i], b[i]);
    }
    ObjectsSettle(a, b);
  }

  // ---------------------------------------------------------------- whole stores

  ghost predicate HasPreimage(sts: seq<Statement>, s: Statement) {
    exists st | st in sts :: Image(st) == Some(s)
  }

  lemma OrdinaryRest(sts: seq<Statement>, s: Statement)
    requires AllOrdinary(sts) && sts != []
    ensures Ordinary(sts[0]) && AllOrdinary(sts[1..]) && sts == [sts[0]] + sts[1..]
    ensures HasPreimage(sts, s) <==> Image(sts[0]) == Some(s) || HasPreimage(sts[1..], s)
  {
    var first, rest := sts[0], sts[1..];
    assert first in sts && forall st | st in rest :: st in sts;
    assert forall st | st in sts :: st == first || st in rest;
  }

  lemma FirstLoaded(st: Statement, rest: seq<Statement>, s: Statement)
    requires Ordinary(st)
    ensures s in Load(WriteNTriples([st] + rest)) <==> Image(st) == Some(s) || s in Load(WriteNTriples(rest))
  {
    WrittenEnds(st);
    WrittenBreaks(st);
    FirstOfDocument(st, rest);
    DottedLine(Written3(st));
    LoadFirst(Written3(st), WriteNTriples([st] + rest), WriteNTriples(rest), s);
  }

  lemma {:induction false} LoadedImages(sts: seq<Statement>, s: Statement)
    requires AllOrdinary(sts)
    ensures s in Load(WriteNTriples(sts)) <==> HasPreimage(sts, s)
  {
    if sts == [] {
      assert ParseNTriples(WriteNTriples([])) == [];
    } else {
      OrdinaryRest(sts, s);
      LoadedImages(sts[1..], s);
      FirstLoaded(sts[0], sts[1..], s);
    }
  }

  lemma LoadFirst(line: string, text: string, more: string, s: Statement)
    requires ParseNTriples(text) == (var p := ParseLine(line); if p.Some? then [p.value] else []) + ParseNTriples(more)
    ensures s in Load(text) <==> (ParseLine(line).Some? && Stored(ParseLine(line).value) == s) || s in Load(more)
  {
  }

  ghost function Preimage(xs: seq<Statement>, x: Statement): (z: Statement)
    requires HasPreimage(xs, x)
    ensures z in xs && Image(z) == Some(x)
  {
    var z :| z in xs && Image(z) == Some(x);
    z
  }

  ghost predicate Covered(xs: seq<Statement>) {
    forall i | 0 <= i < |xs| :: HasPreimage(xs, xs[i])
  }

  ghost function Preimages(xs: seq<Statement>): (zs: seq<Statement>)
    requires Covered(xs)
    ensures |zs| == |xs| && forall i | 0 <= i < |xs| :: zs[i] in xs && Image(zs[i]) == Some(xs[i])
  {
    seq(|xs|, i requires 0 <= i < |xs| => Preimage(xs, xs[i]))
  }

  /** When every element is the value of one, these permute the elements. */
  lemma PreimagesPermute<T(!new)>(f: T -> Option<T>, zs: seq<T>, xs: seq<T>)
    requires NoDuplicates(xs) && |zs| == |xs| && forall i | 0 <= i < |xs| :: zs[i] in xs && f(zs[i]) == Some(xs[i])
    ensures multiset(zs) == multiset(xs)
  {
    forall i, j | 0 <= i < j < |zs| ensures zs[i] != zs[j] {
      assert f(zs[i]) == Some(xs[i]) && f(zs[j]) == Some(xs[j]);
    }
    SameMembers(zs, xs);
  }

  /** Among the stores without quoted triples, exactly those all of whose statements are loadable come back, as sets of
      statements, from the document that is written for them. */
  lemma StoreExactly(sts: seq<Statement>)
    requires forall st | st in sts :: NoTriples(st)
    ensures Load(WriteNTriples(sts)) == (set st | st in sts) <==> AllLoadable(sts)
  {
    if AllLoadable(sts) {
      StoreRoundTrip(sts);
    } else if Load(WriteNTriples(sts)) == set st | st in sts {
      ReloadedIsLoadable(sts);
    }
  }

  lemma ReloadedIsOrdinary(sts: seq<Statement>)
    requires forall st | st in sts :: NoTriples(st)
    requires Load(WriteNTriples(sts)) == set st | st in sts
    ensures AllOrdinary(sts)
  {
    forall st | st in sts ensures Ordinary(st) {
      assert st in Load(WriteNTriples(sts));
      LoadedOnOneLine(WriteNTriples(sts), st);
    }
  }

  lemma ReloadedIsCovered(sts: seq<Statement>, xs: seq<Statement>)
    requires AllOrdinary(sts) && Load(WriteNTriples(sts)) == set st | st in sts
    requires forall st :: st in xs <==> st in sts
    ensures Covered(xs)
  {
    forall i | 0 <= i < |xs| ensures HasPreimage(xs, xs[i]) {
      LoadedImages(sts, xs[i]);
      assert xs[i] in sts && xs[i] in Load(WriteNTriples(sts));
      var z :| z in sts && Image(z) == Some(xs[i]);
      assert z in xs;
    }
  }

  lemma OrdinaryMembers(zs: seq<Statement>, xs: seq<Statement>)
    requires AllOrdinary(xs) && multiset(zs) == multiset(xs)
    ensures AllOrdinary(zs)
  {
    forall z | z in zs ensures Ordinary(z) {
      assert z in multiset(xs);
      OrdinaryMember(xs, z);
    }
  }

  lemma CoveredIsLoadable(xs: seq<Statement>)
    requires NoDuplicates(xs) && Covered(xs) && AllOrdinary(xs)
    ensures AllLoadable(xs)
  {
    var zs := Preimages(xs);
    PreimagesPermute(Image, zs, xs);
    OrdinaryMembers(zs, xs);
    PermutedAreLoadable(zs, xs);
    forall st | st in xs ensures Loadable(st) {
      var i := Occurs(zs, xs, st);
    }
  }

  lemma ReloadedIsLoadable(sts: seq<Statement>)
    requires forall st | st in sts :: NoTriples(st)
    requires Load(WriteNTriples(sts)) == set st | st in sts
    ensures AllLoadable(sts)
  {
    var xs := Listed(set st | st in sts);
    ReloadedIsOrdinary(sts);
    ReloadedIsCovered(sts, xs);
    CoveredIsLoadable(xs);
  }
}
