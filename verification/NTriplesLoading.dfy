/** Loading a document into the store: every term is interned, and the triples decode to what was written. */
module NTriplesLoading {
  import opened Options
  import opened TermText
  import opened TermStore
  import opened PatternJoin
  import opened Triples
  import opened NTriples
  import opened NTriplesRoundTrip

  /** The statement behind the identifiers of a triple. */
  function DecodeTriple(texts: map<nat, string>, quoted: map<nat, TermStore.Components>, t: Triple): Option<Statement>
    requires WellFounded(quoted)
  {
    var s, p := DecodeTerm(texts, quoted, t.subj), DecodeTerm(texts, quoted, t.pred);
    var o := DecodeTerm(texts, quoted, t.obj);
    if s.Some? && p.Some? && o.Some? then Some(Statement(s.value, p.value, o.value)) else None
  }

  /** The triples decode, one by one, to the normal forms of the statements. */
  ghost predicate Represents(texts: map<nat, string>, quoted: map<nat, TermStore.Components>, triples: seq<Triple>,
                             sts: seq<Statement>)
    requires WellFounded(quoted)
  {
    |triples| == |sts| && forall i | 0 <= i < |sts| :: DecodeTriple(texts, quoted, triples[i]) == Some(Stored(sts[i]))
  }

  /** Position by position: subjects, predicates and objects. */
  lemma RepresentedTerms(texts: map<nat, string>, quoted: map<nat, TermStore.Components>, triples: seq<Triple>,
                         sts: seq<Statement>, i: nat)
    requires WellFounded(quoted) && Represents(texts, quoted, triples, sts) && i < |sts|
    ensures DecodeTerm(texts, quoted, triples[i].subj) == Some(Normal(sts[i].subj))
    ensures DecodeTerm(texts, quoted, triples[i].pred) == Some(Normal(sts[i].pred))
    ensures DecodeTerm(texts, quoted, triples[i].obj) == Some(Normal(sts[i].obj))
  {
    assert DecodeTriple(texts, quoted, triples[i]) == Some(Stored(sts[i]));
  }

  lemma TripleStable(texts: map<nat, string>, quoted: map<nat, TermStore.Components>,
                     texts': map<nat, string>, quoted': map<nat, TermStore.Components>, t: Triple)
    requires WellFounded(quoted) && WellFounded(quoted') && Grows(texts, texts') && Grows(quoted, quoted')
    requires DecodeTriple(texts, quoted, t).Some?
    ensures DecodeTriple(texts', quoted', t) == DecodeTriple(texts, quoted, t)
  {
    DecodeStable(texts, quoted, texts', quoted', t.subj);
    DecodeStable(texts, quoted, texts', quoted', t.pred);
    DecodeStable(texts, quoted, texts', quoted', t.obj);
  }

  lemma StaysRepresented(texts: map<nat, string>, quoted: map<nat, TermStore.Components>,
                         texts': map<nat, string>, quoted': map<nat, TermStore.Components>,
                         triples: seq<Triple>, sts: seq<Statement>)
    requires WellFounded(quoted) && WellFounded(quoted') && Grows(texts, texts') && Grows(quoted, quoted')
    requires Represents(texts, quoted, triples, sts)
    ensures Represents(texts', quoted', triples, sts)
  {
    forall i | 0 <= i < |sts| ensures DecodeTriple(texts', quoted', triples[i]) == Some(Stored(sts[i])) {
      TripleStable(texts, quoted, texts', quoted', triples[i]);
    }
  }

  /** Interns the three terms of a statement; None when the identifiers are used up. */
  method EncodeStatement(store: Store, st: Statement) returns (t: Option<Triple>)
    requires store.Valid()
    modifies store
    ensures store.Valid() && Grows(old(store.texts), store.texts) && Grows(old(store.quoted), store.quoted)
    ensures if t.Some? then DecodeTriple(store.texts, store.quoted, t.value) == Some(Stored(st)) else store.Exhausted()
  {
    var s := store.EncodeTermStar(st.subj);
    if s.None? { return None; }
    ghost var texts1, quoted1 := store.texts, store.quoted;
    var p := store.EncodeTermStar(st.pred);
    if p.None? { return None; }
    DecodeStable(texts1, quoted1, store.texts, store.quoted, s.value);
    ghost var texts2, quoted2 := store.texts, store.quoted;
    var o := store.EncodeTermStar(st.obj);
    if o.None? { return None; }
    DecodeStable(texts2, quoted2, store.texts, store.quoted, s.value);
    DecodeStable(texts2, quoted2, store.texts, store.quoted, p.value);
    t := Some(Triple(s.value, p.value, o.value));
  }

  /** One more statement; the triples of the statements `before` it stay readable. */
  method EncodeNext(store: Store, encoded: seq<Triple>, ghost before: seq<Statement>, st: Statement)
    returns (more: Option<seq<Triple>>)
    requires store.Valid() && Represents(store.texts, store.quoted, encoded, before)
    modifies store
    ensures store.Valid()
    ensures if more.Some? then Represents(store.texts, store.quoted, more.value, before + [st]) else store.Exhausted()
  {
    ghost var texts0, quoted0 := store.texts, store.quoted;
    var t := EncodeStatement(store, st);
    if t.None? { return None; }
    StaysRepresented(texts0, quoted0, store.texts, store.quoted, encoded, before);
    more := Some(encoded + [t.value]);
  }

  /** Interns the statements one after the other. */
  method EncodeTriples(store: Store, sts: seq<Statement>) returns (triples: Option<seq<Triple>>)
    requires store.Valid()
    modifies store
    ensures store.Valid()
    ensures if triples.Some? then Represents(store.texts, store.quoted, triples.value, sts) else store.Exhausted()
  {
    triples := Some([]);
    for i := 0 to |sts|
      invariant store.Valid()
      invariant triples.Some? && Represents(store.texts, store.quoted, triples.value, sts[..i])
    {
      triples := EncodeNext(store, triples.value, sts[..i], sts[i]);
      if triples.None? { return; }
      assert sts[..i + 1] == sts[..i] + [sts[i]];
    }
  }

  /** The decoded contents of a set of triples. */
  ghost function Contents(texts: map<nat, string>, quoted: map<nat, TermStore.Components>,
                          triples: set<Triple>): set<Option<Statement>>
    requires WellFounded(quoted)
  {
    set t | t in triples :: DecodeTriple(texts, quoted, t)
  }

  /** Loading parses the document, interns the statements and inserts the triples into an empty set. */
  method LoadDocument(store: Store, text: string) returns (loaded: Option<set<Triple>>)
    requires store.Valid()
    modifies store
    ensures store.Valid()
    ensures loaded.Some? ==> Contents(store.texts, store.quoted, loaded.value) == set st | st in Load(text) :: Some(st)
    ensures loaded.None? ==> store.Exhausted()
  {
    var sts := ParseDocument(text);
    var triples := EncodeTriples(store, sts);
    if triples.None? { return None; }
    loaded := Some(set t | t in triples.value);
    SameContents(store.texts, store.quoted, triples.value, sts);
  }

  lemma SameContents(texts: map<nat, string>, quoted: map<nat, TermStore.Components>, triples: seq<Triple>,
                     sts: seq<Statement>)
    requires WellFounded(quoted) && Represents(texts, quoted, triples, sts)
    ensures Contents(texts, quoted, set t | t in triples) == set st | st in sts :: Some(Stored(st))
  {
  }

  /** What was serialized from one store is what the other store holds after loading. */
  method Reload(store: Store, sts: seq<Statement>) returns (loaded: Option<set<Triple>>)
    requires store.Valid() && AllLoadable(sts)
    modifies store
    ensures store.Valid()
    ensures loaded.Some? ==> Contents(store.texts, store.quoted, loaded.value) == set st | st in sts :: Some(st)
    ensures loaded.None? ==> store.Exhausted()
  {
    StoreRoundTrip(sts);
    loaded := LoadDocument(store, WriteNTriples(sts));
  }

  // ---------------------------------------------------------------- a simple condition

  /** A term without white space around it, line breaks, backslashes, quotes or closing brackets, that does not begin
      with an opening bracket. */
  predicate PlainTerm(s: string) {
    && Trimmed(s) && (s == [] || s[0] != '<')
    && forall i | 0 <= i < |s| :: s[i] != '\n' && s[i] != '\\' && s[i] != '"' && s[i] != '>'
  }

  lemma {:induction false} NothingCloses(end: char, s: string)
    requires forall i | 0 <= i < |s| :: s[i] != '\\' && s[i] != end
    ensures NeverCloses(end, s) && !Pending(false, s)
  {
    if s != [] {
      forall i | 0 <= i < |s[1..]| ensures s[1..][i] != '\\' && s[1..][i] != end {
        assert s[1..][i] == s[i + 1];
      }
      NothingCloses(end, s[1..]);
    }
  }

  lemma PlainTermLoads(s: string)
    requires PlainTerm(s)
    ensures LoadableUri(s) && LoadableObject(s)
  {
    NothingCloses('>', s);
    assert !("<<" <= s);
  }

  /** Statements of plain terms, and of quoted triples of plain tokens as subjects and objects, survive writing and
      loading. */
  lemma PlainStoresLoad(sts: seq<Statement>)
    requires forall st | st in sts ::
      && (PlainTerm(st.subj) || PlainQuoted(st.subj))
      && PlainTerm(st.pred)
      && (PlainTerm(st.obj) || PlainQuoted(st.obj))
    ensures Load(WriteNTriples(sts)) == set st | st in sts
  {
    forall st | st in sts ensures Loadable(st) {
      if PlainTerm(st.subj) {
        PlainTermLoads(st.subj);
      }
      PlainTermLoads(st.pred);
      if PlainTerm(st.obj) {
        PlainTermLoads(st.obj);
      }
    }
    StoreRoundTrip(sts);
  }
}
