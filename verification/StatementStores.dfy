/** Every finite set of statements is the contents of some store. */
module StatementStores {
  import opened Options
  import opened Bags
  import opened SetListings
  import opened Triples
  import opened PatternJoin
  import opened BasicGraphPattern

  ghost function Texts(store: set<Statement>): set<string> {
    (set st | st in store :: st.subj) + (set st | st in store :: st.pred) + (set st | st in store :: st.obj)
  }

  /** The identifiers are positions in a listing of the texts. */
  ghost function Numbered(texts: seq<string>): Dictionary {
    map i: nat | i < |texts| :: texts[i]
  }

  ghost function Encoded(texts: seq<string>, st: Statement): Triple
    requires st.subj in texts && st.pred in texts && st.obj in texts
  {
    Triple(Position(texts, st.subj), Position(texts, st.pred), Position(texts, st.obj))
  }

  ghost function EncodeAll(texts: seq<string>, sts: seq<Statement>): (triples: seq<Triple>)
    requires forall st | st in sts :: st.subj in texts && st.pred in texts && st.obj in texts
    ensures |triples| == |sts| && forall i | 0 <= i < |sts| :: triples[i] == Encoded(texts, sts[i])
  {
    seq(|sts|, i requires 0 <= i < |sts| => Encoded(texts, sts[i]))
  }

  lemma EncodedDecodes(texts: seq<string>, st: Statement)
    requires st.subj in texts && st.pred in texts && st.obj in texts
    ensures Decode(Numbered(texts), Encoded(texts, st)) == Some(st)
  {
  }

  lemma EncodingIsInjective(texts: seq<string>, sts: seq<Statement>)
    requires NoDuplicates(sts)
    requires forall st | st in sts :: st.subj in texts && st.pred in texts && st.obj in texts
    ensures NoDuplicates(EncodeAll(texts, sts))
  {
    forall i, j | 0 <= i < j < |sts| ensures EncodeAll(texts, sts)[i] != EncodeAll(texts, sts)[j] {
      EncodedDecodes(texts, sts[i]);
      EncodedDecodes(texts, sts[j]);
    }
  }

  lemma EncodedStatements(texts: seq<string>, sts: seq<Statement>)
    requires forall st | st in sts :: st.subj in texts && st.pred in texts && st.obj in texts
    ensures forall st :: st in Statements(Numbered(texts), EncodeAll(texts, sts)) <==> st in sts
  {
    var dict, triples := Numbered(texts), EncodeAll(texts, sts);
    forall st | st in sts ensures st in Statements(dict, triples) {
      EncodedDecodes(texts, st);
      assert triples[Position(sts, st)] in triples;
    }
    forall st | st in Statements(dict, triples) ensures st in sts {
      var t :| t in triples && Decode(dict, t) == Some(st);
      EncodedDecodes(texts, sts[Position(triples, t)]);
    }
  }

  ghost predicate Covers(texts: seq<string>, sts: seq<Statement>) {
    forall st | st in sts :: st.subj in texts && st.pred in texts && st.obj in texts
  }

  lemma StoreOf(texts: seq<string>, sts: seq<Statement>, store: set<Statement>)
    requires NoDuplicates(texts) && NoDuplicates(sts) && Covers(texts, sts) && forall st :: st in sts <==> st in store
    ensures Interned(Numbered(texts), EncodeAll(texts, sts))
    ensures Statements(Numbered(texts), EncodeAll(texts, sts)) == store
  {
    EncodingIsInjective(texts, sts);
    EncodedStatements(texts, sts);
  }

  lemma SomeStore(store: set<Statement>)
    ensures exists dict: Dictionary, triples: seq<Triple> ::
      Interned(dict, triples) && Statements(dict, triples) == store
  {
    var texts, sts := Listed(Texts(store)), Listed(store);
    forall st | st in sts ensures st.subj in texts && st.pred in texts && st.obj in texts {
      assert {st.subj, st.pred, st.obj} <= Texts(store);
    }
    StoreOf(texts, sts, store);
  }
}
