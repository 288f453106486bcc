/** The dictionary and the store of quoted triples: texts of terms to identifiers and back. */
module TermStore {
  import opened Options
  import opened TermText
  import opened QuotedTriples

  /** Identifiers of plain terms lie below this bound, those of quoted triples at or above it. */
  const QUOTED_BIT: nat := 0x8000_0000
  const ID_LIMIT: nat := 0x1_0000_0000

  type Components = (nat, nat, nat)

  // ---------------------------------------------------------------- texts

  function Find(c: char, s: string): (r: Option<nat>)
    ensures r.Some? ==> r.value < |s| && s[r.value] == c
  {
    if s == [] then None
    else if s[0] == c then Some(0)
    else
      var r := Find(c, s[1..]);
      if r.None? then None else Some(r.value + 1)
  }

  /** A plain term without the brackets of an identifier or the quotes of a literal. */
  function Cleaned(t: string): (r: string)
    ensures |r| <= |t|
  {
    if |t| >= 2 && t[0] == '<' && t[|t| - 1] == '>' then t[1..|t| - 1]
    else if t != [] && t[0] == '"' then
      var close := Find('"', t[1..]);
      if close.Some? then t[1..close.value + 1] else t[1..]
    else t
  }

  lemma ComponentsShorter(t: string)
    requires LooksQuoted(t)
    ensures var c := QuotedTriples.Components(t); |c.subj| < |t| && |c.pred| < |t| && |c.obj| < |t|
  {
    assert t[1] == '<' && t[|t| - 2..][0] == '>';
    SplitShortens(Trim(t[2..|t| - 2]));
  }

  /** The text under which a term is stored: blanks normalised, brackets and quotes removed, at every depth. */
  function Normal(term: string): string
    decreases |term|
  {
    var t := Trim(term);
    if LooksQuoted(t) then
      ComponentsShorter(t);
      var c := QuotedTriples.Components(t);
      TripleText(Normal(c.subj), Normal(c.pred), Normal(c.obj))
    else Cleaned(t)
  }

  // ---------------------------------------------------------------- decoding

  ghost predicate WellFounded(quoted: map<nat, Components>) {
    forall id | id in quoted :: quoted[id].0 < id && quoted[id].1 < id && quoted[id].2 < id
  }

  /** Renders an identifier; the components of a quoted triple are older than the triple. */
  function DecodeTerm(texts: map<nat, string>, quoted: map<nat, Components>, id: nat): Option<string>
    requires WellFounded(quoted)
    decreases id
  {
    if id >= QUOTED_BIT then
      if id !in quoted then None else
      var (s, p, o) := quoted[id];
      var a, b, c := DecodeTerm(texts, quoted, s), DecodeTerm(texts, quoted, p), DecodeTerm(texts, quoted, o);
      if a.None? || b.None? || c.None? then None else Some(TripleText(a.value, b.value, c.value))
    else if id in texts then Some(texts[id]) else None
  }

  ghost predicate Grows<K, V>(before: map<K, V>, after: map<K, V>) {
    forall k | k in before :: k in after && after[k] == before[k]
  }

  /** What has been decoded once is decoded the same way ever after. */
  lemma {:induction false} DecodeStable(texts: map<nat, string>, quoted: map<nat, Components>, texts': map<nat, string>,
                                        quoted': map<nat, Components>, id: nat)
    requires WellFounded(quoted) && WellFounded(quoted') && Grows(texts, texts') && Grows(quoted, quoted')
    requires DecodeTerm(texts, quoted, id).Some?
    ensures DecodeTerm(texts', quoted', id) == DecodeTerm(texts, quoted, id)
    decreases id
  {
    if id >= QUOTED_BIT {
      var (s, p, o) := quoted[id];
      DecodeStable(texts, quoted, texts', quoted', s);
      DecodeStable(texts, quoted, texts', quoted', p);
      DecodeStable(texts, quoted, texts', quoted', o);
    }
  }

  // ---------------------------------------------------------------- encoding

  class Store {
    var ids: map<string, nat>
    var texts: map<nat, string>
    var nextId: nat
    var quotedIds: map<Components, nat>
    var quoted: map<nat, Components>
    var nextQuoted: nat

    ghost predicate Valid()
      reads this
    {
      && (forall s | s in ids :: ids[s] in texts && texts[ids[s]] == s)
      && (forall i | i in texts :: i < nextId && texts[i] in ids && ids[texts[i]] == i)
      && (forall c | c in quotedIds :: quotedIds[c] in quoted && quoted[quotedIds[c]] == c)
      && (forall i | i in quoted :: QUOTED_BIT <= i < nextQuoted && quoted[i] in quotedIds && quotedIds[quoted[i]] == i)
      && nextId <= QUOTED_BIT <= nextQuoted < ID_LIMIT
      && WellFounded(quoted)
    }

    /** One of the two kinds of identifiers is used up. */
    predicate Exhausted()
      reads this
    {
      nextId >= QUOTED_BIT || nextQuoted + 1 >= ID_LIMIT
    }

    ghost function Decode(id: nat): Option<string>
      requires Valid()
      reads this
    {
      DecodeTerm(texts, quoted, id)
    }

    constructor ()
      ensures Valid() && texts == map[] && quoted == map[]
    {
      ids, texts, nextId := map[], map[], 0;
      quotedIds, quoted, nextQuoted := map[], map[], QUOTED_BIT;
    }

    /** Interns a text; None stands for the failed assertion when the identifiers are used up. */
    method EncodeText(value: string) returns (id: Option<nat>)
      requires Valid()
      modifies this
      ensures Valid() && Grows(old(texts), texts) && quoted == old(quoted)
      ensures id.Some? ==> id.value < QUOTED_BIT && id.value in texts && texts[id.value] == value
      ensures id.Some? <==> value in old(ids) || old(nextId) < QUOTED_BIT
      ensures id.None? ==> Exhausted()
      ensures value in old(ids) ==> id == Some(old(ids)[value]) && texts == old(texts)
    {
      if value in ids {
        return Some(ids[value]);
      }
      if nextId >= QUOTED_BIT {
        return None;
      }
      id := Some(nextId);
      ids := ids[value := nextId];
      texts := texts[nextId := value];
      nextId := nextId + 1;
    }

    /** Interns a quoted triple of known components; None stands for the overflow of the counter. */
    method EncodeQuoted(s: nat, p: nat, o: nat) returns (id: Option<nat>)
      requires Valid() && Decode(s).Some? && Decode(p).Some? && Decode(o).Some?
      modifies this
      ensures Valid() && Grows(old(quoted), quoted) && texts == old(texts)
      ensures id.Some? ==> id.value >= QUOTED_BIT && id.value in quoted && quoted[id.value] == (s, p, o)
      ensures id.Some? <==> (s, p, o) in old(quotedIds) || old(nextQuoted) + 1 < ID_LIMIT
      ensures id.None? ==> Exhausted()
      ensures (s, p, o) in old(quotedIds) ==> id == Some(old(quotedIds)[(s, p, o)]) && quoted == old(quoted)
    {
      if (s, p, o) in quotedIds {
        return Some(quotedIds[(s, p, o)]);
      }
      if nextQuoted + 1 >= ID_LIMIT {
        return None;
      }
      assert s < nextQuoted && p < nextQuoted && o < nextQuoted;
      id := Some(nextQuoted);
      quotedIds := quotedIds[(s, p, o) := nextQuoted];
      quoted := quoted[nextQuoted := (s, p, o)];
      nextQuoted := nextQuoted + 1;
    }

    /** The new identifier decodes to the text built from what its components decode to. */
    method EncodeComponents(s: nat, p: nat, o: nat) returns (id: Option<nat>)
      requires Valid() && Decode(s).Some? && Decode(p).Some? && Decode(o).Some?
      modifies this
      ensures Valid() && Grows(old(quoted), quoted) && texts == old(texts)
      ensures if id.Some? then
                Decode(id.value) == Some(TripleText(old(Decode(s).value), old(Decode(p).value), old(Decode(o).value)))
              else Exhausted()
    {
      ghost var before := quoted;
      id := EncodeQuoted(s, p, o);
      if id.Some? {
        DecodeStable(texts, before, texts, quoted, s);
        DecodeStable(texts, before, texts, quoted, p);
        DecodeStable(texts, before, texts, quoted, o);
      }
    }

    /** Interns a term, component by component when it is a quoted triple. What comes back decodes to the
        normal form of the term, and everything decodable stays as it was. */
    method EncodeTermStar(term: string) returns (id: Option<nat>)
      requires Valid()
      modifies this
      ensures Valid() && Grows(old(texts), texts) && Grows(old(quoted), quoted)
      ensures if id.Some? then Decode(id.value) == Some(Normal(term)) else Exhausted()
      decreases |term|
    {
      var t := Trim(term);
      if LooksQuoted(t) {
        ComponentsShorter(t);
        var c := QuotedTriples.Components(t);
        var s := EncodeTermStar(c.subj);
        if s.None? { return None; }
        ghost var texts1, quoted1 := texts, quoted;
        var p := EncodeTermStar(c.pred);
        if p.None? { return None; }
        DecodeStable(texts1, quoted1, texts, quoted, s.value);
        ghost var texts2, quoted2 := texts, quoted;
        var o := EncodeTermStar(c.obj);
        if o.None? { return None; }
        DecodeStable(texts2, quoted2, texts, quoted, s.value);
        DecodeStable(texts2, quoted2, texts, quoted, p.value);
        id := EncodeComponents(s.value, p.value, o.value);
      } else {
        id := EncodeText(Cleaned(t));
      }
    }
  }

  // ---------------------------------------------------------------- written terms

  /** A written term without the brackets of its identifiers. */
  function Stripped(t: Term): string {
    match t
    case Token(text) => if text != [] && text[0] == '<' && |text| >= 2 then text[1..|text| - 1] else text
    case Literal(body, _) => UpToQuote(body)
    case Quoted(s, p, o) => TripleText(Stripped(s), Stripped(p), Stripped(o))
  }

  /** A literal is cut at its first quote, even when that is escaped. */
  function UpToQuote(s: string): string {
    if s == [] || s[0] == '"' then "" else [s[0]] + UpToQuote(s[1..])
  }

  lemma {:induction false} QuoteFound(s: string, k: string)
    ensures var n := Find('"', s + ("\"" + k));
      n.Some? && n.value <= |s| && (s + ("\"" + k))[..n.value] == UpToQuote(s)
  {
    var text := s + ("\"" + k);
    if s != [] {
      assert text[0] == s[0] && text[1..] == s[1..] + ("\"" + k);
      QuoteFound(s[1..], k);
      if s[0] != '"' {
        var n := Find('"', text[1..]).value;
        assert text[..n + 1] == [text[0]] + text[1..][..n];
      }
    }
  }

  lemma LiteralCleaned(body: string, suffix: string)
    ensures Cleaned("\"" + (body + ("\"" + suffix))) == UpToQuote(body)
  {
    var t := "\"" + (body + ("\"" + suffix));
    assert t[1..] == body + ("\"" + suffix);
    QuoteFound(body, suffix);
    var n := Find('"', t[1..]).value;
    assert t[1..n + 1] == t[1..][..n];
  }

  predicate OnlyPlain(t: Term) {
    match t
    case Token(text) => IsPlainToken(text)
    case Literal(_, _) => false
    case Quoted(s, p, o) => OnlyPlain(s) && OnlyPlain(p) && OnlyPlain(o)
  }

  /** Encoding a written term and decoding the identifier gives the term back, without brackets. */
  lemma {:induction false} NormalOfRender(t: Term)
    requires Written(t)
    ensures Normal(Render(t)) == Stripped(t)
  {
    RenderEnds(t);
    TrimTrimmed(Render(t));
    FirstCharacters(t);
    match t
    case Token(text) =>
      if IsPlainToken(text) {
        assert IsPlainChar(text[0]);
      }
    case Literal(body, suffix) => LiteralCleaned(body, suffix);
    case Quoted(s, p, o) =>
      ComponentsOfTriple(s, p, o);
      NormalOfRender(s);
      NormalOfRender(p);
      NormalOfRender(o);
  }

  lemma {:induction false} PlainIsWritten(t: Term)
    requires OnlyPlain(t)
    ensures Written(t) && Stripped(t) == Render(t)
  {
    match t
    case Token(text) => assert IsPlainChar(text[0]);
    case Quoted(s, p, o) =>
      PlainIsWritten(s);
      PlainIsWritten(p);
      PlainIsWritten(o);
  }

  /** For plain tokens the round trip is the identity. */
  lemma PlainRoundTrip(t: Term)
    requires OnlyPlain(t)
    ensures Normal(Render(t)) == Render(t)
  {
    PlainIsWritten(t);
    NormalOfRender(t);
  }
}
