/** BIND clauses: every clause inserts one binding into every row, in place. */
module BindClauses {
  import opened SolutionMappings
  import opened BasicGraphPattern
  import opened QuotedTriples
  import opened Sequences

  datatype BindClause = BindClause(name: string, args: seq<string>, target: string)

  type Functions = map<string, seq<string> -> string>

  /** An argument: a variable stands for its value, or for the empty text when unbound. */
  function Resolve(row: Row, arg: string): string {
    if !IsVariable(arg) then arg else if arg in row then row[arg] else ""
  }

  function ResolveAll(row: Row, args: seq<string>): (r: seq<string>)
    ensures |r| == |args| && forall i | 0 <= i < |args| :: r[i] == Resolve(row, args[i])
  {
    if args == [] then [] else [Resolve(row, args[0])] + ResolveAll(row, args[1..])
  }

  function Concatenated(parts: seq<string>): string {
    if parts == [] then "" else parts[0] + Concatenated(parts[1..])
  }

  predicate IsComponent(name: string) {
    name == "SUBJECT" || name == "PREDICATE" || name == "OBJECT"
  }

  function Component(name: string, c: Content): string
    requires IsComponent(name)
  {
    if name == "SUBJECT" then c.subj else if name == "PREDICATE" then c.pred else c.obj
  }

  /** The row after one clause; a clause that does not apply leaves the row alone. */
  function BindRow(udfs: Functions, b: BindClause, row: Row): Row {
    if b.name == "CONCAT" then row[b.target := Concatenated(ResolveAll(row, b.args))]
    else if IsComponent(b.name) then
      if b.args != [] && LooksQuoted(Resolve(row, b.args[0]))
      then row[b.target := Component(b.name, Components(Resolve(row, b.args[0])))]
      else row
    else if b.name == "TRIPLE" then
      if |b.args| == 3
      then row[b.target := TripleText(Resolve(row, b.args[0]), Resolve(row, b.args[1]), Resolve(row, b.args[2]))]
      else row
    else if b.name == "isTRIPLE" then
      if b.args != [] then row[b.target := if LooksQuoted(Resolve(row, b.args[0])) then "true" else "false"] else row
    else if b.name in udfs then row[b.target := udfs[b.name](ResolveAll(row, b.args))]
    else row
  }

  function BindAll(udfs: Functions, binds: seq<BindClause>, row: Row): Row {
    if binds == [] then row
    else BindRow(udfs, binds[|binds| - 1], BindAll(udfs, binds[..|binds| - 1], row))
  }

  /** Clause by clause, row by row, in place. */
  method ProcessBindClauses(udfs: Functions, binds: seq<BindClause>, rows: array<Row>)
    modifies rows
    ensures forall i | 0 <= i < rows.Length :: rows[i] == BindAll(udfs, binds, old(rows[i]))
  {
    for j := 0 to |binds|
      invariant forall i | 0 <= i < rows.Length :: rows[i] == BindAll(udfs, binds[..j], old(rows[i]))
    {
      assert binds[..j + 1][..j] == binds[..j];
      for i := 0 to rows.Length
        invariant forall k | 0 <= k < i :: rows[k] == BindAll(udfs, binds[..j + 1], old(rows[k]))
        invariant forall k | i <= k < rows.Length :: rows[k] == BindAll(udfs, binds[..j], old(rows[k]))
      {
        rows[i] := BindRow(udfs, binds[j], rows[i]);
      }
    }
    TakeAll(binds);
  }

  /** Binding a triple of written terms and taking it apart gives the terms back, under any function table, for terms
      nested to any depth; and the bound value is recognised as a triple. */
  lemma TripleThenComponent(udfs: Functions, row: Row, a: string, b: string, c: string, t: string, name: string,
                            x: string, s: Term, p: Term, o: Term)
    requires Written(s) && Written(p) && Written(o) && IsVariable(t) && IsComponent(name)
    requires Resolve(row, a) == Render(s) && Resolve(row, b) == Render(p) && Resolve(row, c) == Render(o)
    ensures var binds := [BindClause("TRIPLE", [a, b, c], t), BindClause(name, [t], x)];
      && x in BindAll(udfs, binds, row)
      && BindAll(udfs, binds, row)[x]
          == (if name == "SUBJECT" then Render(s) else if name == "PREDICATE" then Render(p) else Render(o))
    ensures BindAll(udfs, [BindClause("TRIPLE", [a, b, c], t), BindClause("isTRIPLE", [t], x)], row)[x] == "true"
  {
    var triple := BindClause("TRIPLE", [a, b, c], t);
    var v := TripleText(Render(s), Render(p), Render(o));
    ComponentsOfTriple(s, p, o);
    BindTriple(udfs, row, a, b, c, t);
    Two(udfs, triple, BindClause(name, [t], x), row);
    BindComponent(udfs, BindRow(udfs, triple, row), t, name, x, v);
    Two(udfs, triple, BindClause("isTRIPLE", [t], x), row);
    BindIsTriple(udfs, BindRow(udfs, triple, row), t, x, v);
  }

  lemma BindTriple(udfs: Functions, row: Row, a: string, b: string, c: string, t: string)
    ensures BindRow(udfs, BindClause("TRIPLE", [a, b, c], t), row)
         == row[t := TripleText(Resolve(row, a), Resolve(row, b), Resolve(row, c))]
  {
  }

  lemma BindComponent(udfs: Functions, row: Row, t: string, name: string, x: string, v: string)
    requires IsComponent(name) && Resolve(row, t) == v && LooksQuoted(v)
    ensures BindRow(udfs, BindClause(name, [t], x), row) == row[x := Component(name, Components(v))]
  {
  }

  lemma BindIsTriple(udfs: Functions, row: Row, t: string, x: string, v: string)
    requires Resolve(row, t) == v && LooksQuoted(v)
    ensures BindRow(udfs, BindClause("isTRIPLE", [t], x), row) == row[x := "true"]
  {
  }

  lemma Two(udfs: Functions, first: BindClause, second: BindClause, row: Row)
    ensures BindAll(udfs, [first, second], row) == BindRow(udfs, second, BindRow(udfs, first, row))
  {
    assert [first, second][..1] == [first] && [first][..0] == [];
    assert BindAll(udfs, [], row) == row;
  }

  // ---------------------------------------------------------------- each function on its own

  lemma One(udfs: Functions, b: BindClause, row: Row)
    ensures BindAll(udfs, [b], row) == BindRow(udfs, b, row)
  {
    assert [b][..0] == [];
  }

  lemma {:induction false} ConcatenatedAppend(a: seq<string>, b: seq<string>)
    ensures Concatenated(a + b) == Concatenated(a) + Concatenated(b)
  {
    if a == [] {
      assert a + b == b;
    } else {
      assert (a + b)[1..] == a[1..] + b;
      ConcatenatedAppend(a[1..], b);
    }
  }

  lemma ResolveSnoc(row: Row, args: seq<string>, last: string)
    ensures ResolveAll(row, args + [last]) == ResolveAll(row, args) + [Resolve(row, last)]
  {
    var all := args + [last];
    assert forall i | 0 <= i < |args| :: all[i] == args[i];
  }

  /** The value that CONCAT binds: the arguments' values, from left to right. A variable stands for its value, an
      unbound one for nothing, and a constant for itself. */
  lemma ConcatMeans(udfs: Functions, row: Row, args: seq<string>, last: string, target: string)
    ensures var all := BindAll(udfs, [BindClause("CONCAT", args + [last], target)], row);
      var front := BindAll(udfs, [BindClause("CONCAT", args, target)], row);
      && all.Keys == row.Keys + {target} && (forall v | v in row && v != target :: all[v] == row[v])
      && target in front
      && all[target] == front[target]
          + (if last == [] || last[0] != '?' then last else if last in row then row[last] else "")
    ensures BindAll(udfs, [BindClause("CONCAT", [], target)], row) == row[target := ""]
  {
    One(udfs, BindClause("CONCAT", args + [last], target), row);
    One(udfs, BindClause("CONCAT", args, target), row);
    One(udfs, BindClause("CONCAT", [], target), row);
    ResolveSnoc(row, args, last);
    ConcatenatedAppend(ResolveAll(row, args), [Resolve(row, last)]);
    assert Concatenated([Resolve(row, last)]) == Resolve(row, last);
  }

  /** A function of the user gets the arguments' values in their order, unless it has a reserved name; a function that
      is not registered changes nothing. */
  lemma UserFunctionMeans(udfs: Functions, row: Row, name: string, a: string, b: string, constant: string,
                          target: string)
    requires name !in {"CONCAT", "SUBJECT", "PREDICATE", "OBJECT", "TRIPLE", "isTRIPLE"}
    requires a in row && a != [] && a[0] == '?' && b !in row && b != [] && b[0] == '?'
    requires constant == [] || constant[0] != '?'
    ensures BindAll(udfs, [BindClause(name, [a, constant, b], target)], row)
         == if name in udfs then row[target := udfs[name]([row[a], constant, ""])] else row
  {
    One(udfs, BindClause(name, [a, constant, b], target), row);
    assert ResolveAll(row, [a, constant, b]) == [row[a], constant, ""];
  }

  /** The test for quoted triples binds one of two words; the text that TRIPLE builds is spelled out; a component of
      anything but a quoted triple, and a triple of other than three arguments, change nothing. */
  lemma TripleFunctionsMean(udfs: Functions, row: Row, a: string, b: string, c: string, target: string)
    requires a in row && a != [] && a[0] == '?' && b !in row && b != [] && b[0] == '?' && (c == [] || c[0] != '?')
    ensures BindAll(udfs, [BindClause("isTRIPLE", [a], target)], row)
         == row[target := if "<<" <= row[a] && |row[a]| >= 2 && row[a][|row[a]| - 2..] == ">>" then "true" else "false"]
    ensures BindAll(udfs, [BindClause("isTRIPLE", [b], target)], row) == row[target := "false"]
    ensures BindAll(udfs, [BindClause("TRIPLE", [a, b, c], target)], row)
         == row[target := "<< " + row[a] + " " + "" + " " + c + " >>"]
    ensures BindAll(udfs, [BindClause("TRIPLE", [a, c], target)], row) == row
    ensures forall name | name in {"SUBJECT", "PREDICATE", "OBJECT"} && !("<<" <= row[a]) ::
      BindAll(udfs, [BindClause(name, [a], target)], row) == row
  {
    One(udfs, BindClause("isTRIPLE", [a], target), row);
    One(udfs, BindClause("isTRIPLE", [b], target), row);
    One(udfs, BindClause("TRIPLE", [a, b, c], target), row);
    One(udfs, BindClause("TRIPLE", [a, c], target), row);
    forall name | name in {"SUBJECT", "PREDICATE", "OBJECT"} && !("<<" <= row[a])
      ensures BindAll(udfs, [BindClause(name, [a], target)], row) == row
    {
      One(udfs, BindClause(name, [a], target), row);
    }
  }
}
