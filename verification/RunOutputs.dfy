/** What the consumer receives over a whole run: the coordinator's emissions, joined and passed through the stream
    operator. */
module RunOutputs {
  import opened Options
  import opened SetListings
  import opened SolutionMappings
  import opened WindowJoin
  import opened Coordinator
  import opened CoordinatorRuns
  import opened Sequences

  /** An emission, and the static bindings found when it is made. */
  datatype Delivery = Delivery(emission: Emission, background: Option<seq<Row>>)

  /** The emissions of a run, in their order; the static plan is run again at each of them. */
  function Emitted(windows: set<string>, policy: Policy, events: seq<Event>, backgrounds: seq<Option<seq<Row>>>):
    seq<Delivery>
    requires |backgrounds| == |events|
  {
    if events == [] then [] else
    var n := |events| - 1;
    var emission := EmissionAt(windows, policy, events, n);
    Emitted(windows, policy, events[..n], backgrounds[..n])
    + if emission.Some? then [Delivery(emission.value, backgrounds[n])] else []
  }

  /** The joined rows of an emission: the same bag in whatever order the windows are taken. */
  ghost function Joined(d: Delivery): multiset<Row> {
    multiset(EmittedRows(d.emission.materialized, Listed(d.emission.materialized.Keys), d.background))
  }

  /** The rows of the emission before number `j`, which is what the insert and delete streams compare with. */
  ghost function RowsBefore(emitted: seq<Delivery>, j: nat): set<Row>
    requires j <= |emitted|
  {
    if j == 0 then {} else Support(Joined(emitted[j - 1]))
  }

  /** What the consumer receives at emission number `j`. */
  ghost function Received(operator: StreamOperator, emitted: seq<Delivery>, j: nat): multiset<Row>
    requires j < |emitted|
  {
    Delivered(operator, RowsBefore(emitted, j), Joined(emitted[j]))
  }

  /** What the stream operator remembers after these emissions. */
  ghost function Remembered(operator: StreamOperator, emitted: seq<Delivery>): set<Row> {
    if operator == RStream then {} else RowsBefore(emitted, |emitted|)
  }

  /** One emission more. */
  method Consume(d: Delivery, stream: Relation2Stream, ghost emitted: seq<Delivery>) returns (rows: seq<Row>)
    requires stream.lastResult == Remembered(stream.operator, emitted)
    modifies stream
    ensures multiset(rows) == Received(stream.operator, emitted + [d], |emitted|)
    ensures stream.lastResult == Remembered(stream.operator, emitted + [d])
  {
    rows := EmitResults(d.emission.materialized, d.background, stream);
    assert Enumerates(Listed(d.emission.materialized.Keys), d.emission.materialized);
    NextReceived(stream.operator, emitted, d);
  }

  lemma NextReceived(operator: StreamOperator, emitted: seq<Delivery>, next: Delivery)
    ensures Received(operator, emitted + [next], |emitted|)
         == Delivered(operator, Remembered(operator, emitted), Joined(next))
    ensures Remembered(operator, emitted + [next])
         == if operator == RStream then Remembered(operator, emitted) else Support(Joined(next))
  {
    LastEmission(emitted, next);
    RowsBeforeStay(emitted, next);
    if operator == RStream {
      assert Delivered(operator, {}, Joined(next)) == Joined(next);
    }
  }

  lemma LastEmission(emitted: seq<Delivery>, next: Delivery)
    ensures var all := emitted + [next];
      && |all| == |emitted| + 1 && all[|emitted|] == next
      && (emitted != [] ==> all[|emitted| - 1] == emitted[|emitted| - 1])
  {
  }

  lemma RowsBeforeStay(emitted: seq<Delivery>, next: Delivery)
    ensures RowsBefore(emitted + [next], |emitted|) == RowsBefore(emitted, |emitted|)
    ensures RowsBefore(emitted + [next], |emitted| + 1) == Support(Joined(next))
  {
    LastEmission(emitted, next);
  }

  ghost predicate AllReceived(outputs: seq<seq<Row>>, operator: StreamOperator, emitted: seq<Delivery>) {
    && |outputs| == |emitted|
    && forall j | 0 <= j < |emitted| :: multiset(outputs[j]) == Received(operator, emitted, j)
  }

  lemma OneMoreReceived(outputs: seq<seq<Row>>, rows: seq<Row>, operator: StreamOperator, emitted: seq<Delivery>,
                        next: Delivery)
    requires AllReceived(outputs, operator, emitted)
    requires multiset(rows) == Received(operator, emitted + [next], |emitted|)
    ensures AllReceived(outputs + [rows], operator, emitted + [next])
  {
    forall j | 0 <= j < |emitted|
      ensures multiset((outputs + [rows])[j]) == Received(operator, emitted + [next], j)
    {
      assert (emitted + [next])[j] == emitted[j];
      assert j > 0 ==> (emitted + [next])[j - 1] == emitted[j - 1];
    }
  }

  /** The coordinator and the consumer over a recorded sequence of wake-ups, with the static bindings found at each of
      them: one delivery for every emission, each the joined bag of that emission compared with the one before it,
      whatever orders the maps are read in. */
  method Deliver(windows: set<string>, policy: Policy, events: seq<Event>, backgrounds: seq<Option<seq<Row>>>,
                 operator: StreamOperator)
    returns (outputs: seq<seq<Row>>)
    requires |backgrounds| == |events| && forall e | e in events && e.Batch? :: e.messages != []
    ensures AllReceived(outputs, operator, Emitted(windows, policy, events, backgrounds))
    ensures var emitted := Emitted(windows, policy, events, backgrounds);
      forall j, b | 0 <= j < |outputs| ::
        var before, now := if j == 0 then 0 else Ways(emitted[j - 1], b), Ways(emitted[j], b);
        multiset(outputs[j])[b] == match operator
          case RStream => now
          case IStream => if before > 0 then 0 else now
          case DStream => if before > 0 && now == 0 then 1 else 0
  {
    var emissions := Serve(windows, policy, events);
    var stream := new Relation2Stream(operator);
    ghost var emitted: seq<Delivery> := [];
    outputs := [];
    for i := 0 to |events|
      invariant stream.operator == operator && fresh(stream)
      invariant emitted == Emitted(windows, policy, events[..i], backgrounds[..i])
      invariant stream.lastResult == Remembered(operator, emitted)
      invariant AllReceived(outputs, operator, emitted)
    {
      EmittedStep(windows, policy, events, backgrounds, i);
      if emissions[i].Some? {
        var d := Delivery(emissions[i].value, backgrounds[i]);
        var rows := Consume(d, stream, emitted);
        OneMoreReceived(outputs, rows, operator, emitted, d);
        outputs, emitted := outputs + [rows], emitted + [d];
      }
    }
    TakeAll(events);
    TakeAll(backgrounds);
    EmittedNotEmpty(windows, policy, events, backgrounds);
    forall j, b | 0 <= j < |outputs| ensures multiset(outputs[j])[b] == Received(operator, emitted, j)[b] {
    }
    forall j: nat, b | j < |emitted| { ReceivedCounts(operator, emitted, j, b); }
  }

  // ---------------------------------------------------------------- how often a row is delivered

  /** The last result of every window, and the static bindings when there is a static plan. */
  ghost function Inputs(d: Delivery): seq<seq<Row>> {
    var m := d.emission.materialized;
    var keys := Listed(m.Keys);
    seq(|keys|, i requires 0 <= i < |keys| => m[keys[i]])
    + if d.background.Some? then [d.background.value] else []
  }

  /** The number of ways in which the emission justifies the row: choices of one row per input that together are
      that row. */
  ghost function Ways(d: Delivery, b: Row): nat {
    |Justifications(Inputs(d), b)|
  }

  lemma {:induction false} ValuesInOrder(m: Materialized, keys: seq<string>)
    requires forall k | k in keys :: k in m
    ensures Values(m, keys) == seq(|keys|, i requires 0 <= i < |keys| => m[keys[i]])
  {
    if keys != [] {
      var rest := keys[1..];
      ValuesInOrder(m, rest);
      assert keys[0] in keys;
      assert forall i | 0 <= i < |rest| :: rest[i] == keys[i + 1] && keys[i + 1] in m;
    }
  }

  lemma JoinedCounts(d: Delivery, b: Row)
    requires d.emission.materialized != map[]
    ensures Joined(d)[b] == Ways(d, b)
  {
    var m := d.emission.materialized;
    var keys := Listed(m.Keys);
    assert Enumerates(keys, m);
    ValuesInOrder(m, keys);
    EmissionMultiplicity(m, keys, d.background, b);
  }

  lemma {:induction false} TriggeredAreStored(windows: set<string>, policy: Policy, events: seq<Event>)
    ensures var s := StateAfter(windows, policy, events); s.triggered <= s.last.Keys
  {
    if events != [] {
      var n := |events| - 1;
      TriggeredAreStored(windows, policy, events[..n]);
      StepKeepsStored(windows, policy, StateAfter(windows, policy, events[..n]), events[n]);
    }
  }

  lemma StepKeepsStored(windows: set<string>, policy: Policy, s: State, e: Event)
    requires s.triggered <= s.last.Keys
    ensures var t := Step(windows, policy, s, e).0; t.triggered <= t.last.Keys
  {
    if e.Batch? {
      var started := if s.triggered == {} then s.(cycleStart := Some(e.at)) else s;
      AbsorbAllKeys(started, e.messages);
      assert AbsorbAll(started, e.messages).triggered <= AbsorbAll(started, e.messages).last.Keys;
    }
  }

  lemma NothingEmptyIsEmitted(windows: set<string>, policy: Policy, events: seq<Event>, i: nat)
    requires i < |events| && (events[i].Batch? ==> events[i].messages != [])
    requires EmissionAt(windows, policy, events, i).Some?
    ensures EmissionAt(windows, policy, events, i).value.materialized != map[]
  {
    TriggeredAreStored(windows, policy, events[..i]);
    var s := StateAfter(windows, policy, events[..i]);
    if events[i].Batch? {
      AbsorbAllKeys(if s.triggered == {} then s.(cycleStart := Some(events[i].at)) else s, events[i].messages);
      assert events[i].messages[0].window in WindowsOf(events[i].messages);
    }
  }

  ghost predicate NoneEmpty(emitted: seq<Delivery>) {
    forall d | d in emitted :: d.emission.materialized != map[]
  }

  lemma {:induction false} EmittedNotEmpty(windows: set<string>, policy: Policy, events: seq<Event>,
                                           backgrounds: seq<Option<seq<Row>>>)
    requires |backgrounds| == |events| && forall e | e in events && e.Batch? :: e.messages != []
    ensures NoneEmpty(Emitted(windows, policy, events, backgrounds))
    decreases |events|
  {
    if events != [] {
      var n := |events| - 1;
      EmittedNotEmpty(windows, policy, events[..n], backgrounds[..n]);
      assert events[n] in events;
      if EmissionAt(windows, policy, events, n).Some? {
        NothingEmptyIsEmitted(windows, policy, events, n);
      }
    }
  }

  /** How often the consumer receives a row is a matter of the ways in which this emission and the one before it
      justify the row. */
  lemma ReceivedCounts(operator: StreamOperator, emitted: seq<Delivery>, j: nat, b: Row)
    requires NoneEmpty(emitted) && j < |emitted|
    ensures var before, now := if j == 0 then 0 else Ways(emitted[j - 1], b), Ways(emitted[j], b);
      Received(operator, emitted, j)[b] == match operator
        case RStream => now
        case IStream => if before > 0 then 0 else now
        case DStream => if before > 0 && now == 0 then 1 else 0
  {
    assert emitted[j] in emitted;
    JoinedCounts(emitted[j], b);
    if j > 0 {
      assert emitted[j - 1] in emitted;
      JoinedCounts(emitted[j - 1], b);
    }
  }

  lemma EmittedStep(windows: set<string>, policy: Policy, events: seq<Event>, backgrounds: seq<Option<seq<Row>>>,
                    i: nat)
    requires |backgrounds| == |events| && i < |events|
    ensures Emitted(windows, policy, events[..i + 1], backgrounds[..i + 1])
         == Emitted(windows, policy, events[..i], backgrounds[..i])
            + var e := EmissionAt(windows, policy, events, i);
              if e.Some? then [Delivery(e.value, backgrounds[i])] else []
  {
    var prefix, found := events[..i + 1], backgrounds[..i + 1];
    assert prefix[..i] == events[..i] && prefix[i] == events[i];
    assert found[..i] == backgrounds[..i] && found[i] == backgrounds[i];
  }

  // ---------------------------------------------------------------- the streams together

  /** The rows a consumer holds who adds what the insert stream brings and removes what the delete stream brings. */
  ghost function Replayed(emitted: seq<Delivery>, j: nat): set<Row>
    requires j <= |emitted|
    decreases j
  {
    if j == 0 then {} else
    Updated(Replayed(emitted, j - 1), Received(DStream, emitted, j - 1), Received(IStream, emitted, j - 1))
  }

  ghost function Updated(held: set<Row>, removed: multiset<Row>, added: multiset<Row>): set<Row> {
    held - Support(removed) + Support(added)
  }

  /** Replaying both streams gives the rows of every emission. */
  lemma {:induction false} StreamsRebuild(emitted: seq<Delivery>, j: nat)
    requires j <= |emitted|
    ensures Replayed(emitted, j) == RowsBefore(emitted, j)
    decreases j
  {
    if j > 0 {
      if j > 1 {
        StreamsRebuild(emitted, j - 1);
      } else {
        assert Replayed(emitted, 0) == {};
      }
      ReplayedNext(emitted, j);
    }
  }

  lemma ReplayedNext(emitted: seq<Delivery>, j: nat)
    requires 0 < j <= |emitted| && Replayed(emitted, j - 1) == RowsBefore(emitted, j - 1)
    ensures Replayed(emitted, j) == RowsBefore(emitted, j)
  {
    RebuildStep(RowsBefore(emitted, j - 1), Joined(emitted[j - 1]));
  }

  lemma RebuildStep(last: set<Row>, rows: multiset<Row>)
    ensures Updated(last, Delivered(DStream, last, rows), Delivered(IStream, last, rows)) == Support(rows)
  {
    forall r ensures r in Delivered(IStream, last, rows) <==> r in rows && r !in last {
      assert WithoutAll(rows, last)[r] == if r in last then 0 else rows[r];
    }
  }

  /** The emissions received are the ones the history demands, in order: number `j` belongs to the event at which the
      count of emissions reaches `j + 1`. */
  lemma EmittedInOrder(windows: set<string>, policy: Policy, events: seq<Event>, backgrounds: seq<Option<seq<Row>>>,
                       i: nat)
    requires |backgrounds| == |events| && i < |events| && EmissionAt(windows, policy, events, i).Some?
    ensures var j, emitted := Emissions(windows, policy, events[..i]), Emitted(windows, policy, events, backgrounds);
      j < |emitted| && emitted[j] == Delivery(EmissionAt(windows, policy, events, i).value, backgrounds[i])
  {
    EmittedStep(windows, policy, events, backgrounds, i);
    EmissionsCounted(windows, policy, events[..i], backgrounds[..i]);
    EmittedGrows(windows, policy, events, backgrounds, i + 1);
  }

  lemma EmittedLast(windows: set<string>, policy: Policy, events: seq<Event>, backgrounds: seq<Option<seq<Row>>>)
    requires |backgrounds| == |events| && events != []
    ensures Emitted(windows, policy, events[..|events| - 1], backgrounds[..|events| - 1])
         <= Emitted(windows, policy, events, backgrounds)
  {
  }

  /** The emissions of a prefix come first. */
  lemma {:induction false} EmittedGrows(windows: set<string>, policy: Policy, events: seq<Event>,
                                        backgrounds: seq<Option<seq<Row>>>, i: nat)
    requires |backgrounds| == |events| && i <= |events|
    ensures Emitted(windows, policy, events[..i], backgrounds[..i]) <= Emitted(windows, policy, events, backgrounds)
    decreases |events|
  {
    if i == |events| {
      TakeAll(events);
      TakeAll(backgrounds);
    } else {
      var n := |events| - 1;
      TakeTwice(events, i, n);
      TakeTwice(backgrounds, i, n);
      EmittedGrows(windows, policy, events[..n], backgrounds[..n], i);
      EmittedLast(windows, policy, events, backgrounds);
    }
  }

  lemma {:induction false} EmissionsCounted(windows: set<string>, policy: Policy, events: seq<Event>,
                                            backgrounds: seq<Option<seq<Row>>>)
    requires |backgrounds| == |events|
    ensures |Emitted(windows, policy, events, backgrounds)| == Emissions(windows, policy, events)
    decreases |events|
  {
    if events != [] {
      EmissionsCounted(windows, policy, events[..|events| - 1], backgrounds[..|events| - 1]);
    }
  }
}
