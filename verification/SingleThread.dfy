/** The single-threaded processor of window results, and its simulation of the coordinator thread. */
module SingleThread {
  import opened Options
  import opened WindowJoin
  import opened Coordinator
  import opened CoordinatorRuns
  import opened Sequences
  import opened Naturals
  import opened SetListings

  function Store(last: Materialized, messages: seq<Message>): Materialized {
    if messages == [] then last
    else Store(last, messages[..|messages| - 1])[messages[|messages| - 1].window := messages[|messages| - 1].rows]
  }

  function LatestTs(messages: seq<Message>): nat {
    if messages == [] then 0
    else Max(LatestTs(messages[..|messages| - 1]), messages[|messages| - 1].timestamp)
  }

  /** One call: the stored results afterwards, and the emission, if any. */
  function Call(windows: set<string>, policy: Policy, last: Materialized, messages: seq<Message>):
    (Materialized, Option<Emission>)
  {
    var stored := Store(last, messages);
    if messages == [] then (last, None)
    else if |stored| != |windows| then (stored, None)
    else (if policy.Steal? then stored else map[], Some(Emission(stored, LatestTs(messages))))
  }

  class Processor {
    const windows: set<string>
    const policy: Policy
    var last: Materialized

    constructor (windows: set<string>, policy: Policy)
      ensures this.windows == windows && this.policy == policy && last == map[]
    {
      this.windows, this.policy, last := windows, policy, map[];
    }

    /** Drains everything pending and emits when every window has a result. */
    method Process(pending: seq<Message>) returns (emission: Option<Emission>)
      modifies this
      ensures (last, emission) == Call(windows, policy, old(last), pending)
    {
      var hadNewResults := false;
      var maxTs := 0;
      emission := None;
      for i := 0 to |pending|
        invariant last == Store(old(last), pending[..i])
        invariant maxTs == LatestTs(pending[..i])
        invariant hadNewResults == (i > 0)
      {
        assert pending[..i + 1][..i] == pending[..i];
        maxTs := Max(maxTs, pending[i].timestamp);
        last := last[pending[i].window := pending[i].rows];
        hadNewResults := true;
      }
      TakeAll(pending);
      if !hadNewResults {
        return;
      }
      if |last| == |windows| {
        emission := Some(Emission(last, maxTs));
        match policy
        case Steal =>
        case Wait => last := map[];
        case Timeout(_, _) => last := map[];
      }
    }
  }

  function StoredAfter(windows: set<string>, policy: Policy, events: seq<Event>): Materialized {
    if events == [] then map[]
    else Call(windows, policy, StoredAfter(windows, policy, events[..|events| - 1]), MessagesOf(events[|events| - 1])).0
  }

  function EmittedAt(windows: set<string>, policy: Policy, events: seq<Event>, i: nat): Option<Emission>
    requires i < |events|
  {
    Call(windows, policy, StoredAfter(windows, policy, events[..i]), MessagesOf(events[i])).1
  }

  /** A fresh processor, called once for every batch. */
  method ProcessAll(windows: set<string>, policy: Policy, events: seq<Event>) returns (emissions: seq<Option<Emission>>)
    ensures |emissions| == |events|
    ensures forall i | 0 <= i < |events| :: emissions[i] == EmittedAt(windows, policy, events, i)
  {
    var processor := new Processor(windows, policy);
    emissions := [];
    for i := 0 to |events|
      invariant processor.windows == windows && processor.policy == policy
      invariant processor.last == StoredAfter(windows, policy, events[..i])
      invariant |emissions| == i && forall j | 0 <= j < i :: emissions[j] == EmittedAt(windows, policy, events, j)
    {
      assert events[..i + 1][..i] == events[..i];
      var emission := processor.Process(MessagesOf(events[i]));
      emissions := emissions + [emission];
    }
  }

  /** The simulation relation: under Steal both store the same results; otherwise the processor stores
      those of the coordinator's cycle in progress. */
  ghost predicate Simulates(policy: Policy, stored: Materialized, s: State) {
    stored == if policy.Steal? then s.last else Restricted(s)
  }

  ghost function Restricted(s: State): Materialized {
    map w | w in s.triggered && w in s.last :: s.last[w]
  }

  lemma {:induction false} AbsorbAllStore(s: State, messages: seq<Message>)
    ensures AbsorbAll(s, messages).last == Store(s.last, messages)
    ensures AbsorbAll(s, messages).maxTs == Max(s.maxTs, LatestTs(messages))
  {
    if messages != [] {
      AbsorbAllStore(s, messages[..|messages| - 1]);
    }
  }

  lemma {:induction false} AbsorbAllRestricted(s: State, messages: seq<Message>)
    requires s.triggered <= s.last.Keys
    ensures Restricted(AbsorbAll(s, messages)) == Store(Restricted(s), messages)
    ensures AbsorbAll(s, messages).triggered <= AbsorbAll(s, messages).last.Keys
  {
    if messages != [] {
      AbsorbAllRestricted(s, messages[..|messages| - 1]);
    }
  }

  /** One batch: the relation is kept, and both sides emit the same results or neither does. */
  ghost predicate StepsAlike(windows: set<string>, policy: Policy, stored: Materialized, s: State, e: Event)
    requires e.Batch?
  {
    var (s', em) := Step(windows, policy, s, e);
    var (stored', em') := Call(windows, policy, stored, e.messages);
    && Simulates(policy, stored', s')
    && (em.Some? <==> em'.Some?)
    && (em.Some? ==> em.value.materialized == em'.value.materialized)
    && (em.Some? ==> em.value.timestamp == Max(s.maxTs, em'.value.timestamp))
  }

  lemma DrainedAlike(stored: Materialized, policy: Policy, s: State, e: Event)
    requires e.Batch? && Simulates(policy, stored, s) && s.triggered <= s.last.Keys
    ensures Store(stored, e.messages) == if policy.Steal? then Drained(s, e).last else Restricted(Drained(s, e))
    ensures Drained(s, e).maxTs == Max(s.maxTs, LatestTs(e.messages))
  {
    var started := if s.triggered == {} then s.(cycleStart := Some(e.at)) else s;
    AbsorbAllStore(started, e.messages);
    AbsorbAllRestricted(started, e.messages);
    assert Restricted(started) == Restricted(s);
  }

  lemma SimulationStep(windows: set<string>, policy: Policy, stored: Materialized, s: State, e: Event)
    requires !policy.Timeout? && e.Batch? && e.messages != []
    requires Simulates(policy, stored, s) && s.triggered <= s.last.Keys
    requires Drained(s, e).triggered <= Drained(s, e).last.Keys <= windows
    ensures StepsAlike(windows, policy, stored, s, e)
  {
    var t := Drained(s, e);
    DrainedAlike(stored, policy, s, e);
    SameSize(t.triggered, windows);
    SameSize(t.last.Keys, windows);
    if !policy.Steal? {
      assert Restricted(t).Keys == t.triggered && Restricted(Reset(t)) == map[];
      if t.triggered == windows {
        assert Restricted(t) == t.last;
      }
    }
  }

  /** The processor has no clock: it treats a time-limited policy as Wait. */
  function Threaded(policy: Policy): Policy {
    if policy.Timeout? then Wait else policy
  }

  lemma HeadBefore(windows: set<string>, policy: Policy, events: seq<Event>, i: nat)
    requires windows != {} && Run(windows, policy, events) && i < |events| && !policy.Timeout?
    ensures events[i].Batch? && events[i].messages != []
    ensures Enabled(windows, policy, StateAfter(windows, policy, events[..i]), events[i])
    ensures LoopHead(windows, policy, events[..i], StateAfter(windows, policy, events[..i]))
  {
    RunPrefix(windows, policy, events, i);
    EveryLoopHead(windows, policy, events[..i]);
  }

  lemma DrainedBounds(windows: set<string>, policy: Policy, events: seq<Event>, i: nat, s: State)
    requires i < |events| && events[i].Batch? && Enabled(windows, policy, s, events[i])
    requires LoopHead(windows, policy, events[..i], s)
    ensures Drained(s, events[i]).triggered <= Drained(s, events[i]).last.Keys <= windows
    ensures IsMaxTs(Messages(events[BeginBefore(windows, policy, events, i)..i + 1]), Drained(s, events[i]).maxTs)
  {
    var now := events[..i + 1];
    assert now[..i] == events[..i];
    var k := BeginBefore(windows, policy, events, i);
    assert now[k..] == events[k..i + 1];
    DrainedState(windows, policy, now, s);
  }

  /** What the simulation needs to know about the coordinator before its turn `i`. */
  lemma BeforeTurn(windows: set<string>, policy: Policy, events: seq<Event>, i: nat, s: State)
    requires windows != {} && Run(windows, policy, events) && i < |events| && !policy.Timeout?
    requires s == StateAfter(windows, policy, events[..i])
    ensures events[i].Batch? && events[i].messages != []
    ensures s.triggered <= s.last.Keys
    ensures Drained(s, events[i]).triggered <= Drained(s, events[i]).last.Keys <= windows
    ensures IsMaxTs(Messages(events[BeginBefore(windows, policy, events, i)..i + 1]), Drained(s, events[i]).maxTs)
  {
    HeadBefore(windows, policy, events, i);
    DrainedBounds(windows, policy, events, i, s);
  }

  lemma StateAfterStep(windows: set<string>, policy: Policy, events: seq<Event>, i: nat)
    requires i < |events|
    ensures StateAfter(windows, policy, events[..i + 1])
         == Step(windows, policy, StateAfter(windows, policy, events[..i]), events[i]).0
    ensures StoredAfter(windows, policy, events[..i + 1])
         == Call(windows, policy, StoredAfter(windows, policy, events[..i]), MessagesOf(events[i])).0
  {
    assert events[..i + 1][..i] == events[..i];
  }

  /** Along a whole run the processor keeps simulating the coordinator. */
  lemma {:induction false} SimulatesRun(windows: set<string>, policy: Policy, events: seq<Event>, i: nat)
    requires windows != {} && Run(windows, policy, events) && i <= |events| && !policy.Timeout?
    ensures Simulates(policy, StoredAfter(windows, policy, events[..i]), StateAfter(windows, policy, events[..i]))
  {
    if i > 0 {
      var s, stored := StateAfter(windows, policy, events[..i - 1]), StoredAfter(windows, policy, events[..i - 1]);
      SimulatesRun(windows, policy, events, i - 1);
      BeforeTurn(windows, policy, events, i - 1, s);
      SimulationStep(windows, policy, stored, s, events[i - 1]);
      StateAfterStep(windows, policy, events, i - 1);
    }
  }

  /** Without a clock, a time-limited policy behaves like Wait. */
  lemma {:induction false} TimeoutIsWait(windows: set<string>, policy: Policy, events: seq<Event>)
    ensures StoredAfter(windows, policy, events) == StoredAfter(windows, Threaded(policy), events)
  {
    if events != [] {
      TimeoutIsWait(windows, policy, events[..|events| - 1]);
    }
  }

  /** Fed the same batches, both implementations emit at the same turns and join the same results. Their
      timestamps agree under Steal; under Wait they agree exactly when the last batch of the cycle carries
      the largest timestamp of the cycle. */
  lemma SameEmissions(windows: set<string>, policy: Policy, events: seq<Event>, i: nat)
    requires windows != {} && Run(windows, Threaded(policy), events) && i < |events|
    ensures var threaded := EmissionAt(windows, Threaded(policy), events, i);
      var single := EmittedAt(windows, policy, events, i);
      var cycle := Messages(events[BeginBefore(windows, Threaded(policy), events, i)..i + 1]);
      && (threaded.Some? <==> single.Some?)
      && (threaded.Some? ==> threaded.value.materialized == single.value.materialized)
      && (threaded.Some? && policy.Steal? ==> threaded.value.timestamp == single.value.timestamp)
      && (threaded.Some? ==> (threaded.value.timestamp == single.value.timestamp <==>
            exists m | m in MessagesOf(events[i]) :: forall c | c in cycle :: c.timestamp <= m.timestamp))
  {
    var p := Threaded(policy);
    var s, stored := StateAfter(windows, p, events[..i]), StoredAfter(windows, p, events[..i]);
    SimulatesRun(windows, p, events, i);
    BeforeTurn(windows, p, events, i, s);
    SimulationStep(windows, p, stored, s, events[i]);
    TimeoutIsWait(windows, policy, events[..i]);
    if policy.Steal? {
      StealForgets(windows, events, i);
    }
    TimestampsCompared(windows, p, events, i, s);
  }

  /** The timestamp of the last batch is that of the cycle exactly when it is the largest of the cycle. */
  lemma TimestampsCompared(windows: set<string>, policy: Policy, events: seq<Event>, i: nat, s: State)
    requires i < |events| && events[i].Batch? && events[i].messages != []
    requires IsMaxTs(Messages(events[BeginBefore(windows, policy, events, i)..i + 1]), Drained(s, events[i]).maxTs)
    ensures var cycle := Messages(events[BeginBefore(windows, policy, events, i)..i + 1]);
      Max(s.maxTs, LatestTs(events[i].messages)) == LatestTs(events[i].messages) <==>
        exists m | m in MessagesOf(events[i]) :: forall c | c in cycle :: c.timestamp <= m.timestamp
  {
    var batch := events[i].messages;
    LatestTsIsMax(batch);
    AbsorbAllStore(if s.triggered == {} then s.(cycleStart := Some(events[i].at)) else s, batch);
  }

  lemma {:induction false} LatestTsIsMax(messages: seq<Message>)
    ensures IsMaxTs(messages, LatestTs(messages))
  {
    if messages != [] {
      var n := |messages| - 1;
      LatestTsIsMax(messages[..n]);
      assert messages == messages[..n] + [messages[n]];
    }
  }

  lemma StealForgets(windows: set<string>, events: seq<Event>, i: nat)
    requires Run(windows, Steal, events) && i <= |events|
    ensures StateAfter(windows, Steal, events[..i]).maxTs == 0
  {
    if i > 0 {
      RunPrefix(windows, Steal, events, i - 1);
      StateAfterStep(windows, Steal, events, i - 1);
    }
  }

  /** Timestamps that never decrease agree under Wait as well. */
  lemma MonotoneTimestampsAgree(windows: set<string>, policy: Policy, events: seq<Event>, i: nat)
    requires windows != {} && Run(windows, Threaded(policy), events) && i < |events|
    requires var all := Messages(events[..i + 1]);
      forall a, b | 0 <= a < b < |all| :: all[a].timestamp <= all[b].timestamp
    ensures EmittedAt(windows, policy, events, i) == EmissionAt(windows, Threaded(policy), events, i)
  {
    SameEmissions(windows, policy, events, i);
    HeadBefore(windows, Threaded(policy), events, i);
    LastBatchIsLatest(events, BeginBefore(windows, Threaded(policy), events, i), i);
  }

  lemma LastBatchIsLatest(events: seq<Event>, k: nat, i: nat)
    requires k <= i < |events| && events[i].Batch? && events[i].messages != []
    requires var all := Messages(events[..i + 1]);
      forall a, b | 0 <= a < b < |all| :: all[a].timestamp <= all[b].timestamp
    ensures exists m | m in MessagesOf(events[i]) ::
      forall c | c in Messages(events[k..i + 1]) :: c.timestamp <= m.timestamp
  {
    var all, batch := Messages(events[..i + 1]), events[i].messages;
    assert events[..i + 1][..i] == events[..i];
    var m := batch[|batch| - 1];
    assert all[|all| - 1] == m && m in batch;
    assert events[..i + 1] == events[..k] + events[k..i + 1];
    MessagesAppend(events[..k], events[k..i + 1]);
    forall c | c in Messages(events[k..i + 1]) ensures c.timestamp <= m.timestamp {
      assert c in all;
    }
  }

  lemma OneMessage(m: Message, s: State, last: Materialized)
    ensures AbsorbAll(s, [m]) == Absorb(s, m) && Store(last, [m]) == last[m.window := m.rows]
    ensures LatestTs([m]) == m.timestamp
  {
    assert [m][..0] == [];
    assert AbsorbAll(s, []) == s && Store(last, []) == last && LatestTs([]) == 0;
  }

  lemma TwoEvents(first: Event, second: Event)
    ensures [first, second][..1] == [first] && [first][..0] == []
  {
  }

  /** The coordinator after the first of two windows has reported, and what it emits at the second. */
  lemma CoordinatorTakesLargest(windows: set<string>, first: Message, second: Message)
    requires windows == {first.window, second.window} && first.window != second.window
    ensures var events := [Batch([first], 0), Batch([second], 1)];
      && Run(windows, Wait, events)
      && EmissionAt(windows, Wait, events, 1)
         == Some(Emission(map[first.window := first.rows, second.window := second.rows],
             Max(first.timestamp, second.timestamp)))
  {
    var one, two := Batch([first], 0), Batch([second], 1);
    var s := State(map[first.window := first.rows], {first.window}, Some(0), first.timestamp);
    TwoEvents(one, two);
    OneMessage(first, State(map[], {}, Some(0), 0), map[]);
    OneMessage(second, s, map[]);
    assert StateAfter(windows, Wait, []) == INITIAL && Run(windows, Wait, []);
    assert StateAfter(windows, Wait, [one]) == s;
    assert Run(windows, Wait, [one]);
    assert Absorb(s, second).triggered == windows;
  }

  lemma ProcessorTakesLatest(windows: set<string>, first: Message, second: Message)
    requires windows == {first.window, second.window} && first.window != second.window
    ensures EmittedAt(windows, Wait, [Batch([first], 0), Batch([second], 1)], 1)
         == Some(Emission(map[first.window := first.rows, second.window := second.rows], second.timestamp))
  {
    var one, two := Batch([first], 0), Batch([second], 1);
    var only: Materialized := map[first.window := first.rows];
    TwoEvents(one, two);
    OneMessage(first, INITIAL, map[]);
    OneMessage(second, INITIAL, only);
    assert StoredAfter(windows, Wait, []) == map[];
    assert |only| == 1 && |windows| == 2;
    assert StoredAfter(windows, Wait, [one]) == only;
    assert only[second.window := second.rows].Keys == windows;
  }

  /** Out-of-order timestamps under Wait: the processor reports the last batch only. */
  lemma TimestampsMayDiffer(first: Message, second: Message)
    requires first.window != second.window && first.timestamp > second.timestamp
    ensures var windows := {first.window, second.window};
      var events := [Batch([first], 0), Batch([second], 1)];
      var stored := map[first.window := first.rows, second.window := second.rows];
      && Run(windows, Wait, events)
      && EmissionAt(windows, Wait, events, 1) == Some(Emission(stored, first.timestamp))
      && EmittedAt(windows, Wait, events, 1) == Some(Emission(stored, second.timestamp))
  {
    CoordinatorTakesLargest({first.window, second.window}, first, second);
    ProcessorTakesLatest({first.window, second.window}, first, second);
  }
}
