/** Safety of whole runs of the coordinator: when it emits, what it emits, and how often. */
module CoordinatorRuns {
  import opened Options
  import opened SolutionMappings
  import opened WindowJoin
  import opened Coordinator
  import opened SetListings
  import opened Sequences

  /** What has been emitted is what the run of the state machine emits, wake-up by wake-up. */
  ghost predicate EmitsUpTo(windows: set<string>, policy: Policy, events: seq<Event>,
                            emissions: seq<Option<Emission>>) {
    && |emissions| <= |events|
    && forall i | 0 <= i < |emissions| :: emissions[i] == EmissionAt(windows, policy, events, i)
  }

  /** The loop of a fresh coordinator, fed with a recorded sequence of wake-ups. */
  method Serve(windows: set<string>, policy: Policy, events: seq<Event>) returns (emissions: seq<Option<Emission>>)
    requires forall e | e in events && e.Batch? :: e.messages != []
    ensures |emissions| == |events| && EmitsUpTo(windows, policy, events, emissions)
  {
    var loop := new CoordinatorLoop(windows, policy);
    emissions := [];
    assert events[..0] == [];
    for i := 0 to |events|
      invariant loop.windows == windows && loop.policy == policy
      invariant loop.Abstract() == StateAfter(windows, policy, events[..i])
      invariant |emissions| == i && EmitsUpTo(windows, policy, events, emissions)
    {
      assert events[i] in events;
      var emission := Wake(loop, events, i);
      emissions := emissions + [emission];
    }
  }

  /** One wake-up. */
  method Wake(loop: CoordinatorLoop, events: seq<Event>, i: nat) returns (emission: Option<Emission>)
    requires i < |events| && (events[i].Batch? ==> events[i].messages != [])
    requires loop.Abstract() == StateAfter(loop.windows, loop.policy, events[..i])
    modifies loop
    ensures loop.Abstract() == StateAfter(loop.windows, loop.policy, events[..i + 1])
    ensures emission == EmissionAt(loop.windows, loop.policy, events, i)
  {
    NextState(loop.windows, loop.policy, events, i);
    match events[i]
    case Batch(messages, at) => emission := loop.Receive(messages, at);
    case Deadline(at) => emission := loop.Expire(at);
  }

  lemma NextState(windows: set<string>, policy: Policy, events: seq<Event>, i: nat)
    requires i < |events|
    ensures Step(windows, policy, StateAfter(windows, policy, events[..i]), events[i])
         == (StateAfter(windows, policy, events[..i + 1]), EmissionAt(windows, policy, events, i))
  {
    assert events[..i + 1][..i] == events[..i];
  }

  /** The turn at which the cycle in progress before event `i` began. */
  ghost function BeginBefore(windows: set<string>, policy: Policy, events: seq<Event>, i: nat): (k: nat)
    requires i < |events|
    ensures k <= i
  {
    CycleBegin(windows, policy, events[..i])
  }

  /** Whether an event must emit, given all messages so far and those of the current cycle. */
  ghost predicate Demands(windows: set<string>, policy: Policy, e: Event, all: seq<Message>, cycle: seq<Message>) {
    if e.Deadline? then policy.Timeout? && policy.fallback.StealStale? && WindowsOf(all) == windows
    else if policy.Steal? then WindowsOf(all) == windows
    else WindowsOf(cycle) == windows
  }

  /** What an emission must carry: the last result of every window, and the largest timestamp of the cycle. */
  ghost predicate Holds(windows: set<string>, all: seq<Message>, cycle: seq<Message>, emission: Emission) {
    && emission.materialized.Keys == windows
    && StoresLatest(all, emission.materialized)
    && IsMaxTs(cycle, emission.timestamp)
  }

  /** All messages up to and including event `i`. */
  ghost function AllUpTo(events: seq<Event>, i: nat): seq<Message>
    requires i < |events|
  {
    Messages(events[..i + 1])
  }

  /** The messages of the cycle in progress, up to and including event `i`. */
  ghost function CycleUpTo(windows: set<string>, policy: Policy, events: seq<Event>, i: nat): seq<Message>
    requires i < |events|
  {
    Messages(events[BeginBefore(windows, policy, events, i)..i + 1])
  }

  /** Whether event `i` must emit, read off the history alone. */
  ghost predicate MustEmit(windows: set<string>, policy: Policy, events: seq<Event>, i: nat)
    requires i < |events|
  {
    Demands(windows, policy, events[i], AllUpTo(events, i), CycleUpTo(windows, policy, events, i))
  }

  /** What an emission at event `i` must carry, read off the history alone. */
  ghost predicate Carries(windows: set<string>, policy: Policy, events: seq<Event>, i: nat, emission: Emission)
    requires i < |events|
  {
    Holds(windows, AllUpTo(events, i), CycleUpTo(windows, policy, events, i), emission)
  }

  /** What the state must be, after draining a batch, for the decision to follow the history. */
  ghost predicate Reflects(windows: set<string>, all: seq<Message>, cycle: seq<Message>, s: State) {
    && s.triggered == WindowsOf(cycle) && s.triggered <= windows
    && IsMaxTs(cycle, s.maxTs)
    && StoresLatest(all, s.last) && s.last.Keys <= windows
  }

  lemma DeadlineDecision(windows: set<string>, policy: Policy, s: State, e: Event, all: seq<Message>,
                         cycle: seq<Message>)
    requires e.Deadline? && s.triggered != {} && Reflects(windows, all, cycle, s)
    ensures var emission := Step(windows, policy, s, e).1;
      && (emission.Some? <==> Demands(windows, policy, e, all, cycle))
      && (emission.Some? ==> Holds(windows, all, cycle, emission.value))
  {
    SameSize(s.last.Keys, windows);
  }

  lemma BatchDecision(windows: set<string>, policy: Policy, s: State, e: Event, all: seq<Message>, cycle: seq<Message>)
    requires e.Batch? && Reflects(windows, all, cycle, Drained(s, e))
    requires Drained(s, e).triggered <= Drained(s, e).last.Keys
    ensures var emission := Step(windows, policy, s, e).1;
      && (emission.Some? <==> Demands(windows, policy, e, all, cycle))
      && (emission.Some? ==> Holds(windows, all, cycle, emission.value))
  {
    var t := Drained(s, e);
    SameSize(t.triggered, windows);
    SameSize(t.last.Keys, windows);
  }

  /** At the last event the history is read to its end. */
  lemma AtTheEnd(windows: set<string>, policy: Policy, events: seq<Event>)
    requires events != []
    ensures var i := |events| - 1;
      && AllUpTo(events, i) == Messages(events)
      && CycleUpTo(windows, policy, events, i) == Messages(events[CycleBegin(windows, policy, events[..i])..])
  {
    assert events[..|events| - 1 + 1] == events;
  }

  lemma DeadlineMessages(events: seq<Event>, k: nat)
    requires events != [] && events[|events| - 1].Deadline? && k < |events|
    ensures Messages(events[k..]) == Messages(events[..|events| - 1][k..])
    ensures Messages(events) == Messages(events[..|events| - 1])
  {
    MessagesFrom(events, k);
  }

  lemma DeadlineReflects(windows: set<string>, policy: Policy, events: seq<Event>, s: State)
    requires events != [] && events[|events| - 1].Deadline?
    requires Enabled(windows, policy, s, events[|events| - 1])
    requires LoopHead(windows, policy, events[..|events| - 1], s)
    ensures var k := CycleBegin(windows, policy, events[..|events| - 1]);
      s.triggered != {} && Reflects(windows, Messages(events), Messages(events[k..]), s)
  {
    DeadlineMessages(events, CycleBegin(windows, policy, events[..|events| - 1]));
  }

  /** The decision at the last event of a history, from the state before it. */
  lemma Decides(windows: set<string>, policy: Policy, events: seq<Event>, s: State)
    requires events != []
    requires Enabled(windows, policy, s, events[|events| - 1])
    requires LoopHead(windows, policy, events[..|events| - 1], s)
    ensures var i, emission := |events| - 1, Step(windows, policy, s, events[|events| - 1]).1;
      && (emission.Some? <==> MustEmit(windows, policy, events, i))
      && (emission.Some? ==> Carries(windows, policy, events, i, emission.value))
  {
    var i := |events| - 1;
    var all, cycle := Messages(events), Messages(events[CycleBegin(windows, policy, events[..i])..]);
    AtTheEnd(windows, policy, events);
    if events[i].Deadline? {
      DeadlineReflects(windows, policy, events, s);
      DeadlineDecision(windows, policy, s, events[i], all, cycle);
    } else {
      DrainedState(windows, policy, events, s);
      BatchDecision(windows, policy, s, events[i], all, cycle);
    }
  }

  /** The demand at event `i` looks at nothing after it. */
  lemma DemandIsCausal(windows: set<string>, policy: Policy, events: seq<Event>, i: nat)
    requires i < |events|
    ensures var now := events[..i + 1];
      && now[..i] == events[..i]
      && AllUpTo(now, i) == AllUpTo(events, i)
      && CycleUpTo(windows, policy, now, i) == CycleUpTo(windows, policy, events, i)
  {
    var now := events[..i + 1];
    assert now[..i] == events[..i];
    assert now[..i + 1] == now;
    var k := BeginBefore(windows, policy, events, i);
    assert now[k..i + 1] == events[k..i + 1];
  }

  /** In every run the coordinator emits exactly when the history demands it, and exactly what it demands. */
  lemma EmitsExactly(windows: set<string>, policy: Policy, events: seq<Event>, i: nat)
    requires windows != {} && Run(windows, policy, events) && i < |events|
    ensures EmissionAt(windows, policy, events, i).Some? <==> MustEmit(windows, policy, events, i)
    ensures EmissionAt(windows, policy, events, i).Some? ==>
              Carries(windows, policy, events, i, EmissionAt(windows, policy, events, i).value)
  {
    RunPrefix(windows, policy, events, i);
    EveryLoopHead(windows, policy, events[..i]);
    DemandIsCausal(windows, policy, events, i);
    var s := StateAfter(windows, policy, events[..i]);
    Decides(windows, policy, events[..i + 1], s);
  }

  /** The cycle in progress was opened by a batch. */
  lemma {:induction false} OpenedByBatch(windows: set<string>, policy: Policy, events: seq<Event>)
    ensures var k := CycleBegin(windows, policy, events); k < |events| ==> events[k].Batch?
  {
    if events != [] {
      OpenedByBatch(windows, policy, events[..|events| - 1]);
    }
  }

  /** A deadline falls inside a partial cycle, at least the duration after the batch that opened it. */
  lemma DeadlinesAreLate(windows: set<string>, policy: Policy, events: seq<Event>, i: nat)
    requires windows != {} && Run(windows, policy, events) && i < |events| && events[i].Deadline?
    ensures policy.Timeout?
    ensures var k := BeginBefore(windows, policy, events, i);
      && k < i && events[k].Batch? && events[k].at + policy.duration <= events[i].at
      && {} < WindowsOf(Messages(events[k..i])) < windows
  {
    RunPrefix(windows, policy, events, i);
    EveryLoopHead(windows, policy, events[..i]);
    OpenedByBatch(windows, policy, events[..i]);
    var k := BeginBefore(windows, policy, events, i);
    assert events[..i][k..] == events[k..i];
  }

  /** One event leaves the begin of the cycle where it is, or moves it behind itself. */
  lemma CycleMoves(windows: set<string>, policy: Policy, events: seq<Event>)
    requires events != []
    ensures var n, k := |events| - 1, CycleBegin(windows, policy, events[..|events| - 1]);
      CycleBegin(windows, policy, events)
        == if events[n].Deadline? || policy.Steal? || WindowsOf(Messages(events[k..])) == windows then |events| else k
  {
  }

  lemma ClosedByDeadline(windows: set<string>, policy: Policy, events: seq<Event>, i: nat)
    requires i < |events| && !policy.Steal?
    requires CycleBegin(windows, policy, events[..i + 1]) == i + 1
    requires WindowsOf(CycleUpTo(windows, policy, events, i)) != windows
    ensures events[i].Deadline?
  {
    var now := events[..i + 1];
    assert now[i] == events[i] && |now| - 1 == i;
    AtTheEnd(windows, policy, now);
    DemandIsCausal(windows, policy, events, i);
    CycleMoves(windows, policy, now);
  }

  /** Outside Steal, a cycle that is still missing a window is closed only by a deadline. */
  lemma PartialCyclesCloseLate(windows: set<string>, policy: Policy, events: seq<Event>, i: nat)
    requires windows != {} && Run(windows, policy, events) && i < |events| && !policy.Steal?
    requires CycleBegin(windows, policy, events[..i + 1]) == i + 1
    requires WindowsOf(CycleUpTo(windows, policy, events, i)) != windows
    ensures var k := BeginBefore(windows, policy, events, i);
      policy.Timeout? && k < i && events[k].Batch? && events[k].at + policy.duration <= events[i].at
  {
    ClosedByDeadline(windows, policy, events, i);
    DeadlinesAreLate(windows, policy, events, i);
  }

  lemma AllHaveReported(windows: set<string>, policy: Policy, events: seq<Event>, i: nat)
    requires windows != {} && Run(windows, policy, events) && i < |events|
    requires EmissionAt(windows, policy, events, i).Some?
    ensures WindowsOf(AllUpTo(events, i)) == windows
  {
    EmitsExactly(windows, policy, events, i);
  }

  /** Every emission presupposes that every window has reported at least once. */
  lemma NoEmissionBeforeAllReport(windows: set<string>, policy: Policy, events: seq<Event>, i: nat, w: string)
    requires windows != {} && Run(windows, policy, events) && i < |events| && w in windows
    requires EmissionAt(windows, policy, events, i).Some?
    ensures exists j :: 0 <= j <= i && events[j].Batch? && exists m | m in events[j].messages :: m.window == w
  {
    AllHaveReported(windows, policy, events, i);
    ReportReceived(events, i, w);
  }

  lemma ReportReceived(events: seq<Event>, i: nat, w: string)
    requires i < |events| && w in WindowsOf(AllUpTo(events, i))
    ensures exists j :: 0 <= j <= i && events[j].Batch? && exists m | m in events[j].messages :: m.window == w
  {
    var m :| m in Messages(events[..i + 1]) && m.window == w;
    ReceivedAt(events[..i + 1], m);
    var j :| 0 <= j < i + 1 && events[..i + 1][j].Batch? && m in events[..i + 1][j].messages;
    assert events[j].Batch? && m in events[j].messages;
  }

  lemma {:induction false} ReceivedAt(events: seq<Event>, m: Message)
    requires m in Messages(events)
    ensures exists j :: 0 <= j < |events| && events[j].Batch? && m in events[j].messages
  {
    var n := |events| - 1;
    if m !in MessagesOf(events[n]) {
      ReceivedAt(events[..n], m);
      var j :| 0 <= j < n && events[..n][j].Batch? && m in events[..n][j].messages;
      assert events[j].Batch? && m in events[j].messages;
    }
  }

  /** The decision without the timestamp. */
  lemma FullCycle(windows: set<string>, policy: Policy, events: seq<Event>, i: nat)
    requires windows != {} && Run(windows, policy, events) && i < |events|
    requires policy.Wait? || (policy.Timeout? && policy.fallback.DropCycle?)
    requires EmissionAt(windows, policy, events, i).Some?
    ensures var last := EmissionAt(windows, policy, events, i).value.materialized;
      && events[i].Batch? && WindowsOf(CycleUpTo(windows, policy, events, i)) == windows
      && last.Keys == windows && StoresLatest(AllUpTo(events, i), last)
  {
    EmitsExactly(windows, policy, events, i);
  }

  lemma HistorySplit(events: seq<Event>, k: nat, i: nat)
    requires k <= i < |events|
    ensures Messages(events[..i + 1]) == Messages(events[..k]) + Messages(events[k..i + 1])
  {
    assert events[..k] + events[k..i + 1] == events[..i + 1];
    MessagesAppend(events[..k], events[k..i + 1]);
  }

  /** Under Wait, and under Timeout with Drop, the emitted result of every window was received in the
      cycle that the emission closes. */
  lemma EmissionsAreFresh(windows: set<string>, policy: Policy, events: seq<Event>, i: nat)
    requires windows != {} && Run(windows, policy, events) && i < |events|
    requires policy.Wait? || (policy.Timeout? && policy.fallback.DropCycle?)
    requires EmissionAt(windows, policy, events, i).Some?
    ensures var emission := EmissionAt(windows, policy, events, i).value;
      StoresLatest(CycleUpTo(windows, policy, events, i), emission.materialized)
  {
    FullCycle(windows, policy, events, i);
    var k := BeginBefore(windows, policy, events, i);
    HistorySplit(events, k, i);
    LatestAreRecent(windows, Messages(events[..k]), Messages(events[k..i + 1]),
                    EmissionAt(windows, policy, events, i).value.materialized);
  }

  lemma LatestAreRecent(windows: set<string>, before: seq<Message>, cycle: seq<Message>, last: Materialized)
    requires StoresLatest(before + cycle, last) && last.Keys == windows == WindowsOf(cycle)
    ensures StoresLatest(cycle, last)
  {
    forall w | w in last ensures IsLatest(cycle, w, last[w]) {
      LatestIsRecent(before, cycle, w, last[w]);
    }
  }

  lemma LatestIsRecent(a: seq<Message>, b: seq<Message>, w: string, rows: seq<Row>)
    requires w in WindowsOf(b) && IsLatest(a + b, w, rows)
    ensures IsLatest(b, w, rows)
  {
    var i :| 0 <= i < |a + b| && (a + b)[i].window == w && (a + b)[i].rows == rows
             && forall j | i < j < |a + b| :: (a + b)[j].window != w;
    var m :| m in b && m.window == w;
    var j :| 0 <= j < |b| && b[j] == m;
    assert (a + b)[|a| + j] == m;
    assert b[i - |a|] == (a + b)[i];
    forall l | i - |a| < l < |b| ensures b[l].window != w {
      assert (a + b)[|a| + l] == b[l];
    }
  }

  function CountFrom(messages: seq<Message>, w: string): nat {
    if messages == [] then 0
    else CountFrom(messages[..|messages| - 1], w) + if messages[|messages| - 1].window == w then 1 else 0
  }

  lemma {:induction false} CountAppend(a: seq<Message>, b: seq<Message>, w: string)
    ensures CountFrom(a + b, w) == CountFrom(a, w) + CountFrom(b, w)
    ensures w in WindowsOf(b) ==> CountFrom(b, w) > 0
    decreases |b|
  {
    if b == [] {
      assert a + b == a;
    } else {
      var n := |b| - 1;
      assert (a + b)[..|a + b| - 1] == a + b[..n];
      CountAppend(a, b[..n], w);
      assert b == b[..n] + [b[n]];
    }
  }

  lemma CountSplit(events: seq<Event>, k: nat, w: string)
    requires k <= |events|
    ensures CountFrom(Messages(events), w) == CountFrom(Messages(events[..k]), w) + CountFrom(Messages(events[k..]), w)
    ensures w in WindowsOf(Messages(events[k..])) ==> CountFrom(Messages(events[k..]), w) > 0
  {
    assert events[..k] + events[k..] == events;
    MessagesAppend(events[..k], events[k..]);
    CountAppend(Messages(events[..k]), Messages(events[k..]), w);
  }

  lemma EmissionClosesFullCycle(windows: set<string>, policy: Policy, events: seq<Event>)
    requires windows != {} && events != [] && Run(windows, policy, events)
    requires policy.Wait? || (policy.Timeout? && policy.fallback.DropCycle?)
    requires EmissionAt(windows, policy, events, |events| - 1).Some?
    ensures CycleBegin(windows, policy, events) == |events|
    ensures WindowsOf(Messages(events[CycleBegin(windows, policy, events[..|events| - 1])..])) == windows
  {
    var n := |events| - 1;
    FullCycle(windows, policy, events, n);
    AtTheEnd(windows, policy, events);
  }

  lemma BoundStep(windows: set<string>, policy: Policy, events: seq<Event>, w: string)
    requires events != []
    requires var n := |events| - 1; var j := CycleBegin(windows, policy, events[..n]);
      && Emissions(windows, policy, events[..n]) <= CountFrom(Messages(events[..j]), w)
      && (EmissionAt(windows, policy, events, n).Some? ==>
           CycleBegin(windows, policy, events) == |events| && w in WindowsOf(Messages(events[j..])))
    ensures Emissions(windows, policy, events) <= CountFrom(Messages(events[..CycleBegin(windows, policy, events)]), w)
  {
    CountSplit(events, CycleBegin(windows, policy, events[..|events| - 1]), w);
    TakeAll(events);
  }

  lemma {:induction false} EmissionsInClosedCycles(windows: set<string>, policy: Policy, events: seq<Event>, w: string)
    requires windows != {} && Run(windows, policy, events) && w in windows
    requires policy.Wait? || (policy.Timeout? && policy.fallback.DropCycle?)
    ensures Emissions(windows, policy, events) <= CountFrom(Messages(events[..CycleBegin(windows, policy, events)]), w)
  {
    if events != [] {
      var n := |events| - 1;
      EmissionsInClosedCycles(windows, policy, events[..n], w);
      var j := CycleBegin(windows, policy, events[..n]);
      assert events[..n][..j] == events[..j];
      if EmissionAt(windows, policy, events, n).Some? {
        EmissionClosesFullCycle(windows, policy, events);
      }
      assert Emissions(windows, policy, events)
          == Emissions(windows, policy, events[..n]) + if EmissionAt(windows, policy, events, n).Some? then 1 else 0;
      BoundStep(windows, policy, events, w);
    }
  }

  /** Under Wait, and under Timeout with Drop, no window reports less often than the coordinator emits. */
  lemma EmissionsBounded(windows: set<string>, policy: Policy, events: seq<Event>, w: string)
    requires windows != {} && Run(windows, policy, events) && w in windows
    requires policy.Wait? || (policy.Timeout? && policy.fallback.DropCycle?)
    ensures Emissions(windows, policy, events) <= CountFrom(Messages(events), w)
  {
    EmissionsInClosedCycles(windows, policy, events, w);
    CountSplit(events, CycleBegin(windows, policy, events), w);
  }
}
