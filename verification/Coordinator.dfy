/** The thread that collects the results of several windows and decides when to emit. */
module Coordinator {
  import opened Options
  import opened SolutionMappings
  import opened WindowJoin
  import opened Sequences
  import opened Naturals
  import opened SetListings

  datatype Message = Message(window: string, rows: seq<Row>, timestamp: nat)

  datatype Fallback = StealStale | DropCycle

  datatype Policy = Steal | Wait | Timeout(duration: nat, fallback: Fallback)

  /** What the loop wakes up for: a batch of pending results, or the end of the time limit.
      `at` is the reading of a clock that never goes back. */
  datatype Event = Batch(messages: seq<Message>, at: nat) | Deadline(at: nat)

  datatype State = State(last: Materialized, triggered: set<string>, cycleStart: Option<nat>, maxTs: nat)

  /** What an emission joins, and the timestamp it carries. */
  datatype Emission = Emission(materialized: Materialized, timestamp: nat)

  const INITIAL := State(map[], {}, None, 0)

  // ---------------------------------------------------------------- one turn of the loop

  function Reset(s: State): State {
    s.(triggered := {}, cycleStart := None, maxTs := 0)
  }

  function Absorb(s: State, m: Message): State {
    s.(last := s.last[m.window := m.rows], triggered := s.triggered + {m.window}, maxTs := Max(s.maxTs, m.timestamp))
  }

  function AbsorbAll(s: State, messages: seq<Message>): State {
    if messages == [] then s
    else Absorb(AbsorbAll(s, messages[..|messages| - 1]), messages[|messages| - 1])
  }

  lemma AbsorbFirst(s: State, messages: seq<Message>)
    requires messages != []
    ensures AbsorbAll(s, messages[..1]) == Absorb(s, messages[0])
  {
    assert messages[..1][..0] == [];
  }

  function Current(s: State): Option<Emission> {
    Some(Emission(s.last, s.maxTs))
  }

  /** The state and the emission, if any, after one event; `windows` are the configured windows. */
  function Step(windows: set<string>, policy: Policy, s: State, e: Event): (State, Option<Emission>) {
    match e
    case Batch(messages, at) =>
      var started := if s.triggered == {} then s.(cycleStart := Some(at)) else s;
      var t := AbsorbAll(started, messages);
      if |t.triggered| == |windows| then (Reset(t), Current(t))
      else if policy.Steal? then (Reset(t), if |t.last| == |windows| then Current(t) else None)
      else (t, None)
    case Deadline(_) =>
      if s.triggered == {} then (s, None)
      else
        var steals := policy.Timeout? && policy.fallback.StealStale? && |s.last| == |windows|;
        (Reset(s), if steals then Current(s) else None)
  }

  /** The loop of the coordinator thread, one method per way of waking up. */
  class CoordinatorLoop {
    const windows: set<string>
    const policy: Policy
    var last: Materialized
    var triggered: set<string>
    var cycleStart: Option<nat>
    var maxTs: nat

    ghost function Abstract(): State
      reads this
    {
      State(last, triggered, cycleStart, maxTs)
    }

    constructor (windows: set<string>, policy: Policy)
      ensures this.windows == windows && this.policy == policy && Abstract() == INITIAL
    {
      this.windows, this.policy := windows, policy;
      last, triggered, cycleStart, maxTs := map[], {}, None, 0;
    }

    method ResetCycle()
      modifies this
      ensures Abstract() == Reset(old(Abstract()))
    {
      triggered, cycleStart, maxTs := {}, None, 0;
    }

    /** Stores everything that is pending behind the first result. */
    method Drain(messages: seq<Message>, ghost started: State)
      requires messages != [] && Abstract() == AbsorbAll(started, messages[..1])
      modifies this
      ensures Abstract() == AbsorbAll(started, messages)
    {
      for i := 1 to |messages|
        invariant Abstract() == AbsorbAll(started, messages[..i])
      {
        var m := messages[i];
        maxTs := Max(maxTs, m.timestamp);
        last := last[m.window := m.rows];
        triggered := triggered + {m.window};
        assert messages[..i] + [m] == messages[..i + 1];
      }
      TakeAll(messages);
    }

    /** A first result and everything already pending behind it. */
    method Receive(messages: seq<Message>, at: nat) returns (emission: Option<Emission>)
      requires messages != []
      modifies this
      ensures (Abstract(), emission) == Step(windows, policy, old(Abstract()), Batch(messages, at))
    {
      maxTs := Max(maxTs, messages[0].timestamp);
      last := last[messages[0].window := messages[0].rows];
      if triggered == {} {
        cycleStart := Some(at);
      }
      ghost var started := old(if triggered == {} then Abstract().(cycleStart := Some(at)) else Abstract());
      triggered := triggered + {messages[0].window};
      AbsorbFirst(started, messages);
      Drain(messages, started);
      emission := None;
      if |triggered| == |windows| {
        emission := Some(Emission(last, maxTs));
        ResetCycle();
      } else {
        match policy
        case Steal =>
          if |last| == |windows| {
            emission := Some(Emission(last, maxTs));
          }
          ResetCycle();
        case Wait =>
        case Timeout(_, _) =>
      }
    }

    /** The time limit of the current cycle has passed. */
    method Expire(at: nat) returns (emission: Option<Emission>)
      modifies this
      ensures (Abstract(), emission) == Step(windows, policy, old(Abstract()), Deadline(at))
    {
      emission := None;
      if triggered != {} {
        match policy {
          case Timeout(_, StealStale) =>
            if |last| == |windows| {
              emission := Some(Emission(last, maxTs));
            }
          case _ =>
        }
        ResetCycle();
      }
    }
  }

  // ---------------------------------------------------------------- runs

  /** The event can occur: results come from configured windows, and the loop waits with a time limit
      only under a time-limited policy and inside a cycle, until that limit has passed. */
  ghost predicate Enabled(windows: set<string>, policy: Policy, s: State, e: Event) {
    match e
    case Batch(messages, _) => messages != [] && forall m | m in messages :: m.window in windows
    case Deadline(at) => policy.Timeout? && s.cycleStart.Some? && s.cycleStart.value + policy.duration <= at
  }

  function StateAfter(windows: set<string>, policy: Policy, events: seq<Event>): State {
    if events == [] then INITIAL
    else Step(windows, policy, StateAfter(windows, policy, events[..|events| - 1]), events[|events| - 1]).0
  }

  ghost predicate Run(windows: set<string>, policy: Policy, events: seq<Event>) {
    events != [] ==>
      var n := |events| - 1;
      Run(windows, policy, events[..n]) && Enabled(windows, policy, StateAfter(windows, policy, events[..n]), events[n])
  }

  function EmissionAt(windows: set<string>, policy: Policy, events: seq<Event>, i: nat): Option<Emission>
    requires i < |events|
  {
    Step(windows, policy, StateAfter(windows, policy, events[..i]), events[i]).1
  }

  function Emissions(windows: set<string>, policy: Policy, events: seq<Event>): nat {
    if events == [] then 0 else
    var n := |events| - 1;
    Emissions(windows, policy, events[..n]) + if EmissionAt(windows, policy, events, n).Some? then 1 else 0
  }

  // ---------------------------------------------------------------- history

  /** All messages received in `events`, in order. */
  function Messages(events: seq<Event>): seq<Message> {
    if events == [] then []
    else Messages(events[..|events| - 1]) + MessagesOf(events[|events| - 1])
  }

  function MessagesOf(e: Event): seq<Message> {
    if e.Batch? then e.messages else []
  }

  ghost function WindowsOf(messages: seq<Message>): set<string> {
    set m | m in messages :: m.window
  }

  ghost predicate IsLatest(messages: seq<Message>, w: string, rows: seq<Row>) {
    exists i | 0 <= i < |messages| ::
      messages[i].window == w && messages[i].rows == rows && forall j | i < j < |messages| :: messages[j].window != w
  }

  ghost predicate IsMaxTs(messages: seq<Message>, ts: nat) {
    && (forall m | m in messages :: m.timestamp <= ts)
    && if messages == [] then ts == 0 else exists m | m in messages :: m.timestamp == ts
  }

  /** Where the current cycle begins, read off the history alone: the last turn after which every
      window had fired in the cycle, or, under Steal, any turn; and any passed time limit. */
  ghost function CycleBegin(windows: set<string>, policy: Policy, events: seq<Event>): (k: nat)
    ensures k <= |events|
  {
    if events == [] then 0
    else
      var n := |events| - 1;
      var k := CycleBegin(windows, policy, events[..n]);
      if events[n].Deadline? || policy.Steal? || WindowsOf(Messages(events[k..])) == windows then n + 1 else k
  }

  /** The stored results: for every window that ever reported, the last result received from it. */
  ghost predicate StoresLatest(messages: seq<Message>, last: Materialized) {
    && last.Keys == WindowsOf(messages)
    && forall w | w in last :: IsLatest(messages, w, last[w])
  }

  /** The cycle variables, given the turn `k` at which the cycle begins. */
  ghost predicate TracksCycle(events: seq<Event>, k: nat, s: State)
    requires k <= |events|
  {
    && s.triggered == WindowsOf(Messages(events[k..]))
    && IsMaxTs(Messages(events[k..]), s.maxTs)
    && s.cycleStart == (if k < |events| then Some(events[k].at) else None)
    && (s.triggered != {} <==> k < |events|)
  }

  /** What every loop head of every run satisfies: the four variables are functions of the history,
      and some window is still missing from the cycle. */
  ghost predicate LoopHead(windows: set<string>, policy: Policy, events: seq<Event>, s: State) {
    && TracksCycle(events, CycleBegin(windows, policy, events), s)
    && StoresLatest(Messages(events), s.last)
    && s.triggered < windows
    && s.triggered <= s.last.Keys <= windows
  }

  lemma {:induction false} MessagesAppend(a: seq<Event>, b: seq<Event>)
    ensures Messages(a + b) == Messages(a) + Messages(b)
    decreases |b|
  {
    if b == [] {
      AppendNothing(a, b);
      AppendNothing(Messages(a), []);
    } else {
      var n := |b| - 1;
      assert (a + b)[..|a + b| - 1] == a + b[..n] && (a + b)[|a + b| - 1] == b[n];
      MessagesAppend(a, b[..n]);
      AppendTwo(Messages(a), Messages(b[..n]), MessagesOf(b[n]));
    }
  }

  lemma MessagesFrom(events: seq<Event>, k: nat)
    requires 0 < |events| && k < |events|
    ensures Messages(events[k..]) == Messages(events[..|events| - 1][k..]) + MessagesOf(events[|events| - 1])
  {
    assert events[k..][..|events[k..]| - 1] == events[..|events| - 1][k..];
  }

  lemma WindowsOfAppend(a: seq<Message>, b: seq<Message>)
    ensures WindowsOf(a + b) == WindowsOf(a) + WindowsOf(b)
  {
  }

  lemma {:induction false} AbsorbAllKeys(s: State, messages: seq<Message>)
    ensures var t := AbsorbAll(s, messages);
      && t.triggered == s.triggered + WindowsOf(messages)
      && t.last.Keys == s.last.Keys + WindowsOf(messages)
      && t.cycleStart == s.cycleStart
  {
    if messages != [] {
      var n := |messages| - 1;
      AbsorbAllKeys(s, messages[..n]);
      assert messages == messages[..n] + [messages[n]];
      assert WindowsOf([messages[n]]) == {messages[n].window};
    }
  }

  lemma LatestOne(earlier: seq<Message>, m: Message)
    ensures IsLatest(earlier + [m], m.window, m.rows)
    ensures forall w, rows | w != m.window && IsLatest(earlier, w, rows) :: IsLatest(earlier + [m], w, rows)
  {
    assert (earlier + [m])[|earlier|] == m;
    forall w, rows | w != m.window && IsLatest(earlier, w, rows) ensures IsLatest(earlier + [m], w, rows) {
      var i :| 0 <= i < |earlier| && earlier[i].window == w && earlier[i].rows == rows
               && forall j | i < j < |earlier| :: earlier[j].window != w;
      assert (earlier + [m])[i] == earlier[i];
    }
  }

  lemma {:induction false} AbsorbAllStores(s: State, earlier: seq<Message>, messages: seq<Message>)
    requires StoresLatest(earlier, s.last)
    ensures StoresLatest(earlier + messages, AbsorbAll(s, messages).last)
    decreases |messages|
  {
    if messages == [] {
      assert earlier + messages == earlier;
    } else {
      var n := |messages| - 1;
      AbsorbAllStores(s, earlier, messages[..n]);
      LatestOne(earlier + messages[..n], messages[n]);
      assert earlier + messages == (earlier + messages[..n]) + [messages[n]];
    }
  }

  lemma {:induction false} AbsorbAllMaxTs(s: State, earlier: seq<Message>, messages: seq<Message>)
    requires IsMaxTs(earlier, s.maxTs)
    ensures IsMaxTs(earlier + messages, AbsorbAll(s, messages).maxTs)
    decreases |messages|
  {
    if messages == [] {
      assert earlier + messages == earlier;
    } else {
      var n := |messages| - 1;
      AbsorbAllMaxTs(s, earlier, messages[..n]);
      assert earlier + messages == (earlier + messages[..n]) + [messages[n]];
    }
  }

  lemma {:induction false} RunPrefix(windows: set<string>, policy: Policy, events: seq<Event>, n: nat)
    requires Run(windows, policy, events) && n <= |events|
    ensures Run(windows, policy, events[..n])
    ensures n < |events| ==> Enabled(windows, policy, StateAfter(windows, policy, events[..n]), events[n])
    decreases |events|
  {
    if n < |events| {
      RunPrefix(windows, policy, events[..|events| - 1], n);
      assert events[..|events| - 1][..n] == events[..n];
    } else {
      assert events[..n] == events;
    }
  }

  /** At every loop head of every run the four variables are what the history prescribes. */
  lemma {:induction false} EveryLoopHead(windows: set<string>, policy: Policy, events: seq<Event>)
    requires windows != {} && Run(windows, policy, events)
    ensures LoopHead(windows, policy, events, StateAfter(windows, policy, events))
  {
    if events != [] {
      var n := |events| - 1;
      RunPrefix(windows, policy, events, n);
      EveryLoopHead(windows, policy, events[..n]);
      if events[n].Deadline? {
        LoopHeadAfterDeadline(windows, policy, events);
      } else {
        LoopHeadAfterBatch(windows, policy, events, StateAfter(windows, policy, events[..n]));
      }
    }
  }

  /** The state in which the emission decision is taken. */
  function Drained(s: State, e: Event): State
    requires e.Batch?
  {
    AbsorbAll(if s.triggered == {} then s.(cycleStart := Some(e.at)) else s, e.messages)
  }

  lemma DrainedState(windows: set<string>, policy: Policy, events: seq<Event>, s: State)
    requires events != [] && events[|events| - 1].Batch?
    requires Enabled(windows, policy, s, events[|events| - 1])
    requires LoopHead(windows, policy, events[..|events| - 1], s)
    ensures var n := |events| - 1;
      var t := Drained(s, events[n]);
      && TracksCycle(events, CycleBegin(windows, policy, events[..n]), t)
      && StoresLatest(Messages(events), t.last)
      && {} < t.triggered <= t.last.Keys <= windows
  {
    var n := |events| - 1;
    var k := CycleBegin(windows, policy, events[..n]);
    var batch := events[n].messages;
    var started := if s.triggered == {} then s.(cycleStart := Some(events[n].at)) else s;
    AbsorbAllKeys(started, batch);
    AbsorbAllMaxTs(started, Messages(events[..n][k..]), batch);
    AbsorbAllStores(started, Messages(events[..n]), batch);
    MessagesFrom(events, k);
    WindowsOfAppend(Messages(events[..n][k..]), batch);
    assert batch[0].window in WindowsOf(batch);
  }

  lemma LoopHeadAfterDeadline(windows: set<string>, policy: Policy, events: seq<Event>)
    requires windows != {} && events != []
    requires var n := |events| - 1;
      var s := StateAfter(windows, policy, events[..n]);
      events[n].Deadline? && Enabled(windows, policy, s, events[n]) && LoopHead(windows, policy, events[..n], s)
    ensures LoopHead(windows, policy, events, StateAfter(windows, policy, events))
  {
    var n := |events| - 1;
    assert Messages(events) == Messages(events[..n]);
  }

  /** The cycle closes exactly when the history says so. */
  lemma ClosesCycle(windows: set<string>, policy: Policy, events: seq<Event>, s: State, t: State)
    requires events != [] && events[|events| - 1].Batch?
    requires t == Drained(s, events[|events| - 1])
    requires TracksCycle(events, CycleBegin(windows, policy, events[..|events| - 1]), t) && t.triggered <= windows
    ensures var closes := policy.Steal? || t.triggered == windows;
      && Step(windows, policy, s, events[|events| - 1]).0 == (if closes then Reset(t) else t)
      && CycleBegin(windows, policy, events)
          == (if closes then |events| else CycleBegin(windows, policy, events[..|events| - 1]))
  {
    SameSize(t.triggered, windows);
  }

  lemma AfterClosing(windows: set<string>, policy: Policy, events: seq<Event>, t: State)
    requires windows != {} && CycleBegin(windows, policy, events) == |events|
    requires StoresLatest(Messages(events), t.last) && t.last.Keys <= windows
    ensures LoopHead(windows, policy, events, Reset(t))
  {
  }

  lemma AfterWaiting(windows: set<string>, policy: Policy, events: seq<Event>, t: State)
    requires TracksCycle(events, CycleBegin(windows, policy, events), t)
    requires StoresLatest(Messages(events), t.last) && t.triggered <= t.last.Keys <= windows && t.triggered != windows
    ensures LoopHead(windows, policy, events, t)
  {
  }

  lemma LoopHeadAfterBatch(windows: set<string>, policy: Policy, events: seq<Event>, s: State)
    requires windows != {} && events != [] && events[|events| - 1].Batch?
    requires Enabled(windows, policy, s, events[|events| - 1])
    requires LoopHead(windows, policy, events[..|events| - 1], s)
    ensures LoopHead(windows, policy, events, Step(windows, policy, s, events[|events| - 1]).0)
  {
    var t := Drained(s, events[|events| - 1]);
    DrainedState(windows, policy, events, s);
    ClosesCycle(windows, policy, events, s, t);
    if policy.Steal? || t.triggered == windows {
      AfterClosing(windows, policy, events, t);
    } else {
      AfterWaiting(windows, policy, events, t);
    }
  }
}
