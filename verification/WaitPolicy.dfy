/** Under Wait the greedy cycles of the coordinator emit as often as any way of cutting the
    stream of batches into complete rounds could. */
module WaitPolicy {
  import opened Coordinator
  import opened CoordinatorRuns
  import opened Sequences

  /** The batches from `a` up to `b` contain a result of every window. */
  ghost predicate Covers(windows: set<string>, events: seq<Event>, a: nat, b: nat) {
    a <= b <= |events| && WindowsOf(Messages(events[a..b])) == windows
  }

  /** Consecutive segments of batches, each of which covers all windows. */
  ghost predicate Rounds(windows: set<string>, events: seq<Event>, rounds: seq<(nat, nat)>) {
    && (forall i | 0 <= i < |rounds| :: Covers(windows, events, rounds[i].0, rounds[i].1))
    && (forall i | 0 < i < |rounds| :: rounds[i - 1].1 <= rounds[i].0)
  }

  /** Under Wait a run is just a sequence of non-empty batches of results of the configured windows. */
  ghost predicate Feed(windows: set<string>, e: Event) {
    e.Batch? && e.messages != [] && forall m | m in e.messages :: m.window in windows
  }

  lemma {:induction false} WaitRun(windows: set<string>, events: seq<Event>)
    ensures Run(windows, Wait, events) <==> forall i | 0 <= i < |events| :: Feed(windows, events[i])
  {
    if events != [] {
      var n := |events| - 1;
      WaitRun(windows, events[..n]);
      assert Run(windows, Wait, events) <==> Run(windows, Wait, events[..n]) && Feed(windows, events[n]);
      assert forall i | 0 <= i < n :: events[..n][i] == events[i];
    }
  }

  lemma WaitEmits(windows: set<string>, events: seq<Event>)
    requires windows != {} && events != [] && Run(windows, Wait, events)
    ensures var n := |events| - 1;
      && events[n].Batch?
      && (EmissionAt(windows, Wait, events, n).Some? <==>
           WindowsOf(Messages(events[CycleBegin(windows, Wait, events[..n])..])) == windows)
  {
    EmitsExactly(windows, Wait, events, |events| - 1);
    AtTheEnd(windows, Wait, events);
  }

  /** The last event either closes the cycle and emits, or does neither. */
  lemma LastWaitStep(windows: set<string>, events: seq<Event>)
    requires windows != {} && events != [] && Run(windows, Wait, events)
    ensures var n, k := |events| - 1, CycleBegin(windows, Wait, events[..|events| - 1]);
      var full := WindowsOf(Messages(events[k..])) == windows;
      && CycleBegin(windows, Wait, events) == (if full then n + 1 else k)
      && Emissions(windows, Wait, events) == Emissions(windows, Wait, events[..n]) + (if full then 1 else 0)
  {
    WaitEmits(windows, events);
  }

  /** Event `n` either covers the windows, counted from `begin`, closes the cycle and emits; or does neither. */
  ghost predicate StepsAt(windows: set<string>, events: seq<Event>, n: nat, begin: nat, count: nat, begin': nat,
                          count': nat) {
    if Covers(windows, events, begin, n + 1) then begin' == n + 1 && count' == count + 1
    else begin' == begin && count' == count
  }

  /** An emission closes the cycle in progress, and nothing else does. */
  lemma WaitStep(windows: set<string>, events: seq<Event>, n: nat)
    requires windows != {} && Run(windows, Wait, events) && n < |events|
    ensures StepsAt(windows, events, n, CycleBegin(windows, Wait, events[..n]), Emissions(windows, Wait, events[..n]),
                    CycleBegin(windows, Wait, events[..n + 1]), Emissions(windows, Wait, events[..n + 1]))
  {
    var now := events[..n + 1];
    RunPrefix(windows, Wait, events, n + 1);
    assert now[..n] == events[..n];
    var k := CycleBegin(windows, Wait, events[..n]);
    assert now[k..] == events[k..n + 1];
    LastWaitStep(windows, now);
  }

  /** Where the cycle in progress began, and how many emissions there were, after each prefix. */
  ghost predicate Progress(windows: set<string>, events: seq<Event>, begin: seq<nat>, count: seq<nat>) {
    && |begin| == |count| == |events| + 1
    && begin[0] == count[0] == 0
    && forall n | 0 <= n < |events| :: StepsAt(windows, events, n, begin[n], count[n], begin[n + 1], count[n + 1])
  }

  ghost function Begins(windows: set<string>, events: seq<Event>): seq<nat> {
    seq(|events| + 1, i requires 0 <= i <= |events| => CycleBegin(windows, Wait, events[..i]))
  }

  ghost function Counts(windows: set<string>, events: seq<Event>): seq<nat> {
    seq(|events| + 1, i requires 0 <= i <= |events| => Emissions(windows, Wait, events[..i]))
  }

  lemma CoordinatorProgress(windows: set<string>, events: seq<Event>)
    requires windows != {} && Run(windows, Wait, events)
    ensures Progress(windows, events, Begins(windows, events), Counts(windows, events))
    ensures Counts(windows, events)[|events|] == Emissions(windows, Wait, events)
  {
    var begin, count := Begins(windows, events), Counts(windows, events);
    forall n | 0 <= n < |events| ensures StepsAt(windows, events, n, begin[n], count[n], begin[n + 1], count[n + 1]) {
      WaitStep(windows, events, n);
    }
    TakeAll(events);
  }

  lemma CoverGrows(windows: set<string>, events: seq<Event>, k: nat, a: nat, b: nat)
    requires forall i | 0 <= i < |events| :: Feed(windows, events[i])
    requires k <= a && Covers(windows, events, a, b)
    ensures Covers(windows, events, k, b)
  {
    assert events[k..b] == events[k..a] + events[a..b];
    MessagesAppend(events[k..a], events[a..b]);
    forall m | m in Messages(events[k..a]) ensures m.window in windows {
      ReceivedAt(events[k..a], m);
      var j :| 0 <= j < |events[k..a]| && events[k..a][j].Batch? && m in events[k..a][j].messages;
      assert Feed(windows, events[k + j]);
    }
  }

  /** As long as nothing is emitted after turn `a`, the cycle in progress began at or before `a`. */
  lemma {:induction false} CycleStaysOpen(windows: set<string>, events: seq<Event>, begin: seq<nat>, count: seq<nat>,
                                          a: nat, b: nat)
    requires Progress(windows, events, begin, count) && a <= b <= |events|
    ensures count[a] <= count[b]
    ensures begin[b] <= b
    ensures count[a] == count[b] ==> begin[b] <= a
    decreases b
  {
    if a < b {
      CycleStaysOpen(windows, events, begin, count, a, b - 1);
    } else if b > 0 {
      CycleStaysOpen(windows, events, begin, count, a - 1, b - 1);
    }
  }

  lemma RoundEmits(windows: set<string>, events: seq<Event>, begin: seq<nat>, count: seq<nat>, a: nat, b: nat)
    requires forall i | 0 <= i < |events| :: Feed(windows, events[i])
    requires windows != {} && Progress(windows, events, begin, count) && Covers(windows, events, a, b)
    ensures count[a] < count[b]
  {
    assert events[a..a] == [] && WindowsOf(Messages(events[a..a])) == {};
    CycleStaysOpen(windows, events, begin, count, a, b - 1);
    if count[a] == count[b - 1] {
      CoverGrows(windows, events, begin[b - 1], a, b);
    }
  }

  lemma {:induction false} RoundsBefore(windows: set<string>, events: seq<Event>, begin: seq<nat>, count: seq<nat>,
                                        rounds: seq<(nat, nat)>, n: nat)
    requires forall i | 0 <= i < |events| :: Feed(windows, events[i])
    requires windows != {} && Progress(windows, events, begin, count) && Rounds(windows, events, rounds)
    requires n <= |events| && (rounds != [] ==> rounds[|rounds| - 1].1 <= n)
    ensures |rounds| <= count[n]
    decreases |rounds|
  {
    if rounds != [] {
      var r := |rounds| - 1;
      var (a, b) := rounds[r];
      assert Covers(windows, events, rounds[r].0, rounds[r].1);
      assert r > 0 ==> rounds[r - 1].1 <= rounds[r].0;
      RoundsBefore(windows, events, begin, count, rounds[..r], a);
      RoundEmits(windows, events, begin, count, a, b);
      CycleStaysOpen(windows, events, begin, count, b, n);
    }
  }

  /** No way of cutting the batches into rounds yields more rounds than the coordinator emits ... */
  lemma GreedyIsOptimal(windows: set<string>, events: seq<Event>, rounds: seq<(nat, nat)>)
    requires windows != {} && Run(windows, Wait, events) && Rounds(windows, events, rounds)
    ensures |rounds| <= Emissions(windows, Wait, events)
  {
    WaitRun(windows, events);
    CoordinatorProgress(windows, events);
    var begin, count := Begins(windows, events), Counts(windows, events);
    if rounds != [] {
      assert Covers(windows, events, rounds[|rounds| - 1].0, rounds[|rounds| - 1].1);
    }
    RoundsBefore(windows, events, begin, count, rounds, |events|);
  }

  lemma {:induction false} RoundsUpTo(windows: set<string>, events: seq<Event>, begin: seq<nat>, count: seq<nat>,
                                      n: nat)
    returns (rounds: seq<(nat, nat)>)
    requires Progress(windows, events, begin, count) && n <= |events|
    ensures Rounds(windows, events, rounds) && |rounds| == count[n]
    ensures rounds != [] ==> rounds[|rounds| - 1].1 <= begin[n]
  {
    if n == 0 {
      rounds := [];
    } else {
      rounds := RoundsUpTo(windows, events, begin, count, n - 1);
      if Covers(windows, events, begin[n - 1], n) {
        rounds := rounds + [(begin[n - 1], n)];
      }
    }
  }

  /** ... and one way yields exactly as many: the greedy cycle is optimal. */
  lemma GreedyIsAttained(windows: set<string>, events: seq<Event>)
    requires windows != {} && Run(windows, Wait, events)
    ensures exists rounds :: Rounds(windows, events, rounds) && |rounds| == Emissions(windows, Wait, events)
  {
    CoordinatorProgress(windows, events);
    var begin, count := Begins(windows, events), Counts(windows, events);
    var rounds := RoundsUpTo(windows, events, begin, count, |events|);
  }

  /** The events with the batches `k` and `k + 1` drained together. */
  function MergeBatches(events: seq<Event>, k: nat): seq<Event>
    requires k + 1 < |events| && events[k].Batch? && events[k + 1].Batch?
  {
    events[..k] + [Batch(events[k].messages + events[k + 1].messages, events[k].at)] + events[k + 2..]
  }

  /** Where turn `i` of the merged events lies in the original ones. */
  function Unmerged(k: nat, i: nat): nat {
    if i <= k then i else i + 1
  }

  lemma MergedTexts(events: seq<Event>, k: nat, i: nat)
    requires k + 1 < |events| && events[k].Batch? && events[k + 1].Batch? && k < i < |events|
    ensures var merged := MergeBatches(events, k);
      && merged[..k] == events[..k] && merged[..i] == merged[..i - 1] + [merged[i - 1]]
      && (i > k + 1 ==> merged[i - 1] == events[i])
      && events[..i + 1] == events[..i] + [events[i]]
      && events[..k + 1] == events[..k] + [events[k]]
  {
  }

  lemma MergedAt(events: seq<Event>, k: nat)
    requires k + 1 < |events| && events[k].Batch? && events[k + 1].Batch?
    ensures Messages(MergeBatches(events, k)[..k + 1]) == Messages(events[..k + 2])
  {
    var merged, i := MergeBatches(events, k), k + 1;
    MergedTexts(events, k, i);
  }

  lemma ShiftedStep(a: seq<Event>, b: seq<Event>, i: nat)
    requires 0 < i <= |a| && i < |b| && a[i - 1] == b[i]
    requires Messages(a[..i - 1]) == Messages(b[..i])
    ensures Messages(a[..i]) == Messages(b[..i + 1])
  {
    assert a[..i] == a[..i - 1] + [a[i - 1]] && b[..i + 1] == b[..i] + [b[i]];
  }

  lemma {:induction false} MergedPrefix(events: seq<Event>, k: nat, i: nat)
    requires k + 1 < |events| && events[k].Batch? && events[k + 1].Batch?
    requires k < i <= |events| - 1
    ensures Messages(MergeBatches(events, k)[..i]) == Messages(events[..i + 1])
  {
    if i == k + 1 {
      MergedAt(events, k);
    } else {
      MergedPrefix(events, k, i - 1);
      ShiftedStep(MergeBatches(events, k), events, i);
    }
  }

  lemma MergedUpTo(events: seq<Event>, k: nat, i: nat)
    requires k + 1 < |events| && events[k].Batch? && events[k + 1].Batch?
    requires i <= |events| - 1
    ensures Messages(MergeBatches(events, k)[..i]) == Messages(events[..Unmerged(k, i)])
  {
    if i <= k {
      assert MergeBatches(events, k)[..i] == events[..i];
    } else {
      MergedPrefix(events, k, i);
    }
  }

  lemma SplitMessages(events: seq<Event>, a: nat, b: nat)
    requires a <= b <= |events|
    ensures Messages(events[..b]) == Messages(events[..a]) + Messages(events[a..b])
  {
    assert events[..b] == events[..a] + events[a..b];
    MessagesAppend(events[..a], events[a..b]);
  }

  lemma CancelPrefix<T>(p: seq<T>, x: seq<T>, y: seq<T>)
    requires p + x == p + y
    ensures x == y
  {
    assert x == (p + x)[|p|..] && y == (p + y)[|p|..];
  }

  lemma MergedSlice(events: seq<Event>, k: nat, a: nat, b: nat)
    requires k + 1 < |events| && events[k].Batch? && events[k + 1].Batch?
    requires a <= b <= |events| - 1
    ensures Messages(MergeBatches(events, k)[a..b]) == Messages(events[Unmerged(k, a)..Unmerged(k, b)])
  {
    MergedUpTo(events, k, a);
    MergedUpTo(events, k, b);
    SplitMessages(MergeBatches(events, k), a, b);
    SplitMessages(events, Unmerged(k, a), Unmerged(k, b));
    CancelPrefix(Messages(events[..Unmerged(k, a)]), Messages(MergeBatches(events, k)[a..b]),
                 Messages(events[Unmerged(k, a)..Unmerged(k, b)]));
  }

  lemma MergedFeed(windows: set<string>, events: seq<Event>, k: nat)
    requires k + 1 < |events| && forall i | 0 <= i < |events| :: Feed(windows, events[i])
    ensures events[k].Batch? && events[k + 1].Batch?
    ensures forall i | 0 <= i < |MergeBatches(events, k)| :: Feed(windows, MergeBatches(events, k)[i])
  {
    assert Feed(windows, events[k]) && Feed(windows, events[k + 1]);
    var merged := MergeBatches(events, k);
    forall i | 0 <= i < |merged| ensures Feed(windows, merged[i]) {
      assert i != k ==> merged[i] == events[Unmerged(k, i)];
      assert i != k ==> Feed(windows, events[Unmerged(k, i)]);
    }
  }

  /** Rounds of the merged batches are rounds of the original ones. */
  lemma RoundsUnmerged(windows: set<string>, events: seq<Event>, k: nat, rounds: seq<(nat, nat)>)
    requires k + 1 < |events| && events[k].Batch? && events[k + 1].Batch?
    requires Rounds(windows, MergeBatches(events, k), rounds)
    ensures exists moved :: Rounds(windows, events, moved) && |moved| == |rounds|
  {
    var merged := MergeBatches(events, k);
    var moved := seq(|rounds|, i requires 0 <= i < |rounds| => (Unmerged(k, rounds[i].0), Unmerged(k, rounds[i].1)));
    forall i | 0 <= i < |moved| ensures Covers(windows, events, moved[i].0, moved[i].1) {
      assert Covers(windows, merged, rounds[i].0, rounds[i].1);
      MergedSlice(events, k, rounds[i].0, rounds[i].1);
    }
    forall i | 0 < i < |moved| ensures moved[i - 1].1 <= moved[i].0 {
      assert rounds[i - 1].1 <= rounds[i].0;
    }
    assert Rounds(windows, events, moved);
  }

  /** Draining two adjacent batches together never increases the number of emissions. */
  lemma MergingNeverHelps(windows: set<string>, events: seq<Event>, k: nat)
    requires windows != {} && Run(windows, Wait, events) && k + 1 < |events|
    ensures events[k].Batch? && events[k + 1].Batch?
    ensures Run(windows, Wait, MergeBatches(events, k))
    ensures Emissions(windows, Wait, MergeBatches(events, k)) <= Emissions(windows, Wait, events)
  {
    WaitRun(windows, events);
    MergedFeed(windows, events, k);
    var merged := MergeBatches(events, k);
    WaitRun(windows, merged);
    GreedyIsAttained(windows, merged);
    var rounds: seq<(nat, nat)> :| Rounds(windows, merged, rounds) && |rounds| == Emissions(windows, Wait, merged);
    RoundsUnmerged(windows, events, k, rounds);
    var moved: seq<(nat, nat)> :| Rounds(windows, events, moved) && |moved| == |rounds|;
    GreedyIsOptimal(windows, events, moved);
  }
}
