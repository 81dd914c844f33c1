/** The serial tail of `run_batch`: one segment at a time, behind the success barrier. */
module SerialSteps {
  import opened Outcomes
  import opened BatchTypes
  import opened Sequences
  import opened RunHistory
  import opened RunState
  import opened RunSteps

  /** The terminal events so far are those of all parallel items and the first `k` segments. */
  ghost predicate TerminalUpTo(c: Config, s: State, k: int) {
    && (forall i :: 0 <= i < |c.schedule.parallelItems| ==> c.schedule.parallelItems[i].id in s.terminal)
    && (forall i :: 0 <= i < |c.schedule.serialItems| ==> (c.schedule.serialItems[i].id in s.terminal <==> i < k))
  }

  ghost predicate SerialCounted(c: Config, s: State, k: nat)
    requires k <= |c.schedule.serialItems|
  {
    s.successful + s.failed + s.skipped == Nodes(c.schedule.parallelItems) + Nodes(c.schedule.serialItems[..k])
  }

  /** Everything before segment `k` has succeeded. */
  ghost predicate BehindBarrier(c: Config, s: State, k: nat)
    requires k <= |c.schedule.serialItems|
  {
    && s.uncleaned == [] && s.failureReason == None && s.failed == 0 && s.aborted == []
    && TerminalUpTo(c, s, k) && SerialCounted(c, s, k)
    && AllSucceeded(c.schedule.parallelItems, s.history) && AllSucceeded(c.schedule.serialItems[..k], s.history)
  }

  /** Segment `k` is next. */
  ghost predicate SerialReady(c: Config, s: State, k: nat) {
    && ConfigOk(c) && k <= |c.schedule.serialItems| && s.active == []
    && Booked(s) && Logged(c, s) && Totalled(c, s) && BehindBarrier(c, s, k)
    && NotSeen(s.history, c.schedule.serialItems[k..])
  }

  /** Segment `k` runs. */
  ghost predicate SerialRunning(c: Config, s: State, k: nat, w: Worker) {
    && ConfigOk(c) && k < |c.schedule.serialItems| && s.active == [w] && w.item == c.schedule.serialItems[k]
    && Booked(s) && Logged(c, s) && Totalled(c, s) && BehindBarrier(c, s, k)
    && NotSeen(s.history, c.schedule.serialItems[k + 1..])
  }

  /** Segment `k` failed and nothing after it will run. */
  ghost predicate SerialStopped(c: Config, s: State, k: nat, launchFailed: bool) {
    && ConfigOk(c) && k < |c.schedule.serialItems| && s.active == []
    && Booked(s) && Logged(c, s) && Totalled(c, s) && s.failureReason.Some?
    && TerminalUpTo(c, s, k + 1) && SerialCounted(c, s, k + 1)
    && AllSucceeded(c.schedule.parallelItems, s.history) && AllSucceeded(c.schedule.serialItems[..k], s.history)
    && !Won(s.history, c.schedule.serialItems[k])
    && s.aborted == (if launchFailed then [] else Flat(c.schedule.serialItems[k + 1..]))
    && (launchFailed ==> s.failureReason == Some(WorkerLaunchFailed) && Launched(c.schedule.serialItems[k]) !in s.history)
  }

  // ---------------------------------------------------------------------------------------------
  // The states after each step.

  function SegmentLaunched(c: Config, s: State, k: nat, startedAt: real, raised: bool, now: real): State
    requires k < |c.schedule.serialItems|
  {
    var item := c.schedule.serialItems[k];
    s.(now := now, active := [Worker(item, startedAt)], events := s.events + [Event(item.id, Running)],
       diagnosticFailures := s.diagnosticFailures + (if raised then 1 else 0), raises := s.raises + [raised], history := s.history + [Launched(item)],
       times := s.times + [startedAt])
  }

  /** The failure of segment `k` without a worker: refused by the gate, or not launched. */
  function SegmentFailed(c: Config, s: State, k: nat, reason: FailureReason, launchFailed: bool, raised: bool,
        now: real): State
    requires k < |c.schedule.serialItems|
  {
    var item := c.schedule.serialItems[k];
    s.(now := now,
       held := if launchFailed && c.hasGate then s.held - 1 else s.held,
       failed := s.failed + |item.nodeIds|,
       failureReason := OrReason(s.failureReason, reason),
       events := s.events + [Event(item.id, Failed)],
       terminal := s.terminal + {item.id},
       diagnosticFailures := s.diagnosticFailures + (if raised then 1 else 0), raises := s.raises + [raised],
       history := s.history + [NotLaunched(item)],
       times := s.times + [now],
       aborted := if launchFailed then s.aborted else s.aborted + Flat(c.schedule.serialItems[k + 1..]))
  }

  function SegmentSettled(c: Config, s: State, k: nat, w: Worker, x: Settlement): State
    requires k < |c.schedule.serialItems|
  {
    var bad := x.ending != Success;
    s.(now := x.now,
       held := if c.hasGate && x.ending != Uncleaned then s.held - 1 else s.held,
       active := [],
       uncleaned := if x.ending == Uncleaned then s.uncleaned + [w] else s.uncleaned,
       failureReason := if bad then OrReason(s.failureReason, x.reason) else s.failureReason,
       successful := s.successful + x.successful,
       failed := s.failed + x.failed,
       skipped := s.skipped + x.skipped,
       events := s.events + [Event(w.item.id, x.kind)],
       terminal := s.terminal + {w.item.id},
       diagnosticFailures := s.diagnosticFailures + (if x.raised then 1 else 0), raises := s.raises + [x.raised],
       history := s.history + [Ended(w, x)],
       times := s.times + [x.seen],
       aborted := if bad then s.aborted + Flat(c.schedule.serialItems[k + 1..]) else s.aborted)
  }

  // ---------------------------------------------------------------------------------------------
  // Proofs.

  lemma EventBooked(s: State, e: Event, t: State)
    requires Booked(s) && t.events == s.events + [e]
    requires if e.kind == Running then t.terminal == s.terminal else e.id !in s.terminal && t.terminal == s.terminal + {e.id}
    ensures Booked(t)
  {
    forall id ensures TerminalCount(t.events, id) == if id in t.terminal then 1 else 0 {
      TerminalOne(s.events, e, id);
    }
  }

  /** The ids of segment `k` and of its neighbours. */
  lemma SegmentId(c: Config, k: nat)
    requires ConfigOk(c) && k < |c.schedule.serialItems|
    ensures forall i :: 0 <= i < |c.schedule.parallelItems| ==> c.schedule.parallelItems[i].id != c.schedule.serialItems[k].id
    ensures forall i :: 0 <= i < |c.schedule.serialItems| && i != k ==> c.schedule.serialItems[i].id != c.schedule.serialItems[k].id
    ensures c.schedule.serialItems[k] !in c.schedule.serialItems[k + 1..]
    ensures c.schedule.serialItems[k].phase == Serial
    ensures c.schedule.serialItems[k] in c.schedule.serialItems[k..]
    ensures forall item :: item in c.schedule.serialItems[k + 1..] ==> item in c.schedule.serialItems[k..]
    ensures c.schedule.serialItems[..k + 1] == c.schedule.serialItems[..k] + [c.schedule.serialItems[k]]
    ensures Nodes(c.schedule.serialItems[..k + 1]) == Nodes(c.schedule.serialItems[..k]) + |c.schedule.serialItems[k].nodeIds|
  {
    var items := c.schedule.serialItems;
    PrefixOne(items, k);
    NodesOne(items[..k], items[k]);
    assert items[k..] == [items[k]] + items[k + 1..];
    var rest := items[k + 1..];
    forall j | 0 <= j < |rest| ensures rest[j] != items[k] {
      assert rest[j] == items[k + 1 + j];
    }
  }

  lemma HistoryGrows(items: seq<WorkItem>, h: seq<Action>, a: Action)
    requires AllSucceeded(items, h)
    ensures AllSucceeded(items, h + [a])
  {
    forall i | 0 <= i < |items| ensures Won(h + [a], items[i]) {
      WonOne(h, a, items[i]);
    }
  }

  lemma NotSeenGrows(h: seq<Action>, items: seq<WorkItem>, a: Action)
    requires NotSeen(h, items) && a.item !in items
    ensures NotSeen(h + [a], items)
  {
    assert forall b :: b in h + [a] <==> b in h || b == a;
  }

  lemma SegmentAllowed(c: Config, s: State, k: nat)
    requires SerialReady(c, s, k) && k < |c.schedule.serialItems|
    ensures MayLaunch(c.schedule, Limit(c), s.history, c.schedule.serialItems[k])
    ensures NeverSeen(s.history, c.schedule.serialItems[k])
  {
    hide Booked;
    hide TerminalUpTo;
    hide HistoryOk;
    hide ClosingsOk;
    hide Totalled;
    hide AllSucceeded;
    SegmentId(c, k);
    var item := c.schedule.serialItems[k];
    assert NeverSeen(s.history, item);
    assert Open(s.history) == [];
    assert MayLaunchSegment(c.schedule, s.history, item, k);
  }

  lemma SegmentLaunchedLogged(c: Config, s: State, k: nat, startedAt: real, raised: bool, now: real)
    requires Logged(c, s) && Totalled(c, s) && s.active == [] && k < |c.schedule.serialItems|
    requires MayLaunch(c.schedule, Limit(c), s.history, c.schedule.serialItems[k])
    requires NeverSeen(s.history, c.schedule.serialItems[k])
    ensures Logged(c, SegmentLaunched(c, s, k, startedAt, raised, now))
    ensures Totalled(c, SegmentLaunched(c, s, k, startedAt, raised, now))
  {
    hide HistoryOk;
    hide ClosingsOk;
    hide BookedCounts;
    hide MayLaunch;
    var item := c.schedule.serialItems[k];
    HistoryExtend(c.schedule, Limit(c), s.history, Launched(item));
    ClosingsExtend(c.runId, s.history, Launched(item));
    OpenOne(s.history, Launched(item));
    BookedOne(c.runId, s.history, Launched(item));
    assert ItemsOf(SegmentLaunched(c, s, k, startedAt, raised, now).active) == [] + [item];
    assert NoneClosed(s.history, []);
    OneMoreOpen(s.history, [], item);
    hide NoneClosed;
    hide NeverSeen;
    hide NoneUncleaned;
    hide Limit;
  }

  lemma SegmentLaunchedHistory(c: Config, s: State, k: nat)
    requires ConfigOk(c) && k < |c.schedule.serialItems| && NotSeen(s.history, c.schedule.serialItems[k..])
    requires BehindBarrier(c, s, k)
    ensures var h := s.history + [Launched(c.schedule.serialItems[k])];
            && AllSucceeded(c.schedule.parallelItems, h) && AllSucceeded(c.schedule.serialItems[..k], h)
            && NotSeen(h, c.schedule.serialItems[k + 1..])
  {
    hide Won;
    var items, action := c.schedule.serialItems, Launched(c.schedule.serialItems[k]);
    SegmentId(c, k);
    HistoryGrows(c.schedule.parallelItems, s.history, action);
    HistoryGrows(items[..k], s.history, action);
    assert NotSeen(s.history, items[k + 1..]);
    NotSeenGrows(s.history, items[k + 1..], action);
  }

  lemma SegmentLaunchedBarrier(c: Config, s: State, k: nat, startedAt: real, raised: bool, now: real)
    requires k < |c.schedule.serialItems| && BehindBarrier(c, s, k)
    requires AllSucceeded(c.schedule.parallelItems, s.history + [Launched(c.schedule.serialItems[k])])
    requires AllSucceeded(c.schedule.serialItems[..k], s.history + [Launched(c.schedule.serialItems[k])])
    ensures BehindBarrier(c, SegmentLaunched(c, s, k, startedAt, raised, now), k)
  {
    hide AllSucceeded;
  }

  lemma SegmentLaunchedOk(c: Config, s: State, k: nat, startedAt: real, raised: bool, now: real)
    requires SerialReady(c, s, k) && k < |c.schedule.serialItems|
    ensures SerialRunning(c, SegmentLaunched(c, s, k, startedAt, raised, now), k, Worker(c.schedule.serialItems[k], startedAt))
    ensures Slots(c, s, -1) ==> Slots(c, SegmentLaunched(c, s, k, startedAt, raised, now), 0)
  {
    hide ConfigOk;
    hide MayLaunch;
    hide NeverSeen;
    hide Logged;
    hide Totalled;
    hide Booked;
    SegmentAllowed(c, s, k);
    SegmentLaunchedLogged(c, s, k, startedAt, raised, now);
    SegmentLaunchedHistory(c, s, k);
    SegmentLaunchedBarrier(c, s, k, startedAt, raised, now);
    hide BehindBarrier;
    hide NotSeen;
    hide AllSucceeded;
    EventBooked(s, Event(c.schedule.serialItems[k].id, Running), SegmentLaunched(c, s, k, startedAt, raised, now));
  }

  lemma SegmentFailedLogged(c: Config, s: State, k: nat, reason: FailureReason, launchFailed: bool, raised: bool,
        now: real)
    requires Logged(c, s) && Totalled(c, s) && s.active == [] && k < |c.schedule.serialItems|
    ensures Logged(c, SegmentFailed(c, s, k, reason, launchFailed, raised, now))
    ensures Totalled(c, SegmentFailed(c, s, k, reason, launchFailed, raised, now))
  {
    hide HistoryOk;
    hide ClosingsOk;
    hide NoneClosed;
    hide BookedCounts;
    var action := NotLaunched(c.schedule.serialItems[k]);
    HistoryExtend(c.schedule, Limit(c), s.history, action);
    ClosingsExtend(c.runId, s.history, action);
    OpenOne(s.history, action);
    BookedOne(c.runId, s.history, action);
    StillNoneClosed(s.history, ItemsOf(s.active), action);
    hide Limit;
    hide NoneUncleaned;
  }

  /** The failed segment has not run, and those before it have succeeded. */
  lemma SegmentFailedHistory(c: Config, s: State, k: nat)
    requires k < |c.schedule.serialItems| && NotSeen(s.history, c.schedule.serialItems[k..])
    requires AllSucceeded(c.schedule.parallelItems, s.history) && AllSucceeded(c.schedule.serialItems[..k], s.history)
    ensures var item, h := c.schedule.serialItems[k], s.history + [NotLaunched(c.schedule.serialItems[k])];
            && !Won(h, item) && Launched(item) !in h
            && AllSucceeded(c.schedule.parallelItems, h) && AllSucceeded(c.schedule.serialItems[..k], h)
  {
    hide Won;
    var item := c.schedule.serialItems[k];
    assert item == c.schedule.serialItems[k..][0];
    assert NeverSeen(s.history, item);
    NeverWon(s.history, item);
    WonOne(s.history, NotLaunched(item), item);
    HistoryGrows(c.schedule.parallelItems, s.history, NotLaunched(item));
    HistoryGrows(c.schedule.serialItems[..k], s.history, NotLaunched(item));
  }

  lemma SegmentFailedOk(c: Config, s: State, k: nat, reason: FailureReason, launchFailed: bool, raised: bool, now: real)
    requires SerialReady(c, s, k) && k < |c.schedule.serialItems|
    requires launchFailed ==> reason == WorkerLaunchFailed
    ensures SerialStopped(c, SegmentFailed(c, s, k, reason, launchFailed, raised, now), k, launchFailed)
    ensures !launchFailed && Slots(c, s, 0) ==> Slots(c, SegmentFailed(c, s, k, reason, launchFailed, raised, now), 0)
    ensures launchFailed && Slots(c, s, -1) ==> Slots(c, SegmentFailed(c, s, k, reason, launchFailed, raised, now), 0)
  {
    hide Logged;
    hide Totalled;
    SegmentFailedLogged(c, s, k, reason, launchFailed, raised, now);
    SegmentFailedHistory(c, s, k);
    hide NotSeen;
    hide AllSucceeded;
    hide Won;
    SegmentId(c, k);
    EventBooked(s, Event(c.schedule.serialItems[k].id, Failed),
      SegmentFailed(c, s, k, reason, launchFailed, raised, now));
    hide Booked;
  }

  lemma SegmentSettledLogged(c: Config, s: State, k: nat, w: Worker, x: Settlement)
    requires Logged(c, s) && Totalled(c, s) && s.active == [w] && ReportBooked(c, w, x) && k < |c.schedule.serialItems|
    ensures Logged(c, SegmentSettled(c, s, k, w, x)) && Totalled(c, SegmentSettled(c, s, k, w, x))
    ensures Won(SegmentSettled(c, s, k, w, x).history, w.item) <==> x.ending == Success
  {
    hide HistoryOk;
    hide ClosingsOk;
    hide NoneClosed;
    hide Totalled;
    hide Won;
    OnlyActive(s, w);
    SettledClosings(c, s, w, x);
    SegmentSettledTotalled(c, s, k, w, x);
    hide ReportBooked;
    HistoryExtend(c.schedule, Limit(c), s.history, Ended(w, x));
    OpenOne(s.history, Ended(w, x));
    NotWonYet(s.history, ItemsOf(s.active), w.item);
    WonOne(s.history, Ended(w, x), w.item);
    NoneClosedBehind(s.history, ItemsOf(s.active), Ended(w, x), []);
    hide NoneUncleaned;
    hide Limit;
  }

  lemma OnlyActive(s: State, w: Worker)
    requires s.active == [w]
    ensures ItemsOf(s.active) == [w.item] && w.item in ItemsOf(s.active) && ItemsOf([]) == []
    ensures Without([w.item], w.item) == []
  {}

  lemma SegmentSettledTotalled(c: Config, s: State, k: nat, w: Worker, x: Settlement)
    requires Totalled(c, s) && ReportBooked(c, w, x) && k < |c.schedule.serialItems|
    ensures Totalled(c, SegmentSettled(c, s, k, w, x))
  {
    hide ReportBooked;
    SettledTotalled(c, s, w, x);
    hide BookedCounts;
  }

  lemma SettledTerminal(c: Config, s: State, k: nat, w: Worker, x: Settlement)
    requires SerialRunning(c, s, k, w) && SettlementOk(c, w, x)
    ensures TerminalUpTo(c, SegmentSettled(c, s, k, w, x), k + 1)
    ensures SerialCounted(c, SegmentSettled(c, s, k, w, x), k + 1)
    ensures Booked(SegmentSettled(c, s, k, w, x))
    ensures Slots(c, s, 0) ==> Slots(c, SegmentSettled(c, s, k, w, x), 0)
  {
    hide Logged;
    hide Booked;
    SegmentId(c, k);
    EventBooked(s, Event(w.item.id, x.kind), SegmentSettled(c, s, k, w, x));
  }

  lemma SegmentSucceeded(c: Config, s: State, k: nat, w: Worker, x: Settlement)
    requires SerialRunning(c, s, k, w) && SettlementOk(c, w, x) && x.ending == Success
    ensures SerialReady(c, SegmentSettled(c, s, k, w, x), k + 1)
  {
    SettledTerminal(c, s, k, w, x);
    SegmentSettledLogged(c, s, k, w, x);
    hide Logged;
    hide Booked;
    hide TerminalUpTo;
    hide SerialCounted;
    SegmentId(c, k);
    var items, t, closed := c.schedule.serialItems, SegmentSettled(c, s, k, w, x), Ended(w, x);
    HistoryGrows(c.schedule.parallelItems, s.history, closed);
    HistoryGrows(items[..k], s.history, closed);
    NotSeenGrows(s.history, items[k + 1..], closed);
    OneMoreSucceeded(items[..k], w.item, t.history);
  }

  lemma OneMoreSucceeded(items: seq<WorkItem>, item: WorkItem, h: seq<Action>)
    requires AllSucceeded(items, h) && Won(h, item)
    ensures AllSucceeded(items + [item], h)
  {}

  lemma SegmentUnsuccessful(c: Config, s: State, k: nat, w: Worker, x: Settlement)
    requires SerialRunning(c, s, k, w) && SettlementOk(c, w, x) && x.ending != Success
    ensures SerialStopped(c, SegmentSettled(c, s, k, w, x), k, false)
  {
    SettledTerminal(c, s, k, w, x);
    SegmentSettledLogged(c, s, k, w, x);
    hide Logged;
    hide Booked;
    hide TerminalUpTo;
    hide SerialCounted;
    hide NotSeen;
    var closed := Ended(w, x);
    HistoryGrows(c.schedule.parallelItems, s.history, closed);
    HistoryGrows(c.schedule.serialItems[..k], s.history, closed);
    hide AllSucceeded;
  }

  lemma ParallelWon(c: Config, s: State)
    requires Flagged(c, s) && s.active == [] && !s.parallelFailed && s.pending == []
    ensures AllSucceeded(c.schedule.parallelItems, s.history)
    ensures s.uncleaned == [] && s.failureReason == None && s.failed == 0 && s.aborted == []
  {
    hide Won;
  }

  lemma ParallelTerminal(c: Config, s: State)
    requires Staged(c, s) && Counted(c, s) && s.active == [] && s.pending == []
    ensures TerminalUpTo(c, s, 0) && SerialCounted(c, s, 0)
  {
    assert ItemsOf(s.active) == [];
    assert Nodes([]) == 0;
  }

  /** When the parallel phase ends without a failure, the serial tail may start. */
  lemma EnterSerial(c: Config, s: State)
    requires Invariant(c, s) && s.active == [] && !s.parallelFailed && s.pending == []
    ensures SerialReady(c, s, 0)
  {
    hide Booked;
    hide Logged;
    hide Totalled;
    hide ConfigOk;
    hide NotSeen;
    hide AllSucceeded;
    ParallelWon(c, s);
    ParallelTerminal(c, s);
    hide Staged;
    hide Counted;
    hide Flagged;
    hide Timed;
    hide Queued;
    hide TerminalUpTo;
    hide SerialCounted;
    assert c.schedule.serialItems[0..] == c.schedule.serialItems;
    assert AllSucceeded(c.schedule.serialItems[..0], s.history) by {
      NothingToSucceed(c.schedule.serialItems[..0], s.history);
    }
  }

  lemma NothingToSucceed(items: seq<WorkItem>, h: seq<Action>)
    requires items == []
    ensures AllSucceeded(items, h)
  {}
}
