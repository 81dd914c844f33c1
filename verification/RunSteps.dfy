/** The steps of the parallel phase, each with the proof that it keeps the invariants. */
module RunSteps {
  import opened Outcomes
  import opened BatchTypes
  import opened RunHistory
  import opened SchedulerClock
  import opened RunState
  import WorkerResult

  // ---------------------------------------------------------------------------------------------
  // A worker leaves.

  /** How one worker ended, as `run_batch` books it; `seen` is when that was observed. */
  datatype Settlement = Settlement(ending: Ending, report: Report, successful: nat, failed: nat, skipped: nat, kind: EventKind,
                                   reason: FailureReason, raised: bool, seen: real, now: real)

  /** The split is that of the accepted result, or all nodes failed; the ending is the report's. */
  ghost predicate SettlementOk(c: Config, w: Worker, x: Settlement) {
    && x.successful + x.failed + x.skipped == |w.item.nodeIds|
    && (x.ending == Success ==> x.failed == 0)
    && x.kind != Running
    && ReportBooked(c, w, x)
  }

  ghost predicate ReportBooked(c: Config, w: Worker, x: Settlement) {
    && WorkerResult.Counts(x.successful, x.failed, x.skipped) == CountsOf(c.runId, Ended(w, x))
    && x.ending == EndingOf(c.runId, w.item, x.report)
    && !TypeErrorOn(c.runId, w.item, x.report)
  }

  function Ended(w: Worker, x: Settlement): Action {
    Closed(w.item, x.ending, x.report)
  }

  function OrReason(first: Option<FailureReason>, reason: FailureReason): Option<FailureReason> {
    if first.Some? then first else Some(reason)
  }

  function Settled(c: Config, s: State, w: Worker, x: Settlement): State {
    var bad := x.ending != Success;
    s.(now := x.now,
       held := if c.hasGate && x.ending != Uncleaned then s.held - 1 else s.held,
       active := Drop(s.active, w.item),
       uncleaned := if x.ending == Uncleaned then s.uncleaned + [w] else s.uncleaned,
       stopAdmission := s.stopAdmission || x.ending == Uncleaned || (bad && !c.skipError),
       parallelFailed := s.parallelFailed || bad,
       failureReason := if bad then OrReason(s.failureReason, x.reason) else s.failureReason,
       successful := s.successful + x.successful,
       failed := s.failed + x.failed,
       skipped := s.skipped + x.skipped,
       events := s.events + [Event(w.item.id, x.kind)],
       terminal := s.terminal + {w.item.id},
       diagnosticFailures := s.diagnosticFailures + (if x.raised then 1 else 0),
       raises := s.raises + [x.raised],
       history := s.history + [Ended(w, x)],
       times := s.times + [x.seen])
  }

  /** `before` and `after` are the workers around `w`. */
  ghost predicate Around(s: State, before: seq<Worker>, w: Worker, after: seq<Worker>) {
    s.active == before + [w] + after
  }

  lemma ItemsAround(before: seq<Worker>, w: Worker, after: seq<Worker>)
    ensures ItemsOf(before + [w] + after) == ItemsOf(before) + [w.item] + ItemsOf(after)
    ensures ItemsOf(before + after) == ItemsOf(before) + ItemsOf(after)
  {}

  lemma MiddleOut(a: seq<WorkItem>, x: WorkItem, b: seq<WorkItem>)
    requires x !in a && x !in b
    ensures forall item :: item in a + b <==> item in a + [x] + b && item != x
  {}

  lemma AloneAround(workers: seq<Worker>, before: seq<Worker>, w: Worker, after: seq<Worker>)
    requires workers == before + [w] + after
    requires forall k, l :: 0 <= k < l < |workers| ==> workers[k].item != workers[l].item
    ensures w.item !in ItemsOf(before) && w.item !in ItemsOf(after)
    ensures forall k :: 0 <= k < |before| ==> before[k].item != w.item
  {
    var n := |before|;
    assert workers[n] == w;
    forall k | 0 <= k < |before| ensures before[k].item != w.item {
      assert workers[k] == before[k];
    }
    forall k | 0 <= k < |after| ensures after[k].item != w.item {
      assert workers[n + 1 + k] == after[k];
    }
  }

  lemma DropAround(c: Config, s: State, before: seq<Worker>, w: Worker, after: seq<Worker>)
    requires Queued(c, s) && Around(s, before, w, after)
    ensures Drop(s.active, w.item) == before + after
    ensures w.item in c.schedule.parallelItems[..Launches(c, s)]
    ensures w.item in ItemsOf(s.active)
    ensures forall item :: item in ItemsOf(before + after) <==> item in ItemsOf(s.active) && item != w.item
  {
    AloneAround(s.active, before, w, after);
    assert s.active[|before|] == w;
    hide Queued;
    hide ItemsOf;
    hide Drop;
    DropMiddle(before, w, after);
    ItemsAround(before, w, after);
    MiddleOut(ItemsOf(before), w.item, ItemsOf(after));
  }

  lemma SettledBooked(c: Config, s: State, w: Worker, x: Settlement)
    requires Booked(s) && x.kind != Running && w.item.id !in s.terminal
    ensures Booked(Settled(c, s, w, x))
  {
    forall id ensures TerminalCount(Settled(c, s, w, x).events, id) == if id in Settled(c, s, w, x).terminal then 1 else 0 {
      TerminalOne(s.events, Event(w.item.id, x.kind), id);
    }
  }

  lemma SettledLogged(c: Config, s: State, before: seq<Worker>, w: Worker, after: seq<Worker>, x: Settlement)
    requires Queued(c, s) && Logged(c, s) && Around(s, before, w, after) && ReportBooked(c, w, x)
    ensures Logged(c, Settled(c, s, w, x))
  {
    hide HistoryOk;
    hide ClosingsOk;
    hide Queued;
    hide NoneClosed;
    hide ItemsOf;
    hide Drop;
    DropAround(c, s, before, w, after);
    SettledClosings(c, s, w, x);
    hide ReportBooked;
    HistoryExtend(c.schedule, Limit(c), s.history, Ended(w, x));
    OpenOne(s.history, Ended(w, x));
    DropItems(s.active, w.item);
    NoneClosedBehind(s.history, ItemsOf(s.active), Ended(w, x), ItemsOf(before + after));
  }

  lemma NoneClosedBehind(h: seq<Action>, items: seq<WorkItem>, a: Action, rest: seq<WorkItem>)
    requires NoneClosed(h, items) && forall x :: x in rest ==> x in items && x != a.item
    ensures NoneClosed(h + [a], rest)
  {
    assert forall b :: b in h + [a] <==> b in h || b == a;
  }

  lemma SettledClosings(c: Config, s: State, w: Worker, x: Settlement)
    requires Logged(c, s) && w.item in ItemsOf(s.active) && ReportBooked(c, w, x)
    ensures ClosingsOk(c.runId, s.history + [Ended(w, x)])
  {
    hide HistoryOk;
    hide ClosingsOk;
    hide CountsOf;
    hide EndingOf;
    hide TypeErrorOn;
    ClosingsExtend(c.runId, s.history, Ended(w, x));
  }

  lemma SettledTotalled(c: Config, s: State, w: Worker, x: Settlement)
    requires Totalled(c, s) && ReportBooked(c, w, x)
    ensures Totalled(c, Settled(c, s, w, x))
  {
    hide CountsOf;
    hide EndingOf;
    hide TypeErrorOn;
    BookedOne(c.runId, s.history, Ended(w, x));
    hide BookedCounts;
  }

  lemma SettledQueued(c: Config, s: State, before: seq<Worker>, w: Worker, after: seq<Worker>, x: Settlement)
    requires Queued(c, s) && Around(s, before, w, after)
    ensures Queued(c, Settled(c, s, w, x))
  {
    DropAround(c, s, before, w, after);
    var n := |before|;
    forall k | 0 <= k < |before + after| ensures (before + after)[k] == s.active[if k < n then k else k + 1] {}
  }

  lemma SettledUnstarted(c: Config, s: State, w: Worker, x: Settlement)
    requires ConfigOk(c) && Queued(c, s) && Unstarted(c, s)
    requires w.item in c.schedule.parallelItems[..Launches(c, s)]
    ensures Unstarted(c, Settled(c, s, w, x))
  {
    NotPending(c, s, w.item);
    assert forall a :: a in s.history + [Ended(w, x)] <==> a in s.history || a == Ended(w, x);
  }

  /** A launched item is neither pending nor serial. */
  lemma NotPending(c: Config, s: State, item: WorkItem)
    requires ConfigOk(c) && Queued(c, s) && item in c.schedule.parallelItems[..Launches(c, s)]
    ensures item !in s.pending && item !in c.schedule.serialItems
  {
    var n := Launches(c, s);
    var i :| 0 <= i < n && c.schedule.parallelItems[i] == item;
    assert item.id == ItemId(Parallel, i);
    forall j | 0 <= j < |s.pending| ensures s.pending[j] != item {
      assert s.pending[j] == c.schedule.parallelItems[n + j];
    }
  }

  lemma SettledStaged(c: Config, s: State, before: seq<Worker>, w: Worker, after: seq<Worker>, x: Settlement)
    requires ConfigOk(c) && Queued(c, s) && Staged(c, s) && Around(s, before, w, after)
    ensures Staged(c, Settled(c, s, w, x)) && w.item.id !in s.terminal
  {
    DropAround(c, s, before, w, after);
    var items, t := c.schedule.parallelItems, Settled(c, s, w, x);
    var j :| 0 <= j < Launches(c, s) && items[j] == w.item;
    forall i | 0 <= i < |items| ensures items[i].id in t.terminal <==> i < Launches(c, s) && items[i] !in ItemsOf(t.active) {
      assert items[i].id == w.item.id <==> i == j;
    }
  }

  lemma SettledCounted(c: Config, s: State, w: Worker, x: Settlement)
    requires Counted(c, s) && SettlementOk(c, w, x) && w.item in ItemsOf(s.active)
    ensures Counted(c, Settled(c, s, w, x))
  {
    DropItems(s.active, w.item);
    NodesWithout(ItemsOf(s.active), w.item);
  }

  lemma SettledFlagged(c: Config, s: State, before: seq<Worker>, w: Worker, after: seq<Worker>, x: Settlement)
    requires ConfigOk(c) && Queued(c, s) && Flagged(c, s) && Around(s, before, w, after) && SettlementOk(c, w, x)
    requires !Won(s.history, w.item)
    ensures Flagged(c, Settled(c, s, w, x))
  {
    hide ReportBooked;
    DropAround(c, s, before, w, after);
    var items, t := c.schedule.parallelItems, Settled(c, s, w, x);
    forall item
      ensures Won(t.history, item) <==> Won(s.history, item) || (item == w.item && x.ending == Success)
    {
      WonOne(s.history, Ended(w, x), item);
    }
    hide Won;
    if s.parallelFailed {
      var i :| Spoiled(c, s, i);
      assert Spoiled(c, t, i);
    } else if x.ending != Success {
      var j :| 0 <= j < Launches(c, s) && items[j] == w.item;
      assert Spoiled(c, t, j);
    } else {
      assert t.failed == 0;
    }
  }

  lemma SettledTimed(c: Config, s: State, before: seq<Worker>, w: Worker, after: seq<Worker>, x: Settlement)
    requires Queued(c, s) && Timed(c, s) && Around(s, before, w, after) && s.now <= x.now
    ensures Timed(c, Settled(c, s, w, x))
  {
    DropAround(c, s, before, w, after);
    var n := |before|;
    forall k | 0 <= k < |before + after| ensures (before + after)[k] == s.active[if k < n then k else k + 1] {}
  }

  lemma NotWonYet(h: seq<Action>, items: seq<WorkItem>, item: WorkItem)
    requires NoneClosed(h, items) && item in items
    ensures !Won(h, item)
  {}

  lemma SettledKeeps(c: Config, s: State, before: seq<Worker>, w: Worker, after: seq<Worker>, x: Settlement)
    requires Invariant(c, s) && Around(s, before, w, after)
    requires SettlementOk(c, w, x) && s.now <= x.now
    ensures Invariant(c, Settled(c, s, w, x))
    ensures Settled(c, s, w, x).active == before + after
    ensures Slots(c, s, 0) ==> Slots(c, Settled(c, s, w, x), 0)
  {
    DropAround(c, s, before, w, after);
    SettledStaged(c, s, before, w, after, x);
    SettledBooked(c, s, w, x);
    SettledLogged(c, s, before, w, after, x);
    SettledQueued(c, s, before, w, after, x);
    SettledUnstarted(c, s, w, x);
    SettledCounted(c, s, w, x);
    SettledTotalled(c, s, w, x);
    NotWonYet(s.history, ItemsOf(s.active), w.item);
    SettledFlagged(c, s, before, w, after, x);
    SettledTimed(c, s, before, w, after, x);
  }

  // ---------------------------------------------------------------------------------------------
  // The head of the queue leaves it.

  /** What holds for the head of the queue: it is the i-th parallel item and new in every respect. */
  ghost predicate HeadOk(c: Config, s: State, i: nat, head: WorkItem) {
    && s.pending != [] && head == s.pending[0] && i == Launches(c, s) < |c.schedule.parallelItems|
    && c.schedule.parallelItems[i] == head && head.id == ItemId(Parallel, i) && head.phase == Parallel
    && (forall j :: 0 <= j < |c.schedule.parallelItems| && j != i ==>
          c.schedule.parallelItems[j] != head && c.schedule.parallelItems[j].id != head.id)
    && (forall j :: 0 <= j < |c.schedule.serialItems| ==> c.schedule.serialItems[j].id != head.id)
    && head !in s.pending[1..] && head !in ItemsOf(s.active) && head !in c.schedule.serialItems
    && head.id !in s.terminal
    && s.pending[1..] == c.schedule.parallelItems[i + 1..]
    && c.schedule.parallelItems[..i + 1] == c.schedule.parallelItems[..i] + [head]
  }

  ghost predicate NeverSeen(h: seq<Action>, item: WorkItem) {
    forall a :: a in h ==> a.item != item
  }

  lemma HeadFacts(c: Config, s: State)
    requires Invariant(c, s) && s.pending != []
    ensures HeadOk(c, s, Launches(c, s), s.pending[0])
    ensures NeverSeen(s.history, s.pending[0])
  {
    hide Booked;
    hide Logged;
    hide Counted;
    hide Totalled;
    hide Flagged;
    hide Timed;
    var items, i, head := c.schedule.parallelItems, Launches(c, s), s.pending[0];
    assert s.pending == items[i..] && items[i] == head;
    assert head.id == ItemId(Parallel, i);
    forall j | 0 <= j < |items| && j != i ensures items[j] != head && items[j].id != head.id {
      assert items[j].id == ItemId(Parallel, j);
    }
    forall k | 0 <= k < |s.active| ensures s.active[k].item != head {
      assert s.active[k].item in items[..i];
    }
    assert head in s.pending;
  }

  function LaunchedState(c: Config, s: State, startedAt: real, raised: bool, now: real): State
    requires s.pending != []
  {
    var item := s.pending[0];
    s.(now := now,
       pending := s.pending[1..],
       waits := s.waits - {item.id},
       active := s.active + [Worker(item, startedAt)],
       events := s.events + [Event(item.id, Running)],
       diagnosticFailures := s.diagnosticFailures + (if raised then 1 else 0),
       raises := s.raises + [raised],
       history := s.history + [Launched(item)],
       times := s.times + [startedAt])
  }

  function LaunchFailedState(c: Config, s: State, raised: bool, now: real): State
    requires s.pending != []
  {
    var item := s.pending[0];
    s.(now := now,
       held := if c.hasGate then s.held - 1 else s.held,
       pending := s.pending[1..],
       waits := s.waits - {item.id},
       failed := s.failed + |item.nodeIds|,
       parallelFailed := true,
       failureReason := OrReason(s.failureReason, WorkerLaunchFailed),
       stopAdmission := s.stopAdmission || !c.skipError,
       events := s.events + [Event(item.id, Failed)],
       terminal := s.terminal + {item.id},
       diagnosticFailures := s.diagnosticFailures + (if raised then 1 else 0),
       raises := s.raises + [raised],
       history := s.history + [NotLaunched(item)],
       times := s.times + [now])
  }

  function StoppedState(s: State, reason: FailureReason, waits: map<ItemId, Option<real>>, since: real, now: real): State
    requires s.pending != []
  {
    s.(now := now, stopAdmission := true, parallelFailed := true, failureReason := Some(reason), waits := waits,
       refusal := Some(Refusal(s.pending[0], reason, since, now)))
  }

  /** The gate made the head wait. */
  function WaitingState(s: State, now: real): State
    requires s.pending != []
  {
    var id := s.pending[0].id;
    s.(now := now,
       waits := if s.active != [] then s.waits[id := None]
                else if id in s.waits && s.waits[id].Some? then s.waits
                else s.waits[id := Some(now)])
  }

  lemma LaunchAllowed(c: Config, s: State)
    requires Invariant(c, s) && s.pending != [] && !s.stopAdmission && |s.active| < Limit(c)
    ensures MayLaunch(c.schedule, Limit(c), s.history, s.pending[0])
  {
    HeadFacts(c, s);
    var items, head := c.schedule.parallelItems, s.pending[0];
    assert head in items;
    forall k | 0 <= k < |Open(s.history)| ensures Open(s.history)[k].binary != head.binary {
      assert s.active[k].item in items[..Launches(c, s)];
      var j :| 0 <= j < Launches(c, s) && items[j] == s.active[k].item;
      assert items[j].binary != items[Launches(c, s)].binary;
    }
  }

  lemma LaunchedLogged(c: Config, s: State, startedAt: real, raised: bool, now: real)
    requires Logged(c, s) && s.pending != [] && MayLaunch(c.schedule, Limit(c), s.history, s.pending[0])
    requires NeverSeen(s.history, s.pending[0])
    ensures Logged(c, LaunchedState(c, s, startedAt, raised, now))
  {
    var action := Launched(s.pending[0]);
    HistoryExtend(c.schedule, Limit(c), s.history, action);
    ClosingsExtend(c.runId, s.history, action);
    hide HistoryOk;
    hide ClosingsOk;
    hide MayLaunch;
    OpenOne(s.history, action);
    OneMoreItem(s.active, Worker(s.pending[0], startedAt));
    OneMoreOpen(s.history, ItemsOf(s.active), s.pending[0]);
  }

  lemma OneMoreOpen(h: seq<Action>, items: seq<WorkItem>, item: WorkItem)
    requires NoneClosed(h, items) && NeverSeen(h, item)
    ensures NoneClosed(h + [Launched(item)], items + [item])
  {
    assert forall a :: a in h + [Launched(item)] <==> a in h || a == Launched(item);
    assert forall x :: x in items + [item] <==> x in items || x == item;
  }

  lemma NeverWon(h: seq<Action>, item: WorkItem)
    requires NeverSeen(h, item)
    ensures !Won(h, item)
  {}

  lemma OneMoreItem(workers: seq<Worker>, w: Worker)
    ensures ItemsOf(workers + [w]) == ItemsOf(workers) + [w.item]
    ensures forall item :: item in ItemsOf(workers + [w]) <==> item in ItemsOf(workers) || item == w.item
  {
    assert ItemsOf(workers + [w]) == ItemsOf(workers) + [w.item];
  }

  lemma LaunchedQueued(c: Config, s: State, i: nat, startedAt: real, raised: bool, now: real)
    requires Queued(c, s) && s.pending != [] && HeadOk(c, s, i, s.pending[0]) && |s.active| < Limit(c)
    ensures Queued(c, LaunchedState(c, s, startedAt, raised, now))
  {
    var items, t := c.schedule.parallelItems, LaunchedState(c, s, startedAt, raised, now);
    forall k | 0 <= k < |t.active| ensures t.active[k].item in items[..i + 1] {
      if k < |s.active| {
        assert s.active[k].item in items[..i];
      }
    }
    forall k, l | 0 <= k < l < |t.active| ensures t.active[k].item != t.active[l].item {
      if l == |s.active| {
        assert ItemsOf(s.active)[k] in ItemsOf(s.active);
      }
    }
  }

  lemma LaunchedUnstarted(c: Config, s: State, i: nat, startedAt: real, raised: bool, now: real)
    requires Unstarted(c, s) && s.pending != [] && HeadOk(c, s, i, s.pending[0])
    ensures Unstarted(c, LaunchedState(c, s, startedAt, raised, now))
  {
    var t := LaunchedState(c, s, startedAt, raised, now);
    assert forall a :: a in t.history <==> a in s.history || a == Launched(s.pending[0]);
    assert forall item :: item in t.pending ==> item in s.pending;
  }

  lemma LaunchedStaged(c: Config, s: State, i: nat, startedAt: real, raised: bool, now: real)
    requires Staged(c, s) && s.pending != [] && HeadOk(c, s, i, s.pending[0])
    ensures Staged(c, LaunchedState(c, s, startedAt, raised, now))
  {
    var items, t, head := c.schedule.parallelItems, LaunchedState(c, s, startedAt, raised, now), s.pending[0];
    OneMoreItem(s.active, Worker(head, startedAt));
    forall j | 0 <= j < |items| ensures items[j].id in t.terminal <==> j < i + 1 && items[j] !in ItemsOf(t.active) {
      assert items[j] == head <==> j == i;
    }
  }

  lemma LaunchedCounted(c: Config, s: State, startedAt: real, raised: bool, now: real)
    requires Counted(c, s) && Booked(s) && s.pending != []
    ensures Counted(c, LaunchedState(c, s, startedAt, raised, now))
    ensures Booked(LaunchedState(c, s, startedAt, raised, now))
  {
    var t, head := LaunchedState(c, s, startedAt, raised, now), s.pending[0];
    OneMoreItem(s.active, Worker(head, startedAt));
    NodesOne(ItemsOf(s.active), head);
    HeadNodes(s.pending);
    forall id ensures TerminalCount(t.events, id) == TerminalCount(s.events, id) {
      TerminalOne(s.events, Event(head.id, Running), id);
    }
  }

  lemma HeadNodes(items: seq<WorkItem>)
    requires items != []
    ensures Nodes(items) == |items[0].nodeIds| + Nodes(items[1..])
  {
    assert items == [items[0]] + items[1..];
    NodesConcat([items[0]], items[1..]);
    NodesOne([], items[0]);
    assert [] + [items[0]] == [items[0]];
  }

  lemma LaunchedFlagged(c: Config, s: State, i: nat, startedAt: real, raised: bool, now: real)
    requires Flagged(c, s) && s.pending != [] && HeadOk(c, s, i, s.pending[0])
    requires !s.stopAdmission
    ensures Flagged(c, LaunchedState(c, s, startedAt, raised, now))
  {
    var items, t, head := c.schedule.parallelItems, LaunchedState(c, s, startedAt, raised, now), s.pending[0];
    OneMoreItem(s.active, Worker(head, startedAt));
    assert forall a :: a in t.history <==> a in s.history || a == Launched(head);
    if s.parallelFailed {
      var k: nat :| Spoiled(c, s, k);
      assert k < i;
      assert Spoiled(c, t, k);
    }
  }

  lemma LaunchedTimed(c: Config, s: State, startedAt: real, raised: bool, now: real)
    requires Timed(c, s) && s.pending != [] && s.now <= startedAt <= now
    ensures Timed(c, LaunchedState(c, s, startedAt, raised, now))
  {}

  lemma QueueLimits(c: Config, s: State)
    requires Queued(c, s)
    ensures 0 <= Launches(c, s)
  {}

  lemma LaunchedTotalled(c: Config, s: State, startedAt: real, raised: bool, now: real)
    requires Totalled(c, s) && s.pending != []
    ensures Totalled(c, LaunchedState(c, s, startedAt, raised, now))
  {
    BookedOne(c.runId, s.history, Launched(s.pending[0]));
    hide BookedCounts;
  }

  lemma LaunchedKeeps(c: Config, s: State, startedAt: real, raised: bool, now: real)
    requires Invariant(c, s) && s.pending != [] && !s.stopAdmission && |s.active| < Limit(c)
    requires s.now <= startedAt <= now
    ensures Invariant(c, LaunchedState(c, s, startedAt, raised, now))
    ensures Slots(c, s, -1) ==> Slots(c, LaunchedState(c, s, startedAt, raised, now), 0)
  {
    hide Booked;
    hide Logged;
    hide Queued;
    hide Unstarted;
    hide Staged;
    hide Counted;
    hide Totalled;
    hide Timed;
    hide HeadOk;
    hide NeverSeen;
    HeadFacts(c, s);
    LaunchAllowed(c, s);
    QueueLimits(c, s);
    var i: nat := Launches(c, s);
    LaunchedTotalled(c, s, startedAt, raised, now);
    LaunchedLogged(c, s, startedAt, raised, now);
    LaunchedQueued(c, s, i, startedAt, raised, now);
    LaunchedUnstarted(c, s, i, startedAt, raised, now);
    LaunchedStaged(c, s, i, startedAt, raised, now);
    LaunchedCounted(c, s, startedAt, raised, now);
    LaunchedFlagged(c, s, i, startedAt, raised, now);
    LaunchedTimed(c, s, startedAt, raised, now);
  }

  /** Without its old head the queue needs at most what it needed for the items behind it. */
  lemma TailTokens(c: Config, s: State, t: State)
    requires Invariant(c, s) && s.pending != [] && !s.stopAdmission
    requires t.pending == s.pending[1..] && t.waits == s.waits - {s.pending[0].id}
    ensures Tokens(c, t) + Rounds(c.workerTimeout, c.pollInterval) + 1
         <= Lives(c, t.active, t.now) + Tokens(c, s) - Lives(c, s.active, s.now)
  {
    HeadFacts(c, s);
    if t.pending != [] {
      assert t.pending[0].id !in t.waits;
    }
  }

  lemma LaunchedTokens(c: Config, s: State, startedAt: real, raised: bool, now: real)
    requires Invariant(c, s) && s.pending != [] && !s.stopAdmission
    requires s.now <= startedAt <= now
    ensures Tokens(c, LaunchedState(c, s, startedAt, raised, now)) <= Tokens(c, s)
  {
    var t, w := LaunchedState(c, s, startedAt, raised, now), Worker(s.pending[0], startedAt);
    TailTokens(c, s, t);
    LivesOne(c, s.active, w, now);
    LivesMonotone(c, s.active, s.now, now);
    RoundsMonotone(startedAt + c.workerTimeout - now, c.workerTimeout, c.pollInterval);
  }

  lemma LaunchFailedTokens(c: Config, s: State, raised: bool, now: real)
    requires Invariant(c, s) && s.pending != [] && !s.stopAdmission && s.now <= now
    ensures Tokens(c, LaunchFailedState(c, s, raised, now)) <= Tokens(c, s)
  {
    LivesMonotone(c, s.active, s.now, now);
    TailTokens(c, s, LaunchFailedState(c, s, raised, now));
  }

  lemma LaunchFailedQueued(c: Config, s: State, i: nat, raised: bool, now: real)
    requires Queued(c, s) && s.pending != [] && HeadOk(c, s, i, s.pending[0])
    ensures Queued(c, LaunchFailedState(c, s, raised, now))
  {
    var items := c.schedule.parallelItems;
    forall k | 0 <= k < |s.active| ensures s.active[k].item in items[..i + 1] {
      assert s.active[k].item in items[..i];
    }
  }

  lemma LaunchFailedStaged(c: Config, s: State, i: nat, raised: bool, now: real)
    requires Staged(c, s) && s.pending != [] && HeadOk(c, s, i, s.pending[0])
    ensures Staged(c, LaunchFailedState(c, s, raised, now))
  {
    var items, t, head := c.schedule.parallelItems, LaunchFailedState(c, s, raised, now), s.pending[0];
    forall j | 0 <= j < |items| ensures items[j].id in t.terminal <==> j < i + 1 && items[j] !in ItemsOf(t.active) {
      assert items[j].id == head.id <==> j == i;
    }
  }

  lemma LaunchFailedCounted(c: Config, s: State, raised: bool, now: real)
    requires Counted(c, s) && Booked(s) && s.pending != [] && s.pending[0].id !in s.terminal
    ensures Counted(c, LaunchFailedState(c, s, raised, now))
    ensures Booked(LaunchFailedState(c, s, raised, now))
  {
    var t, head := LaunchFailedState(c, s, raised, now), s.pending[0];
    HeadNodes(s.pending);
    forall id ensures TerminalCount(t.events, id) == TerminalCount(s.events, id) + if id == head.id then 1 else 0 {
      TerminalOne(s.events, Event(head.id, Failed), id);
    }
  }

  lemma StillNoneClosed(h: seq<Action>, items: seq<WorkItem>, a: Action)
    requires NoneClosed(h, items) && !a.Closed?
    ensures NoneClosed(h + [a], items)
  {
    assert forall b :: b in h + [a] <==> b in h || b == a;
  }

  lemma LaunchFailedLogged(c: Config, s: State, raised: bool, now: real)
    requires Logged(c, s) && s.pending != []
    ensures Logged(c, LaunchFailedState(c, s, raised, now))
  {
    hide HistoryOk;
    hide ClosingsOk;
    hide NoneClosed;
    var action := NotLaunched(s.pending[0]);
    HistoryExtend(c.schedule, Limit(c), s.history, action);
    ClosingsExtend(c.runId, s.history, action);
    OpenOne(s.history, action);
    StillNoneClosed(s.history, ItemsOf(s.active), action);
    hide ItemsOf;
    hide Limit;
    hide NoneUncleaned;
  }

  lemma LaunchFailedTotalled(c: Config, s: State, raised: bool, now: real)
    requires Totalled(c, s) && s.pending != []
    ensures Totalled(c, LaunchFailedState(c, s, raised, now))
  {
    BookedOne(c.runId, s.history, NotLaunched(s.pending[0]));
    hide BookedCounts;
  }

  lemma LaunchFailedUnstarted(c: Config, s: State, i: nat, raised: bool, now: real)
    requires Unstarted(c, s) && s.pending != [] && HeadOk(c, s, i, s.pending[0])
    ensures Unstarted(c, LaunchFailedState(c, s, raised, now))
  {
    assert forall a :: a in s.history + [NotLaunched(s.pending[0])] <==> a in s.history || a == NotLaunched(s.pending[0]);
    assert forall item :: item in s.pending[1..] ==> item in s.pending;
  }

  lemma LaunchFailedFlagged(c: Config, s: State, i: nat, raised: bool, now: real)
    requires Flagged(c, s) && s.pending != [] && HeadOk(c, s, i, s.pending[0]) && NeverSeen(s.history, s.pending[0])
    ensures Flagged(c, LaunchFailedState(c, s, raised, now))
  {
    NeverWon(s.history, s.pending[0]);
    WonOne(s.history, NotLaunched(s.pending[0]), s.pending[0]);
    hide NeverSeen;
    hide Won;
    assert Spoiled(c, LaunchFailedState(c, s, raised, now), i);
  }

  lemma LaunchFailedKeeps(c: Config, s: State, raised: bool, now: real)
    requires Invariant(c, s) && s.pending != [] && s.now <= now
    ensures Invariant(c, LaunchFailedState(c, s, raised, now))
    ensures Slots(c, s, -1) ==> Slots(c, LaunchFailedState(c, s, raised, now), 0)
  {
    hide Booked;
    hide Logged;
    hide Queued;
    hide Unstarted;
    hide Staged;
    hide Counted;
    hide Totalled;
    hide Flagged;
    HeadFacts(c, s);
    var i := Launches(c, s);
    LaunchFailedQueued(c, s, i, raised, now);
    LaunchFailedStaged(c, s, i, raised, now);
    LaunchFailedCounted(c, s, raised, now);
    LaunchFailedLogged(c, s, raised, now);
    LaunchFailedTotalled(c, s, raised, now);
    LaunchFailedUnstarted(c, s, i, raised, now);
    LaunchFailedFlagged(c, s, i, raised, now);
  }

  lemma StoppedKeeps(c: Config, s: State, reason: FailureReason, waits: map<ItemId, Option<real>>, since: real,
                     now: real)
    requires Invariant(c, s) && s.pending != [] && s.now <= now
    requires waits == s.waits || waits == s.waits - {s.pending[0].id}
    ensures Invariant(c, StoppedState(s, reason, waits, since, now))
    ensures Tokens(c, StoppedState(s, reason, waits, since, now)) <= Tokens(c, s)
  {
    var i: nat := Launches(c, s);
    hide Booked;
    hide Logged;
    hide Queued;
    hide Unstarted;
    hide Staged;
    hide Counted;
    hide Flagged;
    hide Timed;
    hide Tokens;
    HeadFacts(c, s);
    hide HeadOk;
    hide NeverSeen;
    var t := StoppedState(s, reason, waits, since, now);
    CarryOver(c, s, t);
    StoppedFlagged(c, s, i, reason, waits, since, now);
    StoppedTimed(c, s, reason, waits, since, now);
    StoppedTokens(c, s, reason, waits, since, now);
  }

  lemma StoppedFlagged(c: Config, s: State, i: nat, reason: FailureReason, waits: map<ItemId, Option<real>>, since: real, now: real)
    requires Flagged(c, s) && s.pending != [] && NeverSeen(s.history, s.pending[0]) && HeadOk(c, s, i, s.pending[0])
    ensures Flagged(c, StoppedState(s, reason, waits, since, now))
  {
    NeverWon(s.history, s.pending[0]);
    hide NeverSeen;
    hide Won;
    assert Spoiled(c, StoppedState(s, reason, waits, since, now), i);
  }

  lemma StoppedTimed(c: Config, s: State, reason: FailureReason, waits: map<ItemId, Option<real>>, since: real, now: real)
    requires Timed(c, s) && s.pending != [] && s.now <= now
    requires waits == s.waits || waits == s.waits - {s.pending[0].id}
    ensures Timed(c, StoppedState(s, reason, waits, since, now))
  {}

  lemma StoppedTokens(c: Config, s: State, reason: FailureReason, waits: map<ItemId, Option<real>>, since: real, now: real)
    requires c.pollInterval > 0.0 && s.now <= now && s.pending != []
    ensures Tokens(c, StoppedState(s, reason, waits, since, now)) <= Tokens(c, s)
  {
    hide HeadRounds;
    hide Lives;
    LivesMonotone(c, s.active, s.now, now);
  }

  lemma WaitingKeeps(c: Config, s: State, now: real)
    requires Invariant(c, s) && s.pending != [] && s.now <= now
    ensures Invariant(c, WaitingState(s, now))
    ensures Tokens(c, WaitingState(s, now)) <= Tokens(c, s)
  {
    hide Booked;
    hide Logged;
    hide Queued;
    hide Unstarted;
    hide Staged;
    hide Counted;
    hide Flagged;
    hide Timed;
    hide Tokens;
    var t := WaitingState(s, now);
    CarryOver(c, s, t);
    FlagsCarryOver(c, s, t);
    WaitingTimed(c, s, now);
    WaitingTokens(c, s, now);
  }

  lemma WaitingTimed(c: Config, s: State, now: real)
    requires Timed(c, s) && s.pending != [] && s.now <= now
    ensures Timed(c, WaitingState(s, now))
  {}

  /** A timer that starts now allows the full admission time, which the queue's head was budgeted for. */
  lemma WaitingTokens(c: Config, s: State, now: real)
    requires c.pollInterval > 0.0 && Timed(c, s) && s.pending != [] && s.now <= now
    ensures Tokens(c, WaitingState(s, now)) <= Tokens(c, s)
  {
    hide Lives;
    LivesMonotone(c, s.active, s.now, now);
    WaitingRounds(c, s, now);
    hide HeadRounds;
    hide Timed;
  }

  lemma WaitingRounds(c: Config, s: State, now: real)
    requires c.pollInterval > 0.0 && Timed(c, s) && s.pending != [] && s.now <= now
    ensures HeadRounds(c, WaitingState(s, now)) <= HeadRounds(c, s)
  {
    hide Rounds;
    var id := s.pending[0].id;
    if id in s.waits && s.waits[id].Some? {
      var t := s.waits[id].value + c.admissionTimeout;
      RoundsMonotone(t - now, t - s.now, c.pollInterval);
    }
  }
}
