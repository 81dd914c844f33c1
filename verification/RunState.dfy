/** The variables of `run_batch` and what its parallel phase keeps about them. */
module RunState {
  import opened Outcomes
  import opened BatchTypes
  import opened Sequences
  import opened TagSchedule
  import opened BatchSchedule
  import opened RunHistory
  import opened SchedulerClock
  import WorkerResult

  datatype Worker = Worker(item: WorkItem, startedAt: real)

  /** `Reported` stands for the worker's own `succeeded` or `failed`. */
  datatype EventKind = Running | Reported | Failed | Cancelled | NotExecuted

  datatype Event = Event(id: ItemId, kind: EventKind)

  datatype FailureReason =
    | MemoryGateError | MemoryAdmissionTimeout | WorkerLaunchFailed | WorkerTimeout | WorkerCleanupFailed
    | WorkerFailed | DiagnosticEventFailed

  datatype GateAnswer = Admitted | MustWait | GateRaised

  datatype PollAnswer = StillRunning | HasExited(code: int) | PollRaised

  /** `WaitFailed` is an exception, `Interrupted` a cancellation. */
  datatype WaitAnswer = WaitExited(code: int) | WaitFailed | Interrupted

  datatype Termination = Confirmed(code: int) | Unconfirmed | Abandoned

  /** A worker is killed for running over its time, or when the run is cancelled; the first kill may have been cut short. */
  datatype Purpose = Overdue | Cancelling

  /** What the scheduler is told, by item and by the clock: the gate's answers, which workers start, what polls and waits
      show, the documents in the result files, how kills go, which callbacks raise and which sleeps are interrupted. No
      question is asked twice for the same arguments, so any environment can be described like this. */
  datatype Environment = Environment(
    gate: (WorkItem, real) -> GateAnswer,
    starts: WorkItem -> bool,
    poll: (WorkItem, real) -> PollAnswer,
    wait: WorkItem -> WaitAnswer,
    payload: WorkItem -> Option<WorkerResult.Json>,
    kills: (WorkItem, Purpose) -> bool,
    killWait: (WorkItem, Purpose) -> WaitAnswer,
    raises: Event -> bool,
    interrupts: real -> bool)
  {
    /** The exit is confirmed only if the kill went through and the wait returned. */
    function KillEnd(item: WorkItem, purpose: Purpose): Termination {
      match killWait(item, purpose)
      case Interrupted => Abandoned
      case WaitFailed => Unconfirmed
      case WaitExited(code) => if kills(item, purpose) then Confirmed(code) else Unconfirmed
    }
  }

  datatype Config = Config(schedule: Schedule, maxConcurrency: int, hasGate: bool, skipError: bool,
                           workerTimeout: real, admissionTimeout: real, pollInterval: real, runId: string,
                           env: Environment)

  /** Items are numbered per phase, and parallel items have distinct binaries. */
  ghost predicate ConfigOk(c: Config) {
    && c.pollInterval > 0.0
    && Numbered(c.schedule.parallelItems, Parallel) && Numbered(c.schedule.serialItems, Serial)
    && DistinctBinaries(c.schedule.parallelItems)
  }

  function Limit(c: Config): nat {
    var n := |c.schedule.parallelItems|;
    if n == 0 then 0
    else
      var bounded := if c.maxConcurrency < n then c.maxConcurrency else n;
      if bounded < 1 then 1 else bounded
  }

  /** As many workers as allowed and as there are items, but at least one if there are any. */
  lemma LimitIs(c: Config)
    ensures Limit(c) <= |c.schedule.parallelItems| && (Limit(c) == 0 <==> c.schedule.parallelItems == [])
    ensures Limit(c) <= c.maxConcurrency || Limit(c) <= 1
    ensures Limit(c) < |c.schedule.parallelItems| ==> c.maxConcurrency <= Limit(c)
  {}

  /** Why the memory gate ended admission, and from when on the head of the queue had waited for it. */
  datatype Refusal = Refusal(item: WorkItem, reason: FailureReason, since: real, at: real)

  /** `held` counts the reserved slots of the memory gate; `history`, with the time of each action, and `polls` record
      the run; `raises` says of each event whether its callback raised. */
  datatype State = State(
    now: real,
    held: int,
    active: seq<Worker>,
    uncleaned: seq<Worker>,
    pending: seq<WorkItem>,
    stopAdmission: bool,
    parallelFailed: bool,
    failureReason: Option<FailureReason>,
    waits: map<ItemId, Option<real>>,
    successful: nat,
    failed: nat,
    skipped: nat,
    aborted: seq<NodeKey>,
    events: seq<Event>,
    terminal: set<ItemId>,
    diagnosticFailures: nat,
    raises: seq<bool>,
    history: seq<Action>,
    times: seq<real>,
    refusal: Option<Refusal>,
    polls: nat)

  function Initial(c: Config, now: real): State {
    State(now, 0, [], [], c.schedule.parallelItems, false, false, None, map[], 0, 0, 0, [], [], {}, 0, [], [], [], None, 0)
  }

  // ---------------------------------------------------------------------------------------------
  // Small vocabulary.

  function ItemsOf(workers: seq<Worker>): (items: seq<WorkItem>)
    ensures |items| == |workers|
  {
    seq(|workers|, i requires 0 <= i < |workers| => workers[i].item)
  }

  /** `list.remove`: the first worker on the item. */
  function Drop(workers: seq<Worker>, item: WorkItem): seq<Worker> {
    if workers == [] then []
    else if workers[0].item == item then workers[1..]
    else [workers[0]] + Drop(workers[1..], item)
  }

  lemma {:induction false} DropItems(workers: seq<Worker>, item: WorkItem)
    ensures ItemsOf(Drop(workers, item)) == Without(ItemsOf(workers), item)
  {
    if workers != [] {
      DropItems(workers[1..], item);
      assert ItemsOf(workers)[1..] == ItemsOf(workers[1..]);
      assert ItemsOf([workers[0]] + Drop(workers[1..], item)) == [workers[0].item] + ItemsOf(Drop(workers[1..], item));
    }
  }

  lemma {:induction false} DropMiddle(before: seq<Worker>, w: Worker, after: seq<Worker>)
    requires forall k :: 0 <= k < |before| ==> before[k].item != w.item
    ensures Drop(before + [w] + after, w.item) == before + after
  {
    var all := before + [w] + after;
    if before == [] {
      assert all == [w] + after;
      assert all[1..] == after;
      assert before + after == after;
    } else {
      DropMiddle(before[1..], w, after);
      assert all[1..] == before[1..] + [w] + after;
      assert [before[0]] + (before[1..] + after) == before + after;
    }
  }

  function Nodes(items: seq<WorkItem>): nat {
    if items == [] then 0 else Nodes(items[..|items| - 1]) + |items[|items| - 1].nodeIds|
  }

  lemma NodesOne(items: seq<WorkItem>, item: WorkItem)
    ensures Nodes(items + [item]) == Nodes(items) + |item.nodeIds|
  {
    assert (items + [item])[..|items|] == items;
  }

  lemma {:induction false} NodesConcat(a: seq<WorkItem>, b: seq<WorkItem>)
    ensures Nodes(a + b) == Nodes(a) + Nodes(b)
  {
    if b == [] {
      assert a + b == a;
    } else {
      InitLast(b);
      Associative(a, b[..|b| - 1], [b[|b| - 1]]);
      NodesConcat(a, b[..|b| - 1]);
      NodesOne(a + b[..|b| - 1], b[|b| - 1]);
    }
  }

  lemma {:induction false} NodesFlat(items: seq<WorkItem>)
    ensures |Flat(items)| == Nodes(items)
  {
    if items != [] {
      NodesFlat(items[..|items| - 1]);
    }
  }

  lemma {:induction false} NodesWithout(items: seq<WorkItem>, item: WorkItem)
    requires item in items
    ensures Nodes(Without(items, item)) == Nodes(items) - |item.nodeIds|
  {
    assert items == [items[0]] + items[1..];
    NodesConcat([items[0]], items[1..]);
    assert Nodes([items[0]]) == |items[0].nodeIds| by { NodesOne([], items[0]); assert [] + [items[0]] == [items[0]]; }
    if items[0] != item {
      NodesWithout(items[1..], item);
      NodesConcat([items[0]], Without(items[1..], item));
    }
  }

  function TerminalCount(events: seq<Event>, id: ItemId): nat {
    if events == [] then 0
    else
      var last := events[|events| - 1];
      TerminalCount(events[..|events| - 1], id) + if last.id == id && last.kind != Running then 1 else 0
  }

  lemma TerminalOne(events: seq<Event>, e: Event, id: ItemId)
    ensures TerminalCount(events + [e], id) == TerminalCount(events, id) + if e.id == id && e.kind != Running then 1 else 0
  {
    assert (events + [e])[..|events|] == events;
  }

  /** Polls that a worker can still survive. */
  function Life(c: Config, w: Worker, now: real): nat
    requires c.pollInterval > 0.0
  {
    Rounds(w.startedAt + c.workerTimeout - now, c.pollInterval) + 1
  }

  function Lives(c: Config, workers: seq<Worker>, now: real): nat
    requires c.pollInterval > 0.0
  {
    if workers == [] then 0
    else Lives(c, workers[..|workers| - 1], now) + Life(c, workers[|workers| - 1], now)
  }

  // ---------------------------------------------------------------------------------------------
  // The invariants of the parallel phase.

  function Launches(c: Config, s: State): int {
    |c.schedule.parallelItems| - |s.pending|
  }

  /** Every item has at most one terminal event, and `terminal` lists those that have one. */
  ghost predicate Booked(s: State) {
    forall id :: TerminalCount(s.events, id) == if id in s.terminal then 1 else 0
  }

  ghost predicate NoneClosed(h: seq<Action>, items: seq<WorkItem>) {
    forall a :: a in h && a.Closed? ==> a.item !in items
  }

  ghost predicate Logged(c: Config, s: State) {
    && HistoryOk(c.schedule, Limit(c), s.history)
    && Open(s.history) == ItemsOf(s.active)
    && (s.uncleaned == [] ==> NoneUncleaned(s.history))
    && ClosingsOk(c.runId, s.history)
    && NoneClosed(s.history, ItemsOf(s.active))
  }

  /** Held slots are those of the tracked workers, up to a difference inside one step. */
  ghost predicate Slots(c: Config, s: State, debt: int) {
    c.hasGate ==> s.held == |s.active| + |s.uncleaned| - debt
  }

  ghost predicate Queued(c: Config, s: State) {
    && |s.pending| <= |c.schedule.parallelItems|
    && s.pending == c.schedule.parallelItems[Launches(c, s)..]
    && |s.active| <= Limit(c)
    && (forall k :: 0 <= k < |s.active| ==> s.active[k].item in c.schedule.parallelItems[..Launches(c, s)])
    && (forall k, l :: 0 <= k < l < |s.active| ==> s.active[k].item != s.active[l].item)
  }

  ghost predicate NotSeen(h: seq<Action>, items: seq<WorkItem>) {
    forall a :: a in h ==> a.item !in items
  }

  ghost predicate Unstarted(c: Config, s: State) {
    NotSeen(s.history, s.pending) && NotSeen(s.history, c.schedule.serialItems)
  }

  ghost predicate Staged(c: Config, s: State) {
    var items := c.schedule.parallelItems;
    && (forall i :: 0 <= i < |items| ==> (items[i].id in s.terminal <==> i < Launches(c, s) && items[i] !in ItemsOf(s.active)))
    && (forall i :: 0 <= i < |c.schedule.serialItems| ==> c.schedule.serialItems[i].id !in s.terminal)
  }

  ghost predicate Counted(c: Config, s: State) {
    s.successful + s.failed + s.skipped + Nodes(ItemsOf(s.active)) + Nodes(s.pending) == Nodes(c.schedule.parallelItems)
  }

  /** The totals are the counts of the accepted results, and the nodes of every other item that ended. */
  ghost predicate Totalled(c: Config, s: State) {
    WorkerResult.Counts(s.successful, s.failed, s.skipped) == BookedCounts(c.runId, s.history)
  }

  /** The i-th parallel item will never succeed. */
  ghost predicate Spoiled(c: Config, s: State, i: nat) {
    && i < |c.schedule.parallelItems|
    && !Won(s.history, c.schedule.parallelItems[i])
    && c.schedule.parallelItems[i] !in ItemsOf(s.active)
    && (i < Launches(c, s) || s.stopAdmission)
  }

  ghost predicate Flagged(c: Config, s: State) {
    && (s.parallelFailed <==> s.failureReason.Some?)
    && (s.stopAdmission ==> s.parallelFailed)
    && (s.uncleaned != [] ==> s.stopAdmission)
    && (!s.parallelFailed ==> s.failed == 0)
    && (!s.parallelFailed ==> forall i :: 0 <= i < |c.schedule.parallelItems| && i < Launches(c, s) ==>
          c.schedule.parallelItems[i] in ItemsOf(s.active) || Won(s.history, c.schedule.parallelItems[i]))
    && (s.parallelFailed ==> exists i :: Spoiled(c, s, i))
    && s.aborted == []
  }

  /** Admission timers exist for the head of the queue only, and run only while no worker is active. */
  ghost predicate Timed(c: Config, s: State) {
    && (forall id :: id in s.waits ==> s.pending != [] && id == s.pending[0].id)
    && (forall id :: id in s.waits && s.active != [] ==> s.waits[id] == None)
    && (forall id :: id in s.waits && s.waits[id].Some? ==> s.waits[id].value <= s.now)
    && (forall k :: 0 <= k < |s.active| ==> s.active[k].startedAt <= s.now)
  }

  ghost predicate Invariant(c: Config, s: State) {
    && ConfigOk(c)
    && Booked(s) && Logged(c, s) && Queued(c, s) && Unstarted(c, s) && Staged(c, s) && Counted(c, s) && Totalled(c, s)
    && Flagged(c, s) && Timed(c, s)
  }

  // ---------------------------------------------------------------------------------------------
  // The budget of polls.

  function PerItem(c: Config): nat
    requires c.pollInterval > 0.0
  {
    Rounds(c.workerTimeout, c.pollInterval) + 1 + Rounds(c.admissionTimeout, c.pollInterval)
  }

  /** Polls that the admission timer of the queue's head still allows. */
  function HeadRounds(c: Config, s: State): nat
    requires c.pollInterval > 0.0 && s.pending != []
  {
    var id := s.pending[0].id;
    if id in s.waits && s.waits[id].Some? then Rounds(s.waits[id].value + c.admissionTimeout - s.now, c.pollInterval)
    else Rounds(c.admissionTimeout, c.pollInterval)
  }

  /** Polls that the queue may still cost: none once admission has stopped. */
  function QueueTokens(c: Config, s: State): nat
    requires c.pollInterval > 0.0
  {
    if s.stopAdmission || s.pending == [] then 0
    else Times(|s.pending| - 1, PerItem(c)) + Rounds(c.workerTimeout, c.pollInterval) + 1 + HeadRounds(c, s)
  }

  /** Polls still to come: those of the active workers, and those of the queue. */
  function Tokens(c: Config, s: State): nat
    requires c.pollInterval > 0.0
  {
    Lives(c, s.active, s.now) + QueueTokens(c, s)
  }

  function ParallelBound(c: Config): nat
    requires c.pollInterval > 0.0
  {
    Times(|c.schedule.parallelItems|, PerItem(c))
  }

  ghost predicate Budgeted(c: Config, s: State)
    requires c.pollInterval > 0.0
  {
    s.polls + Tokens(c, s) <= ParallelBound(c)
  }

  lemma InitialLogged(c: Config, now: real)
    ensures Logged(c, Initial(c, now)) && Totalled(c, Initial(c, now)) && Booked(Initial(c, now))
    ensures Unstarted(c, Initial(c, now))
  {
    assert Open([]) == [] && ItemsOf([]) == [];
    hide ConfigOk;
    hide Limit;
  }

  lemma InitialQueue(c: Config, now: real)
    ensures Queued(c, Initial(c, now)) && Counted(c, Initial(c, now)) && Staged(c, Initial(c, now))
  {
    hide Limit;
    assert ItemsOf([]) == [];
    assert Nodes([]) == 0;
  }

  lemma InitialFlags(c: Config, now: real)
    ensures Flagged(c, Initial(c, now)) && Timed(c, Initial(c, now)) && Slots(c, Initial(c, now), 0)
  {
    hide Won;
    hide Limit;
  }

  lemma InitialBudget(c: Config, now: real)
    requires c.pollInterval > 0.0
    ensures Budgeted(c, Initial(c, now))
  {
    hide Rounds;
    assert Lives(c, [], now) == 0;
  }

  lemma InitialInvariant(c: Config, now: real)
    requires ConfigOk(c)
    ensures Invariant(c, Initial(c, now)) && Slots(c, Initial(c, now), 0) && Budgeted(c, Initial(c, now))
  {
    assert c.pollInterval > 0.0;
    hide ConfigOk;
    hide Booked;
    hide Logged;
    hide Queued;
    hide Unstarted;
    hide Staged;
    hide Counted;
    hide Totalled;
    hide Flagged;
    hide Timed;
    hide Slots;
    hide Budgeted;
    hide Initial;
    InitialLogged(c, now);
    InitialQueue(c, now);
    InitialFlags(c, now);
    InitialBudget(c, now);
  }

  lemma {:induction false} LivesMonotone(c: Config, workers: seq<Worker>, now: real, later: real)
    requires c.pollInterval > 0.0 && now <= later
    ensures Lives(c, workers, later) <= Lives(c, workers, now)
  {
    if workers != [] {
      var w := workers[|workers| - 1];
      LivesMonotone(c, workers[..|workers| - 1], now, later);
      RoundsMonotone(w.startedAt + c.workerTimeout - later, w.startedAt + c.workerTimeout - now, c.pollInterval);
    }
  }

  lemma LivesOne(c: Config, workers: seq<Worker>, w: Worker, now: real)
    requires c.pollInterval > 0.0
    ensures Lives(c, workers + [w], now) == Lives(c, workers, now) + Life(c, w, now)
  {
    assert (workers + [w])[..|workers|] == workers;
  }

  lemma {:induction false} LivesConcat(c: Config, a: seq<Worker>, b: seq<Worker>, now: real)
    requires c.pollInterval > 0.0
    ensures Lives(c, a + b, now) == Lives(c, a, now) + Lives(c, b, now)
  {
    if b == [] {
      assert a + b == a;
    } else {
      InitLast(b);
      Associative(a, b[..|b| - 1], [b[|b| - 1]]);
      LivesConcat(c, a, b[..|b| - 1], now);
      LivesOne(c, a + b[..|b| - 1], b[|b| - 1], now);
    }
  }

  /** What depends only on the items, the books and the history. */
  lemma CarryOver(c: Config, s: State, t: State)
    requires Booked(s) && Logged(c, s) && Queued(c, s) && Unstarted(c, s) && Staged(c, s) && Counted(c, s)
    requires Totalled(c, s)
    requires t.active == s.active && t.pending == s.pending && t.uncleaned == s.uncleaned && t.history == s.history
    requires t.events == s.events && t.terminal == s.terminal
    requires t.successful == s.successful && t.failed == s.failed && t.skipped == s.skipped
    ensures Booked(t) && Logged(c, t) && Queued(c, t) && Unstarted(c, t) && Staged(c, t) && Counted(c, t)
    ensures Totalled(c, t)
  {}

  /** Time passing. */
  lemma Later(c: Config, s: State, now: real)
    requires Invariant(c, s) && s.now <= now
    ensures Invariant(c, s.(now := now))
  {
    hide Booked;
    hide Logged;
    hide Queued;
    hide Unstarted;
    hide Staged;
    hide Counted;
    hide Totalled;
    hide Flagged;
    var t := s.(now := now);
    CarryOver(c, s, t);
    FlagsCarryOver(c, s, t);
  }

  /** The slot counter is not part of the invariant. */
  lemma SlotsChange(c: Config, s: State, held: int)
    requires Invariant(c, s)
    ensures Invariant(c, s.(held := held)) && Tokens(c, s.(held := held)) == Tokens(c, s)
  {
    hide ConfigOk;
    hide Booked;
    hide Logged;
    hide Queued;
    hide Unstarted;
    hide Staged;
    hide Counted;
    hide Totalled;
    hide Flagged;
    var t := s.(held := held);
    CarryOver(c, s, t);
    FlagsCarryOver(c, s, t);
  }

  lemma FlagsCarryOver(c: Config, s: State, t: State)
    requires Flagged(c, s)
    requires t.parallelFailed == s.parallelFailed && t.failureReason == s.failureReason
    requires t.stopAdmission == s.stopAdmission && t.uncleaned == s.uncleaned && t.failed == s.failed
    requires t.active == s.active && t.history == s.history && t.pending == s.pending && t.aborted == s.aborted
    ensures Flagged(c, t)
  {
    if s.parallelFailed {
      var i :| Spoiled(c, s, i);
      assert Spoiled(c, t, i);
    }
  }

  lemma LaterTokens(c: Config, s: State, now: real)
    requires c.pollInterval > 0.0 && s.now <= now
    ensures Tokens(c, s.(now := now)) <= Tokens(c, s)
  {
    LivesMonotone(c, s.active, s.now, now);
    if s.pending != [] {
      var id := s.pending[0].id;
      if id in s.waits && s.waits[id].Some? {
        var t := s.waits[id].value + c.admissionTimeout;
        RoundsMonotone(t - now, t - s.now, c.pollInterval);
      }
    }
  }
}
