/** `run_batch`, the two-phase scheduler: its local variables are one `State` value. Everything the scheduler cannot know
    (answers of the gate, launches, exits, kills, result files, callbacks and cancellation) it asks the environment, and
    how much time passes is an arbitrary choice, so what is proved holds for every environment. */
module BatchWorkers {
  import opened Outcomes
  import opened BatchTypes
  import opened Sequences
  import opened RunHistory
  import opened SchedulerClock
  import opened RunState
  import opened RunSteps
  import opened RunCauses
  import WorkerResult

  // ---------------------------------------------------------------------------------------------
  // The environment.

  /** Time that passes, by the clock of the machine. */
  method Elapsed() returns (elapsed: real) {
    elapsed := *;
  }

  method Monotonic(s: State) returns (now: real)
    ensures now >= s.now
  {
    var elapsed := Elapsed();
    now := if elapsed > 0.0 then s.now + elapsed else s.now;
  }

  method Sleep(c: Config, s: State) returns (t: State, interrupted: bool)
    ensures t == s.(now := t.now, polls := s.polls + 1)
    ensures t.now >= s.now + c.pollInterval
    ensures interrupted <==> c.env.interrupts(t.now)
  {
    var elapsed := Elapsed();
    t := s.(now := s.now + c.pollInterval + (if elapsed > 0.0 then elapsed else 0.0), polls := s.polls + 1);
    interrupted := c.env.interrupts(t.now);
  }

  /** Kills the worker's process tree and waits for its exit. */
  method TerminateWorker(c: Config, item: WorkItem, purpose: Purpose) returns (end: Termination)
    ensures end == c.env.KillEnd(item, purpose)
  {
    var killed := c.env.kills(item, purpose);
    var waited := c.env.killWait(item, purpose);
    if waited.Interrupted? {
      return Abandoned;
    }
    if killed && waited.WaitExited? {
      return Confirmed(waited.code);
    }
    return Unconfirmed;
  }

  // ---------------------------------------------------------------------------------------------
  // One worker.

  /** `None` means that the validator raised something other than a contract violation. */
  method FinishWorker(c: Config, s: State, w: Worker, exitCode: int) returns (report: Report, x: Option<Settlement>)
    requires if w.item.phase == Parallel then c.env.poll(w.item, s.now) == HasExited(exitCode)
             else c.env.wait(w.item) == WaitExited(exitCode)
    ensures report == Exited(exitCode, c.env.payload(w.item))
    ensures x.None? <==> TypeErrorOn(c.runId, w.item, report)
    ensures x.Some? ==> SettlementOk(c, w, x.value) && Told(c, s, w, x.value) && x.value.report == report
  {
    var payload := c.env.payload(w.item);
    var now := Monotonic(s);
    report := Exited(exitCode, payload);
    var n := |w.item.nodeIds|;
    var rejected := Settlement(Failure, report, 0, n, 0, Failed, WorkerFailed,
                               c.env.raises(Event(w.item.id, Failed)), s.now, now);
    if payload.None? {
      return report, Some(rejected);
    }
    var runId := WorkerResult.RunIdText(c.runId, w.item);
    WorkerResult.RaisesExactly(payload.value, w.item, runId);
    match WorkerResult.ValidateWorkerResult(payload.value, w.item, runId) {
      case Raised => x := None;
      case Invalid => x := Some(rejected);
      case Valid(result) =>
        WorkerResult.AcceptedCounts(payload.value, w.item, runId);
        if !WorkerResult.EqualsInt(result.exitCode, exitCode) {
          x := Some(rejected);
        } else {
          x := Some(Settlement(if result.succeeded then Success else Failure, report, result.counts.successful,
                               result.counts.failed, result.counts.skipped, Reported, WorkerFailed,
                               c.env.raises(Event(w.item.id, Reported)), s.now, now));
        }
    }
  }

  /** All nodes of a worker that had to be killed fail. */
  function KilledBy(c: Config, w: Worker, seen: real, now: real): Settlement {
    var n, raised := |w.item.nodeIds|, c.env.raises(Event(w.item.id, Failed));
    if c.env.KillEnd(w.item, Overdue).Confirmed? then Settlement(Failure, Killed(true), 0, n, 0, Failed, WorkerTimeout, raised, seen, now)
    else Settlement(Uncleaned, Killed(false), 0, n, 0, Failed, WorkerCleanupFailed, raised, seen, now)
  }

  lemma KilledIsOk(c: Config, s: State, w: Worker, seen: real, now: real)
    requires s.now <= seen <= now && !c.env.KillEnd(w.item, Overdue).Abandoned?
    requires if w.item.phase == Parallel then c.env.poll(w.item, seen) == StillRunning && seen - w.startedAt > c.workerTimeout
             else c.env.wait(w.item) == WaitFailed
    ensures SettlementOk(c, w, KilledBy(c, w, seen, now)) && Told(c, s, w, KilledBy(c, w, seen, now))
  {}

  /** A cancellation from outside is due: in a sleep, a poll or a wait, or while a worker is killed that a poll shows to
      run over its time or for which the wait fails. */
  ghost predicate Disturbed(c: Config, s: State) {
    || (exists t :: c.env.interrupts(t))
    || (exists k :: 0 <= k < |s.active| && WorkerDisturbs(c, s.active[k]))
  }

  ghost predicate WorkerDisturbs(c: Config, w: Worker) {
    if w.item.phase == Parallel then exists t :: PollDisturbs(c, w, t)
    else c.env.wait(w.item).Interrupted? || (c.env.wait(w.item).WaitFailed? && c.env.KillEnd(w.item, Overdue).Abandoned?)
  }

  ghost predicate PollDisturbs(c: Config, w: Worker, t: real) {
    || c.env.poll(w.item, t).PollRaised?
    || (c.env.poll(w.item, t).StillRunning? && t - w.startedAt > c.workerTimeout && c.env.KillEnd(w.item, Overdue).Abandoned?)
  }

  /** Why a run is cancelled: from outside, or because a result raised in the validator. In the second case the slot of
      the worker, which is still tracked, has been released already. */
  datatype Break = Interruption | ResultRaised(item: WorkItem, report: Report)

  function Debt(b: Break): nat {
    if b.ResultRaised? then 1 else 0
  }

  ghost predicate BreakOk(c: Config, s: State, b: Break) {
    && (b.Interruption? ==> Disturbed(c, s))
    && (b.ResultRaised? ==>
          && b.item in ItemsOf(s.active) && TypeErrorOn(c.runId, b.item, b.report)
          && b.report.payload == c.env.payload(b.item))
  }

  datatype StepEnd = Stayed | Left | Broken(cause: Break)

  ghost predicate SameQueue(s: State, t: State) {
    && t.pending == s.pending && t.waits == s.waits && t.polls == s.polls && s.now <= t.now
    && (s.stopAdmission ==> t.stopAdmission)
  }

  /** The report is what the poll showed; a kill answers a worker that still runs. */
  predicate Observed(answer: PollAnswer, report: Report) {
    match answer
    case HasExited(code) => report.Exited? && report.exitCode == code
    case StillRunning => report.Killed?
    case PollRaised => false
  }

  /** The worker leaves with the settlement `x` of what the poll showed. */
  ghost predicate Leaves(c: Config, s: State, t: State, w: Worker, answer: PollAnswer, x: Settlement) {
    t == Settled(c, s, w, x) && Told(c, s, w, x) && Observed(answer, x.report)
  }

  lemma SettledQueueKept(c: Config, s: State, w: Worker, x: Settlement)
    requires s.now <= x.now
    ensures SameQueue(s, Settled(c, s, w, x))
  {}

  lemma ActiveIsParallel(c: Config, s: State, before: seq<Worker>, w: Worker, after: seq<Worker>)
    requires Invariant(c, s) && Around(s, before, w, after)
    ensures w.item.phase == Parallel
  {
    assert s.active[|before|] == w;
  }

  lemma PollBreaks(c: Config, s: State, before: seq<Worker>, w: Worker, after: seq<Worker>, now: real)
    requires Around(s, before, w, after) && w.item.phase == Parallel && PollDisturbs(c, w, now)
    ensures Disturbed(c, s)
  {
    assert s.active[|before|] == w;
    assert WorkerDisturbs(c, w);
  }

  lemma ToldLater(c: Config, s: State, t: State, w: Worker, x: Settlement)
    requires Told(c, t, w, x) && s.now <= t.now
    ensures Told(c, s, w, x) && s.now <= x.now
  {}

  method PollOne(c: Config, s: State, w: Worker, ghost before: seq<Worker>, ghost after: seq<Worker>)
    returns (t: State, answer: PollAnswer, end: StepEnd)
    requires ConfigOk(c)
    requires Invariant(c, s) && Accounted(c, s) && Slots(c, s, 0) && Around(s, before, w, after)
    ensures Invariant(c, t) && Accounted(c, t) && SameQueue(s, t)
    ensures answer.PollRaised? ==> t == s && end == Broken(Interruption)
    ensures answer.HasExited? ==> end.Left? || (end.Broken? && end.cause.ResultRaised?)
    ensures end.Broken? && end.cause.ResultRaised? ==> Observed(answer, end.cause.report)
    ensures end.Stayed? ==> Slots(c, t, 0) && t.active == s.active && t.now - w.startedAt <= c.workerTimeout
    ensures end.Left? ==> Slots(c, t, 0) && t.active == before + after
    ensures end.Left? ==> exists x :: SettlementOk(c, w, x) && Leaves(c, s, t, w, answer, x)
    ensures !end.Left? ==> t.history == s.history
    ensures end.Broken? ==> BreakOk(c, t, end.cause) && Slots(c, t, Debt(end.cause))
  {
    hide Invariant;
    hide Accounted;
    hide SettlementOk;
    hide Told;
    hide TypeErrorOn;
    hide Settled;
    ActiveIsParallel(c, s, before, w, after);
    var now := Monotonic(s);
    answer := c.env.poll(w.item, now);
    match answer {
      case PollRaised =>
        PollBreaks(c, s, before, w, after, now);
        return s, answer, Broken(Interruption);
      case StillRunning =>
        if now - w.startedAt <= c.workerTimeout {
          Later(c, s, now);
          CarryAccounted(c, s, s.(now := now));
          return s.(now := now), answer, Stayed;
        }
        var termination := TerminateWorker(c, w.item, Overdue);
        if termination.Abandoned? {
          PollBreaks(c, s, before, w, after, now);
          return s, answer, Broken(Interruption);
        }
        var gone := Monotonic(s.(now := now));
        var x := KilledBy(c, w, now, gone);
        KilledIsOk(c, s, w, now, gone);
        SettledKeeps(c, s, before, w, after, x);
        SettledAccounted(c, s, before, w, after, x);
        SettledQueueKept(c, s, w, x);
        assert Leaves(c, s, Settled(c, s, w, x), w, answer, x);
        return Settled(c, s, w, x), answer, Left;
      case HasExited(code) =>
        var report, x := FinishWorker(c, s.(now := now), w, code);
        if x.None? {
          var held := if c.hasGate then s.held - 1 else s.held;
          SlotsChange(c, s, held);
          assert ItemsOf(s.active)[|before|] == w.item;
          CarryAccounted(c, s, s.(held := held));
          return s.(held := held), answer, Broken(ResultRaised(w.item, report));
        }
        ToldLater(c, s, s.(now := now), w, x.value);
        SettledKeeps(c, s, before, w, after, x.value);
        SettledAccounted(c, s, before, w, after, x.value);
        SettledQueueKept(c, s, w, x.value);
        assert Leaves(c, s, Settled(c, s, w, x.value), w, answer, x.value);
        return Settled(c, s, w, x.value), answer, Left;
    }
  }

  /** A worker that stays after a sleep has at least one round less to live. */
  lemma LifeShrinks(c: Config, w: Worker, slept: real, now: real)
    requires c.pollInterval > 0.0 && slept + c.pollInterval <= now
    ensures Life(c, w, slept) >= 1
    ensures now - w.startedAt <= c.workerTimeout ==> Life(c, w, now) + 1 <= Life(c, w, slept)
  {
    if now - w.startedAt <= c.workerTimeout {
      RoundsStep(w.startedAt + c.workerTimeout - now, w.startedAt + c.workerTimeout - slept, c.pollInterval);
    }
  }

  /** One pass over the active workers after a sleep that began at time `slept`. */
  method PollWorkers(c: Config, s: State, ghost slept: real) returns (t: State, broken: Option<Break>)
    requires ConfigOk(c)
    requires Invariant(c, s) && Accounted(c, s) && Slots(c, s, 0) && s.active != []
    requires slept + c.pollInterval <= s.now
    ensures Invariant(c, t) && Accounted(c, t) && SameQueue(s, t)
    ensures broken.None? ==> Slots(c, t, 0) && Lives(c, t.active, t.now) + |s.active| <= Lives(c, s.active, slept)
    ensures broken.Some? ==> BreakOk(c, t, broken.value) && Slots(c, t, Debt(broken.value))
  {
    hide Invariant;
    hide Accounted;
    hide Slots;
    hide BreakOk;
    hide SettlementOk;
    hide Leaves;
    t := s;
    var snapshot := s.active;
    ghost var stayed: seq<Worker> := [];
    assert snapshot[0..] == snapshot && [] + snapshot == snapshot && snapshot[..0] == [];
    for i := 0 to |snapshot|
      invariant Invariant(c, t) && Accounted(c, t) && Slots(c, t, 0) && SameQueue(s, t)
      invariant t.active == stayed + snapshot[i..]
      invariant Lives(c, stayed, t.now) + i <= Lives(c, snapshot[..i], slept)
    {
      hide Lives;
      hide Life;
      var w := snapshot[i];
      ghost var rest := snapshot[i + 1..];
      ghost var now := t.now;
      assert snapshot[i..] == [w] + rest;
      Associative(stayed, [w], rest);
      PrefixOne(snapshot, i);
      LivesOne(c, snapshot[..i], w, slept);
      var answer, end;
      t, answer, end := PollOne(c, t, w, stayed, rest);
      if end.Broken? {
        return t, Some(end.cause);
      }
      LivesMonotone(c, stayed, now, t.now);
      LifeShrinks(c, w, slept, t.now);
      if end.Stayed? {
        LivesOne(c, stayed, w, t.now);
        stayed := stayed + [w];
      }
    }
    WholePrefix(snapshot);
    assert stayed + snapshot[|snapshot|..] == stayed;
    broken := None;
  }

  /** Starts workers while the queue, the concurrency limit and the gate allow it. */
  method AdmitWorkers(c: Config, s: State) returns (t: State)
    requires ConfigOk(c)
    requires Invariant(c, s) && Accounted(c, s) && Slots(c, s, 0)
    ensures Invariant(c, t) && Accounted(c, t) && Slots(c, t, 0)
    ensures t.polls == s.polls && s.now <= t.now && Tokens(c, t) <= Tokens(c, s)
    ensures !c.hasGate ==> t.stopAdmission || t.pending == [] || |t.active| >= Limit(c)
    ensures t.active == [] && t.pending != [] && !t.stopAdmission ==> IdleWait(c, t)
    ensures |t.pending| <= |s.pending|
  {
    hide Invariant;
    hide Accounted;
    hide Tokens;
    t := s;
    while !t.stopAdmission && t.pending != [] && |t.active| < Limit(c)
      invariant Invariant(c, t) && Accounted(c, t) && Slots(c, t, 0)
      invariant t.polls == s.polls && s.now <= t.now && Tokens(c, t) <= Tokens(c, s)
      invariant |t.pending| <= |s.pending|
      decreases |t.pending|
    {
      if c.hasGate {
        var answer := c.env.gate(t.pending[0], t.now);
        if answer.GateRaised? {
          StoppedKeeps(c, t, MemoryGateError, t.waits, t.now, t.now);
          PendingScheduled(c, t);
          StoppedAccounted(c, t, MemoryGateError, t.waits, t.now, t.now, t.now);
          return StoppedState(t, MemoryGateError, t.waits, t.now, t.now);
        }
        if answer.MustWait? {
          t := HoldBack(c, t);
          return;
        }
        SlotsChange(c, t, t.held + 1);
        CarryAccounted(c, t, t.(held := t.held + 1));
        t := t.(held := t.held + 1);
      }
      t := LaunchHead(c, t);
    }
    if t.pending != [] {
      LimitPositive(c, t);
    }
  }

  lemma PendingScheduled(c: Config, s: State)
    requires Invariant(c, s) && s.pending != []
    ensures s.pending[0] in c.schedule.AllItems()
  {
    hide Invariant;
    InvariantFacts(c, s);
    HeadScheduled(c, s);
  }

  lemma LimitPositive(c: Config, s: State)
    requires Invariant(c, s) && s.pending != []
    ensures Limit(c) >= 1
  {}

  /** The queue is waiting for memory with no worker to wait for, and its deadline is still ahead. */
  ghost predicate IdleWait(c: Config, s: State) {
    && s.pending != [] && s.pending[0].id in s.waits && s.waits[s.pending[0].id].Some?
    && s.now - s.waits[s.pending[0].id].value < c.admissionTimeout
  }

  /** The gate said no: start or check the admission timer of the head. */
  method HoldBack(c: Config, s: State) returns (t: State)
    requires ConfigOk(c)
    requires Invariant(c, s) && Accounted(c, s) && Slots(c, s, 0) && s.pending != [] && !s.stopAdmission && c.hasGate
    requires c.env.gate(s.pending[0], s.now) == MustWait
    ensures Invariant(c, t) && Accounted(c, t) && Slots(c, t, 0)
    ensures t.polls == s.polls && s.now <= t.now && Tokens(c, t) <= Tokens(c, s) && t.pending == s.pending
    ensures t.active == [] && !t.stopAdmission ==> IdleWait(c, t)
  {
    hide Invariant;
    hide Accounted;
    hide Tokens;
    hide QuietSince;
    var now := Monotonic(s);
    WaitingKeeps(c, s, now);
    WaitingAccounted(c, s, now);
    t := WaitingState(s, now);
    if t.active != [] {
      return;
    }
    var id := t.pending[0].id;
    WaitFacts(c, t, id);
    if now - t.waits[id].value >= c.admissionTimeout {
      var since := t.waits[id].value;
      StoppedKeeps(c, t, MemoryAdmissionTimeout, t.waits - {id}, since, now);
      PendingScheduled(c, t);
      StoppedAccounted(c, t, MemoryAdmissionTimeout, t.waits - {id}, since, s.now, now);
      t := StoppedState(t, MemoryAdmissionTimeout, t.waits - {id}, since, now);
    }
  }

  /** Launches the head of the queue, whose slot is already reserved. */
  method LaunchHead(c: Config, s: State) returns (t: State)
    requires ConfigOk(c)
    requires Invariant(c, s) && Accounted(c, s) && Slots(c, s, -1) && s.pending != [] && !s.stopAdmission && |s.active| < Limit(c)
    ensures Invariant(c, t) && Accounted(c, t) && Slots(c, t, 0)
    ensures t.polls == s.polls && s.now <= t.now && Tokens(c, t) <= Tokens(c, s) && t.pending == s.pending[1..]
  {
    var item := s.pending[0];
    var startedAt := Monotonic(s);
    var now := Monotonic(s.(now := startedAt));
    if c.env.starts(item) {
      var raised := c.env.raises(Event(item.id, Running));
      LaunchedKeeps(c, s, startedAt, raised, now);
      LaunchedAccounted(c, s, startedAt, raised, now);
      LaunchedTokens(c, s, startedAt, raised, now);
      t := LaunchedState(c, s, startedAt, raised, now);
    } else {
      var raised := c.env.raises(Event(item.id, Failed));
      LaunchFailedKeeps(c, s, raised, now);
      LaunchFailedAccounted(c, s, raised, now);
      LaunchFailedTokens(c, s, raised, now);
      t := LaunchFailedState(c, s, raised, now);
    }
  }
}
