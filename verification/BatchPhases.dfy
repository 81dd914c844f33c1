/** The two phases of `run_batch`: the parallel items, then the serial segments one by one. */
module BatchPhases {
  import opened Outcomes
  import opened BatchTypes
  import opened RunHistory
  import opened SchedulerClock
  import opened RunState
  import opened RunSteps
  import opened RunCauses
  import opened BatchWorkers
  import opened SerialSteps

  // ---------------------------------------------------------------------------------------------
  // The parallel phase.

  lemma Slept(c: Config, s: State, t: State)
    requires Invariant(c, s) && s.now <= t.now && t == s.(now := t.now, polls := t.polls)
    ensures Invariant(c, t)
    ensures Slots(c, s, 0) ==> Slots(c, t, 0)
    ensures Tokens(c, t) <= Tokens(c, s)
  {
    Later(c, s, t.now);
    LaterTokens(c, s, t.now);
    PollsChange(c, s.(now := t.now), t.polls);
    PollsTokens(c, s.(now := t.now), t.polls);
    hide Invariant;
    hide Tokens;
    assert t == s.(now := t.now).(polls := t.polls);
  }

  /** The poll counter is not part of the invariant. */
  lemma PollsChange(c: Config, s: State, polls: nat)
    requires Invariant(c, s)
    ensures Invariant(c, s.(polls := polls))
  {
    var t := s.(polls := polls);
    assert Booked(t) && Unstarted(c, t) && Counted(c, t) && Totalled(c, t) && Timed(c, t);
    hide Booked;
    hide Unstarted;
    hide Counted;
    hide Totalled;
    hide Timed;
    assert Logged(c, t);
    hide Logged;
    assert Queued(c, t) && Staged(c, t);
    hide Queued;
    hide Staged;
    FlagsCarryOver(c, s, t);
    hide Flagged;
  }

  lemma PollsTokens(c: Config, s: State, polls: nat)
    requires ConfigOk(c)
    ensures Tokens(c, s.(polls := polls)) == Tokens(c, s)
  {}

  /** A sleep with nothing to wait for but memory uses up one round of the admission timer. */
  lemma IdleSleep(c: Config, s: State, t: State)
    requires ConfigOk(c) && Budgeted(c, s) && IdleWait(c, s) && s.active == [] && !s.stopAdmission
    requires t == s.(now := t.now, polls := s.polls + 1) && t.now >= s.now + c.pollInterval
    ensures Budgeted(c, t)
  {
    var deadline := s.waits[s.pending[0].id].value + c.admissionTimeout;
    RoundsStep(deadline - t.now, deadline - s.now, c.pollInterval);
  }

  /** The queue's share of the budget does not grow while workers are active. */
  lemma QueueKept(c: Config, s: State, t: State)
    requires ConfigOk(c) && Timed(c, s) && s.active != [] && t.pending == s.pending && t.waits == s.waits
    requires s.stopAdmission ==> t.stopAdmission
    ensures QueueTokens(c, t) <= QueueTokens(c, s)
  {}

  lemma BusyBudget(c: Config, s: State, slept: State, t: State)
    requires Invariant(c, s) && Budgeted(c, s) && s.active != []
    requires slept == s.(now := slept.now, polls := s.polls + 1) && SameQueue(slept, t)
    requires Lives(c, t.active, t.now) + |s.active| <= Lives(c, s.active, s.now)
    ensures Budgeted(c, t)
  {
    QueueKept(c, s, t);
  }

  lemma {:induction false} LivesPositive(c: Config, workers: seq<Worker>, now: real)
    requires c.pollInterval > 0.0
    ensures Lives(c, workers, now) >= |workers|
  {
    if workers != [] {
      LivesPositive(c, workers[..|workers| - 1], now);
    }
  }

  /** The budget covers the sleep that begins now. */
  lemma SleepFits(c: Config, s: State)
    requires ConfigOk(c) && Budgeted(c, s) && (s.active != [] || (IdleWait(c, s) && !s.stopAdmission))
    ensures s.polls + 1 <= ParallelBound(c)
  {
    LivesPositive(c, s.active, s.now);
  }

  method ParallelPhase(c: Config, s: State) returns (t: State, broken: Option<Break>)
    requires ConfigOk(c) && Invariant(c, s) && Accounted(c, s) && Slots(c, s, 0) && Budgeted(c, s)
    ensures Invariant(c, t) && Accounted(c, t)
    ensures t.polls <= ParallelBound(c)
    ensures broken.None? ==> Slots(c, t, 0) && t.active == [] && (t.pending == [] || t.stopAdmission)
    ensures broken.Some? ==> BreakOk(c, t, broken.value) && Slots(c, t, Debt(broken.value))
  {
    hide Invariant;
    hide Accounted;
    hide Slots;
    hide BreakOk;
    t := s;
    while t.pending != [] || t.active != []
      invariant Invariant(c, t) && Accounted(c, t) && Slots(c, t, 0) && Budgeted(c, t)
      decreases ParallelBound(c) - t.polls
    {
      t := AdmitWorkers(c, t);
      ghost var before := t;
      var interrupted;
      if t.active == [] {
        if t.stopAdmission || t.pending == [] {
          break;
        }
        SleepFits(c, t);
        t, interrupted := Sleep(c, t);
        Slept(c, before, t);
        CarryAccounted(c, before, t);
        IdleSleep(c, before, t);
        if interrupted {
          return t, Interrupt(c, t);
        }
      } else {
        SleepFits(c, t);
        t, interrupted := Sleep(c, t);
        Slept(c, before, t);
        CarryAccounted(c, before, t);
        if interrupted {
          return t, Interrupt(c, t);
        }
        ghost var slept := t;
        t, broken := PollWorkers(c, t, before.now);
        if broken.Some? {
          return;
        }
        BusyBudget(c, before, slept, t);
      }
    }
    broken := None;
  }

  function Interrupt(c: Config, s: State): (b: Option<Break>)
    requires c.env.interrupts(s.now)
    ensures b.Some? && Debt(b.value) == 0 && BreakOk(c, s, b.value)
  {
    Some(Interruption)
  }

  lemma SleepDisturbs(c: Config, s: State)
    requires c.env.interrupts(s.now)
    ensures BreakOk(c, s, Interruption) && Debt(Interruption) == 0
  {}

  // ---------------------------------------------------------------------------------------------
  // The serial phase.

  datatype Admission = SlotReserved | Refused(reason: FailureReason, since: real) | AdmissionInterrupted

  function SegmentRounds(c: Config): nat
    requires c.pollInterval > 0.0
  {
    Rounds(c.admissionTimeout, c.pollInterval)
  }

  /** The gate failed, or it has made the segment wait for as long as it may. */
  ghost predicate RefusedRightly(c: Config, item: WorkItem, from: real, now: real, reason: FailureReason, since: real) {
    && c.hasGate && from <= since <= now
    && (exists asked :: GateSaid(c, Refusal(item, reason, since, now), asked))
    && (reason == MemoryGateError || (reason == MemoryAdmissionTimeout && now - since >= c.admissionTimeout))
  }

  method AdmitSegment(c: Config, s: State, item: WorkItem) returns (t: State, admission: Admission)
    requires c.pollInterval > 0.0
    ensures t == s.(now := t.now, polls := t.polls, held := t.held) && s.now <= t.now
    ensures t.polls <= s.polls + SegmentRounds(c)
    ensures t.held == s.held + if c.hasGate && admission.SlotReserved? then 1 else 0
    ensures !c.hasGate ==> admission.SlotReserved?
    ensures admission.Refused? ==> RefusedRightly(c, item, s.now, t.now, admission.reason, admission.since)
    ensures admission.AdmissionInterrupted? ==> c.env.interrupts(t.now)
  {
    t := s;
    if !c.hasGate {
      return t, SlotReserved;
    }
    var admittedAt := Monotonic(t);
    t := t.(now := admittedAt);
    while true
      invariant t == s.(now := t.now, polls := t.polls) && s.now <= admittedAt <= t.now
      invariant t.polls + Rounds(admittedAt + c.admissionTimeout - t.now, c.pollInterval) <= s.polls + SegmentRounds(c)
      decreases s.polls + SegmentRounds(c) - t.polls
    {
      var answer := c.env.gate(item, t.now);
      match answer {
        case Admitted => return t.(held := t.held + 1), SlotReserved;
        case GateRaised =>
          assert GateSaid(c, Refusal(item, MemoryGateError, admittedAt, t.now), t.now);
          return t, Refused(MemoryGateError, admittedAt);
        case MustWait =>
          var now := Monotonic(t);
          if now - admittedAt >= c.admissionTimeout {
            assert GateSaid(c, Refusal(item, MemoryAdmissionTimeout, admittedAt, now), t.now);
            return t.(now := now), Refused(MemoryAdmissionTimeout, admittedAt);
          }
          ghost var deadline := admittedAt + c.admissionTimeout;
          RoundsMonotone(deadline - now, deadline - t.now, c.pollInterval);
          var interrupted;
          t, interrupted := Sleep(c, t.(now := now));
          RoundsStep(deadline - t.now, deadline - now, c.pollInterval);
          if interrupted {
            return t, AdmissionInterrupted;
          }
      }
    }
  }

  datatype SegmentEnd = Succeeded | Stopped(launchFailed: bool) | SegmentBroken(cause: Break)

  /** What the cancellation sweep needs: the tracked workers have no terminal event yet. */
  ghost predicate Sweepable(c: Config, s: State) {
    && ConfigOk(c) && Booked(s) && Logged(c, s) && Totalled(c, s)
    && (forall k :: 0 <= k < |s.active| ==> s.active[k].item.id !in s.terminal)
    && (forall k, l :: 0 <= k < l < |s.active| ==> s.active[k].item.id != s.active[l].item.id)
  }

  lemma ReadyTick(c: Config, s: State, t: State, k: nat)
    requires SerialReady(c, s, k) && t == s.(now := t.now, polls := t.polls, held := t.held, refusal := t.refusal)
    ensures SerialReady(c, t, k) && Sweepable(c, t)
  {}

  lemma SweepRunning(c: Config, s: State, k: nat, w: Worker, held: int)
    requires SerialRunning(c, s, k, w)
    ensures Sweepable(c, s.(held := held))
  {}

  lemma SweepParallel(c: Config, s: State)
    requires Invariant(c, s)
    ensures Sweepable(c, s)
  {
    var items := c.schedule.parallelItems;
    forall k | 0 <= k < |s.active| ensures exists i :: 0 <= i < Launches(c, s) && items[i] == s.active[k].item {
      assert s.active[k].item in items[..Launches(c, s)];
    }
    forall k | 0 <= k < |s.active| ensures s.active[k].item.id !in s.terminal {
      var i :| 0 <= i < Launches(c, s) && items[i] == s.active[k].item;
      assert ItemsOf(s.active)[k] in ItemsOf(s.active);
    }
  }

  /** A break leaves a state to sweep, with the stated number of slots released too early. */
  ghost predicate BrokenOff(c: Config, s: State, cause: Break) {
    Sweepable(c, s) && BreakOk(c, s, cause) && Slots(c, s, Debt(cause))
  }

  method RunSegment(c: Config, s: State, k: nat) returns (t: State, end: SegmentEnd)
    requires ConfigOk(c) && SerialReady(c, s, k) && Recounted(c, s) && Slots(c, s, 0) && k < |c.schedule.serialItems|
    ensures t.polls <= s.polls + SegmentRounds(c) && Recounted(c, t)
    ensures end.Succeeded? ==> SerialReady(c, t, k + 1) && Slots(c, t, 0)
    ensures end.Stopped? ==> SerialStopped(c, t, k, end.launchFailed) && Slots(c, t, 0)
    ensures end.SegmentBroken? ==> BrokenOff(c, t, end.cause)
  {
    hide SerialReady;
    hide SerialStopped;
    hide Sweepable;
    hide Recounted;
    hide RefusedRightly;
    hide SegmentFailed;
    hide SegmentLaunched;
    var admission;
    var item := c.schedule.serialItems[k];
    t, admission := AdmitSegment(c, s, item);
    ReadyTick(c, s, t, k);
    CarryRecounted(c, s, t);
    if admission.AdmissionInterrupted? {
      SleepDisturbs(c, t);
      return t, SegmentBroken(Interruption);
    }
    var now := Monotonic(t);
    if admission.Refused? {
      var raised := c.env.raises(Event(item.id, Failed));
      SegmentRefused(c, s, t, k, admission.reason, admission.since, raised, now);
      t := RefusedFirst(c, t, k, admission.reason, admission.since, now);
      return SegmentFailed(c, t, k, admission.reason, false, raised, now), Stopped(false);
    }
    if !c.env.starts(item) {
      var raised := c.env.raises(Event(item.id, Failed));
      SegmentFailedOk(c, t, k, WorkerLaunchFailed, true, raised, now);
      SegmentUnlaunchedRecounted(c, t, k, raised, now);
      SamePolls(c, t, k, raised, now);
      return SegmentFailed(c, t, k, WorkerLaunchFailed, true, raised, now), Stopped(true);
    }
    var raised := c.env.raises(Event(item.id, Running));
    SegmentLaunchedOk(c, t, k, now, raised, now);
    SegmentLaunchedRecounted(c, t, k, now, raised, now);
    SamePolls(c, t, k, raised, now);
    t := SegmentLaunched(c, t, k, now, raised, now);
    t, end := AwaitSegment(c, t, k, Worker(c.schedule.serialItems[k], now));
  }

  lemma SegmentRefused(c: Config, s: State, t: State, k: nat, reason: FailureReason, since: real, raised: bool, now: real)
    requires Recounted(c, s) && Recounted(c, t) && SerialReady(c, t, k) && k < |c.schedule.serialItems|
    requires t == s.(now := t.now, polls := t.polls, held := t.held) && t.now <= now
    requires RefusedRightly(c, c.schedule.serialItems[k], s.now, t.now, reason, since)
    requires raised == c.env.raises(Event(c.schedule.serialItems[k].id, Failed))
    ensures var u := SegmentFailed(c, RefusedFirst(c, t, k, reason, since, now), k, reason, false, raised, now);
            && SerialStopped(c, u, k, false) && Recounted(c, u) && u.polls == t.polls
            && (Slots(c, t, 0) ==> Slots(c, u, 0))
  {
    hide SerialReady;
    hide SerialStopped;
    TimesUntil(c, s);
    hide Recounted;
    var asked :| GateSaid(c, Refusal(c.schedule.serialItems[k], reason, since, t.now), asked);
    SegmentRefusedRecounted(c, t, k, reason, since, asked, raised, now);
    ReadyTick(c, t, RefusedFirst(c, t, k, reason, since, now), k);
    SegmentFailedOk(c, RefusedFirst(c, t, k, reason, since, now), k, reason, false, raised, now);
  }

  lemma SamePolls(c: Config, s: State, k: nat, raised: bool, now: real)
    requires k < |c.schedule.serialItems|
    ensures SegmentLaunched(c, s, k, now, raised, now).polls == s.polls
    ensures SegmentFailed(c, s, k, WorkerLaunchFailed, true, raised, now).polls == s.polls
  {}

  lemma TimesUntil(c: Config, s: State)
    requires Recounted(c, s)
    ensures forall i :: 0 <= i < |s.times| ==> s.times[i] <= s.now
  {}

  datatype WaitEnd = Ended(settlement: Settlement) | WaitBroken(cause: Break)

  /** The report is what the wait showed; a kill answers a wait that failed. */
  predicate Waited(answer: WaitAnswer, report: Report) {
    match answer
    case WaitExited(code) => report.Exited? && report.exitCode == code
    case WaitFailed => report.Killed?
    case Interrupted => false
  }

  /** Waits for the only worker; on a break, `held` is the new number of slots. */
  method WaitForWorker(c: Config, s: State, w: Worker) returns (answer: WaitAnswer, held: int, end: WaitEnd)
    requires s.active == [w] && Slots(c, s, 0) && w.item.phase == Serial
    ensures end.Ended? ==> SettlementOk(c, w, end.settlement) && Told(c, s, w, end.settlement) && held == s.held
    ensures end.Ended? ==> Waited(answer, end.settlement.report)
    ensures end.WaitBroken? && end.cause.ResultRaised? ==> Waited(answer, end.cause.report)
    ensures answer.WaitExited? ==> end.Ended? || end.cause.ResultRaised?
    ensures answer.Interrupted? ==> end == WaitBroken(Interruption) && held == s.held
    ensures end.WaitBroken? ==> BreakOk(c, s, end.cause) && Slots(c, s.(held := held), Debt(end.cause))
  {
    hide SettlementOk;
    hide TypeErrorOn;
    OnlyActive(s, w);
    hide ItemsOf;
    held := s.held;
    answer := c.env.wait(w.item);
    match answer {
      case Interrupted => end := WaitBroken(Interruption);
      case WaitFailed =>
        var termination := TerminateWorker(c, w.item, Overdue);
        if termination.Abandoned? {
          return answer, held, WaitBroken(Interruption);
        }
        var now := Monotonic(s);
        KilledIsOk(c, s, w, s.now, now);
        end := Ended(KilledBy(c, w, s.now, now));
      case WaitExited(code) =>
        var report, x := FinishWorker(c, s, w, code);
        if x.None? {
          return answer, if c.hasGate then s.held - 1 else s.held, WaitBroken(ResultRaised(w.item, report));
        }
        end := Ended(x.value);
    }
  }

  /** Waits for the worker of segment `k`. */
  method AwaitSegment(c: Config, s: State, k: nat, w: Worker) returns (t: State, end: SegmentEnd)
    requires ConfigOk(c) && SerialRunning(c, s, k, w) && Recounted(c, s) && Slots(c, s, 0) && k < |c.schedule.serialItems|
    ensures t.polls == s.polls && Recounted(c, t)
    ensures end.Succeeded? ==> SerialReady(c, t, k + 1) && Slots(c, t, 0)
    ensures end.Stopped? ==> SerialStopped(c, t, k, false) && Slots(c, t, 0) && !end.launchFailed
    ensures end.SegmentBroken? ==> BrokenOff(c, t, end.cause)
  {
    assert s.active == [w];
    SegmentId(c, k);
    hide SerialRunning;
    hide SerialReady;
    hide SerialStopped;
    hide Sweepable;
    hide SettlementOk;
    hide TypeErrorOn;
    hide Recounted;
    hide Told;
    var _, held, wait := WaitForWorker(c, s, w);
    if wait.WaitBroken? {
      SweepRunning(c, s, k, w, held);
      CarryRecounted(c, s, s.(held := held));
      t, end := s.(held := held), SegmentBroken(wait.cause);
      return;
    }
    var x := wait.settlement;
    SettledTerminal(c, s, k, w, x);
    SegmentSettledRecounted(c, s, k, w, x);
    t := SegmentSettled(c, s, k, w, x);
    if x.ending == Success {
      SegmentSucceeded(c, s, k, w, x);
      end := Succeeded;
    } else {
      SegmentUnsuccessful(c, s, k, w, x);
      end := Stopped(false);
    }
  }

  datatype SerialEnd = AllSegments | StoppedAt(k: nat, launchFailed: bool) | SerialBroken(cause: Break)

  method SerialPhase(c: Config, s: State) returns (t: State, end: SerialEnd)
    requires ConfigOk(c) && SerialReady(c, s, 0) && Recounted(c, s) && Slots(c, s, 0)
    ensures Recounted(c, t) && t.polls <= s.polls + Times(|c.schedule.serialItems|, SegmentRounds(c))
    ensures end.AllSegments? ==> SerialReady(c, t, |c.schedule.serialItems|) && Slots(c, t, 0)
    ensures end.StoppedAt? ==> SerialStopped(c, t, end.k, end.launchFailed) && Slots(c, t, 0)
    ensures end.SerialBroken? ==> BrokenOff(c, t, end.cause)
  {
    hide SerialReady;
    hide SerialStopped;
    hide BrokenOff;
    hide Slots;
    hide Recounted;
    t := s;
    for k := 0 to |c.schedule.serialItems|
      invariant SerialReady(c, t, k) && Recounted(c, t) && Slots(c, t, 0)
      invariant t.polls <= s.polls + Times(k, SegmentRounds(c))
    {
      var segment;
      t, segment := RunSegment(c, t, k);
      TimesMonotone(k + 1, |c.schedule.serialItems|, SegmentRounds(c));
      match segment {
        case Succeeded =>
        case Stopped(launchFailed) => return t, StoppedAt(k, launchFailed);
        case SegmentBroken(cause) => return t, SerialBroken(cause);
      }
    }
    end := AllSegments;
  }

  lemma {:induction false} TimesMonotone(m: nat, n: nat, x: nat)
    requires m <= n
    ensures Times(m, x) <= Times(n, x)
  {
    if m < n {
      TimesMonotone(m, n - 1, x);
    }
  }
}
