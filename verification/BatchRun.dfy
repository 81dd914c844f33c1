/** The phases of `run_batch` put together, cancellation included, and what every run guarantees. */
module BatchRun {
  import opened Outcomes
  import opened BatchTypes
  import opened Sequences
  import opened RunHistory
  import opened SchedulerClock
  import opened RunState
  import opened RunCauses
  import opened BatchWorkers
  import opened SerialSteps
  import opened BatchPhases
  import opened BenignRuns

  // ---------------------------------------------------------------------------------------------
  // Cancellation.

  /** One terminal event for an item. */
  function Notified(s: State, item: WorkItem, kind: EventKind, raised: bool): State {
    s.(events := s.events + [Event(item.id, kind)], terminal := s.terminal + {item.id},
       diagnosticFailures := s.diagnosticFailures + (if raised then 1 else 0), raises := s.raises + [raised])
  }

  lemma NotifiedBooked(s: State, item: WorkItem, kind: EventKind, raised: bool)
    requires Booked(s) && item.id !in s.terminal && kind != Running
    ensures Booked(Notified(s, item, kind, raised))
  {
    EventBooked(s, Event(item.id, kind), Notified(s, item, kind, raised));
  }

  /** Only events, which have been added to, and slots differ. */
  ghost predicate SameButEvents(s: State, t: State) {
    && t == s.(events := t.events, terminal := t.terminal, diagnosticFailures := t.diagnosticFailures, raises := t.raises,
               held := t.held)
    && s.events <= t.events
  }

  function ConfirmedIn(ends: seq<Termination>): nat {
    if ends == [] then 0 else ConfirmedIn(ends[..|ends| - 1]) + if ends[|ends| - 1].Confirmed? then 1 else 0
  }

  lemma ConfirmedOne(ends: seq<Termination>, end: Termination)
    ensures ConfirmedIn(ends + [end]) == ConfirmedIn(ends) + if end.Confirmed? then 1 else 0
  {
    assert (ends + [end])[..|ends|] == ends;
  }

  lemma {:induction false} AllConfirmed(ends: seq<Termination>)
    ensures ConfirmedIn(ends) <= |ends|
    ensures ConfirmedIn(ends) == |ends| <==> forall i :: 0 <= i < |ends| ==> ends[i].Confirmed?
  {
    if ends != [] {
      AllConfirmed(ends[..|ends| - 1]);
      assert forall i :: 0 <= i < |ends| - 1 ==> ends[..|ends| - 1][i] == ends[i];
    }
  }

  /** The teardown of the last worker was itself interrupted. */
  predicate CutShort(ends: seq<Termination>) {
    ends != [] && ends[|ends| - 1].Abandoned?
  }

  /** The slot of one worker was released before and every exit is confirmed: the last release finds no slot and raises. */
  ghost predicate NoSlotLeft(c: Config, s: State, cause: Break, ends: seq<Termination>) {
    c.hasGate && cause.ResultRaised? && s.uncleaned == [] && forall i :: 0 <= i < |ends| ==> ends[i].Confirmed?
  }

  /** How many workers were torn down and notified. */
  function Handled(ends: seq<Termination>, complete: bool): int {
    if complete then |ends| else |ends| - 1
  }

  /** `ends` says how the teardown of the active workers went, one by one, and `complete` whether it reached the end. */
  ghost predicate TornDown(c: Config, s: State, cause: Break, ends: seq<Termination>, complete: bool) {
    && |ends| <= |s.active| && (complete || ends != [])
    && (!CutShort(ends) ==> |ends| == |s.active|)
    && (forall i :: 0 <= i < |ends| - 1 ==> !ends[i].Abandoned?)
    && (complete <==> !CutShort(ends) && !NoSlotLeft(c, s, cause, ends))
    && (forall i :: 0 <= i < |ends| ==> ends[i] == c.env.KillEnd(s.active[i].item, Cancelling))
  }

  /** Only confirmed exits release a slot. */
  ghost predicate SlotsReleased(c: Config, s: State, cause: Break, ends: seq<Termination>, complete: bool, held: int)
    requires complete || ends != []
  {
    c.hasGate ==> held == |s.active| + |s.uncleaned| - Debt(cause) - ConfirmedIn(ends[..Handled(ends, complete)])
  }

  function TeardownEvent(w: Worker, end: Termination): Event {
    Event(w.item.id, if end.Confirmed? then Cancelled else Failed)
  }

  ghost predicate WorkersNotified(workers: seq<Worker>, ends: seq<Termination>, n: int, events: seq<Event>)
    requires n <= |ends| <= |workers|
  {
    forall i :: 0 <= i < n ==> TeardownEvent(workers[i], ends[i]) in events
  }

  /** With `n` exits confirmed among the first `i` torn down, a slot is missing only for the last worker. */
  lemma SlotMissing(c: Config, s: State, cause: Break, ends: seq<Termination>, end: Termination)
    requires BreakOk(c, s, cause) && |ends| < |s.active| && end.Confirmed?
    requires forall i :: 0 <= i < |ends| ==> !ends[i].Abandoned?
    ensures |s.active| + |s.uncleaned| - Debt(cause) - ConfirmedIn(ends) < 1
       <==> |ends| + 1 == |s.active| && cause.ResultRaised? && s.uncleaned == []
            && forall i :: 0 <= i < |ends + [end]| ==> (ends + [end])[i].Confirmed?
  {
    AllConfirmed(ends);
    if forall i :: 0 <= i < |ends + [end]| ==> (ends + [end])[i].Confirmed? {
      forall i | 0 <= i < |ends|
        ensures ends[i].Confirmed?
      {
        assert (ends + [end])[i] == ends[i];
      }
    }
  }

  /** In the middle of the teardown: the workers that `ends` covers are torn down and notified, the others are untouched. */
  ghost predicate Tearing(c: Config, s: State, cause: Break, t: State, ends: seq<Termination>) {
    && Booked(t) && SameButEvents(s, t) && |ends| <= |s.active|
    && (forall k :: |ends| <= k < |s.active| ==> s.active[k].item.id !in t.terminal)
    && (forall k :: 0 <= k < |ends| ==> !ends[k].Abandoned? && ends[k] == c.env.KillEnd(s.active[k].item, Cancelling))
    && (c.hasGate ==> t.held == |s.active| + |s.uncleaned| - Debt(cause) - ConfirmedIn(ends))
    && (|ends| == |s.active| ==> !NoSlotLeft(c, s, cause, ends))
    && WorkersNotified(s.active, ends, |ends|, t.events)
  }

  lemma TearingStarts(c: Config, s: State, cause: Break)
    requires BrokenOff(c, s, cause)
    ensures Tearing(c, s, cause, s, [])
  {}

  /** The three ways in which `TornDown` can come out. */
  ghost predicate TeardownEnds(c: Config, s: State, cause: Break, t: State, ends: seq<Termination>, complete: bool) {
    && Booked(t) && SameButEvents(s, t)
    && TornDown(c, s, cause, ends, complete)
    && SlotsReleased(c, s, cause, ends, complete, t.held)
    && WorkersNotified(s.active, ends, Handled(ends, complete), t.events)
  }

  lemma TearingCut(c: Config, s: State, cause: Break, t: State, ends: seq<Termination>, end: Termination)
    requires Tearing(c, s, cause, t, ends) && |ends| < |s.active| && end.Abandoned?
    requires end == c.env.KillEnd(s.active[|ends|].item, Cancelling)
    ensures TeardownEnds(c, s, cause, t, ends + [end], false)
  {
    hide Booked;
    assert (ends + [end])[..|ends|] == ends && (ends + [end])[|ends|] == end;
  }

  lemma TearingStuck(c: Config, s: State, cause: Break, t: State, ends: seq<Termination>, end: Termination)
    requires Tearing(c, s, cause, t, ends) && |ends| < |s.active| && end.Confirmed? && BreakOk(c, s, cause)
    requires c.hasGate && t.held < 1
    requires end == c.env.KillEnd(s.active[|ends|].item, Cancelling)
    ensures TeardownEnds(c, s, cause, t, ends + [end], false)
  {
    hide Booked;
    hide BreakOk;
    SlotMissing(c, s, cause, ends, end);
    assert (ends + [end])[..|ends|] == ends;
  }

  lemma NextNotified(workers: seq<Worker>, ends: seq<Termination>, end: Termination, events: seq<Event>)
    requires |ends| < |workers| && WorkersNotified(workers, ends, |ends|, events)
    ensures WorkersNotified(workers, ends + [end], |ends| + 1, events + [TeardownEvent(workers[|ends|], end)])
  {
    hide TeardownEvent;
    var longer := events + [TeardownEvent(workers[|ends|], end)];
    forall k | 0 <= k < |ends| + 1
      ensures TeardownEvent(workers[k], (ends + [end])[k]) in longer
    {
      if k < |ends| {
        assert TeardownEvent(workers[k], ends[k]) in events;
      }
    }
  }

  lemma NextSlots(c: Config, s: State, cause: Break, ends: seq<Termination>, end: Termination, held: int)
    requires BreakOk(c, s, cause) && |ends| < |s.active| && !end.Abandoned?
    requires forall i :: 0 <= i < |ends| ==> !ends[i].Abandoned?
    requires c.hasGate ==> held == |s.active| + |s.uncleaned| - Debt(cause) - ConfirmedIn(ends)
    requires c.hasGate && end.Confirmed? ==> held >= 1
    ensures c.hasGate ==>
              held - (if end.Confirmed? then 1 else 0) == |s.active| + |s.uncleaned| - Debt(cause) - ConfirmedIn(ends + [end])
    ensures |ends + [end]| == |s.active| ==> !NoSlotLeft(c, s, cause, ends + [end])
  {
    ConfirmedOne(ends, end);
    if end.Confirmed? {
      SlotMissing(c, s, cause, ends, end);
    } else {
      assert (ends + [end])[|ends|] == end;
    }
  }

  lemma TornBooked(c: Config, t: State, w: Worker, end: Termination, raised: bool)
    requires Booked(t) && w.item.id !in t.terminal
    ensures Booked(TornWorker(c, t, w, end, raised))
  {
    NotifiedBooked(t, w.item, TeardownEvent(w, end).kind, raised);
  }

  lemma TearingNext(c: Config, s: State, cause: Break, t: State, ends: seq<Termination>, end: Termination, raised: bool)
    requires Tearing(c, s, cause, t, ends) && |ends| < |s.active| && !end.Abandoned? && BreakOk(c, s, cause)
    requires Sweepable(c, s)
    requires c.hasGate && end.Confirmed? ==> t.held >= 1
    requires end == c.env.KillEnd(s.active[|ends|].item, Cancelling)
    ensures Tearing(c, s, cause, TornWorker(c, t, s.active[|ends|], end, raised), ends + [end])
  {
    hide BreakOk;
    hide Logged;
    hide Totalled;
    hide ConfigOk;
    hide Booked;
    hide ConfirmedIn;
    hide NoSlotLeft;
    hide WorkersNotified;
    hide Debt;
    TornBooked(c, t, s.active[|ends|], end, raised);
    NextSlots(c, s, cause, ends, end, t.held);
    NextNotified(s.active, ends, end, t.events);
  }

  lemma TearingDone(c: Config, s: State, cause: Break, t: State, ends: seq<Termination>)
    requires Tearing(c, s, cause, t, ends) && |ends| == |s.active|
    ensures TeardownEnds(c, s, cause, t, ends, true)
  {
    hide Booked;
    assert ends[..|ends|] == ends;
  }

  /** One worker torn down: a confirmed exit releases its slot. */
  function TornWorker(c: Config, t: State, w: Worker, end: Termination, raised: bool): State {
    Notified(t.(held := if end.Confirmed? && c.hasGate then t.held - 1 else t.held), w.item,
      TeardownEvent(w, end).kind, raised)
  }

  lemma NotifiedCounted(c: Config, s: State, item: WorkItem, kind: EventKind, raised: bool)
    requires CallbacksCounted(c, s) && raised == c.env.raises(Event(item.id, kind))
    ensures CallbacksCounted(c, Notified(s, item, kind, raised))
  {
    OneMoreCallback(s.raises, raised);
  }

  lemma TornCounted(c: Config, t: State, w: Worker, end: Termination, raised: bool)
    requires raised == c.env.raises(TeardownEvent(w, end))
    ensures CallbacksCounted(c, t) ==> CallbacksCounted(c, TornWorker(c, t, w, end, raised))
  {
    OneMoreCallback(t.raises, raised);
  }

  /** Tears down the active workers, in order. */
  method Teardown(c: Config, s: State, cause: Break) returns (t: State, ends: seq<Termination>, complete: bool)
    requires BrokenOff(c, s, cause)
    ensures TeardownEnds(c, s, cause, t, ends, complete)
    ensures CallbacksCounted(c, s) ==> CallbacksCounted(c, t)
  {
    hide Tearing;
    hide CallbacksCounted;
    hide TeardownEnds;
    hide BreakOk;
    hide Slots;
    hide Sweepable;
    TearingStarts(c, s, cause);
    t, ends := s, [];
    for i := 0 to |s.active|
      invariant |ends| == i && Tearing(c, s, cause, t, ends)
      invariant CallbacksCounted(c, s) ==> CallbacksCounted(c, t)
    {
      var end := TerminateWorker(c, s.active[i].item, Cancelling);
      if end.Abandoned? {
        TearingCut(c, s, cause, t, ends, end);
        return t, ends + [end], false;
      }
      if end.Confirmed? && c.hasGate && t.held < 1 {
        TearingStuck(c, s, cause, t, ends, end);
        return t, ends + [end], false;
      }
      var raised := c.env.raises(TeardownEvent(s.active[i], end));
      TearingNext(c, s, cause, t, ends, end, raised);
      TornCounted(c, t, s.active[i], end, raised);
      t := TornWorker(c, t, s.active[i], end, raised);
      ends := ends + [end];
    }
    TearingDone(c, s, cause, t, ends);
    complete := true;
  }

  ghost predicate AllNotified(items: seq<WorkItem>, s: State) {
    forall i :: 0 <= i < |items| ==> items[i].id in s.terminal
  }

  /** All events behind the first ones say that an item was not executed. */
  ghost predicate RestNotExecuted(first: seq<Event>, events: seq<Event>) {
    first <= events && forall k :: |first| <= k < |events| ==> events[k].kind == EventKind.NotExecuted
  }

  /** The items without a terminal event get one. */
  method NotifyRest(c: Config, s: State) returns (t: State)
    requires Booked(s)
    ensures Booked(t) && SameButEvents(s, t) && t.held == s.held && RestNotExecuted(s.events, t.events)
    ensures AllNotified(c.schedule.AllItems(), t)
    ensures CallbacksCounted(c, s) ==> CallbacksCounted(c, t)
  {
    hide CallbacksCounted;
    hide Booked;
    t := s;
    var items := c.schedule.AllItems();
    for i := 0 to |items|
      invariant Booked(t) && SameButEvents(s, t) && t.held == s.held && RestNotExecuted(s.events, t.events)
      invariant AllNotified(items[..i], t)
      invariant CallbacksCounted(c, s) ==> CallbacksCounted(c, t)
    {
      PrefixOne(items, i);
      if items[i].id !in t.terminal {
        var raised := c.env.raises(Event(items[i].id, EventKind.NotExecuted));
        NotifiedBooked(t, items[i], EventKind.NotExecuted, raised);
        if CallbacksCounted(c, t) {
          NotifiedCounted(c, t, items[i], EventKind.NotExecuted, raised);
        }
        t := Notified(t, items[i], EventKind.NotExecuted, raised);
      }
    }
    WholePrefix(items);
  }

  /** Every item of the schedule has exactly one terminal event. */
  ghost predicate OneTerminalEach(c: Config, s: State) {
    forall i :: 0 <= i < |c.schedule.AllItems()| ==> TerminalCount(s.events, c.schedule.AllItems()[i].id) == 1
  }

  // ---------------------------------------------------------------------------------------------
  // The whole run.

  datatype Outcome = Outcome(succeeded: bool, failureReason: Option<FailureReason>, successful: nat, failed: nat,
                             skipped: nat, aborted: seq<NodeKey>)

  /** How far the run came. */
  datatype Stage = Completed | StoppedInParallel | StoppedInSerial(k: nat, launchFailed: bool)

  ghost predicate AtStage(c: Config, s: State, stage: Stage) {
    match stage
    case Completed => SerialReady(c, s, |c.schedule.serialItems|)
    case StoppedInParallel => ParallelStopped(c, s)
    case StoppedInSerial(k, launchFailed) => SerialStopped(c, s, k, launchFailed)
  }

  ghost predicate ParallelStopped(c: Config, s: State) {
    && s.aborted == Flat(s.pending) + Flat(c.schedule.serialItems)
    && Invariant(c, s.(aborted := [])) && s.active == [] && s.parallelFailed
  }

  /** Nodes of segments that neither ran nor were listed as aborted. */
  ghost function Shortfall(c: Config, stage: Stage): nat
    requires stage.StoppedInSerial? ==> stage.k < |c.schedule.serialItems|
  {
    if stage.StoppedInSerial? && stage.launchFailed then Nodes(c.schedule.serialItems[stage.k + 1..]) else 0
  }

  lemma SerialStageCounts(c: Config, s: State, k: nat, launchFailed: bool)
    requires SerialStopped(c, s, k, launchFailed)
    ensures s.successful + s.failed + |s.aborted| + s.skipped + Shortfall(c, StoppedInSerial(k, launchFailed))
         == Nodes(c.schedule.parallelItems) + Nodes(c.schedule.serialItems)
  {
    var items := c.schedule.serialItems;
    assert items == items[..k + 1] + items[k + 1..];
    NodesConcat(items[..k + 1], items[k + 1..]);
    NodesFlat(items[k + 1..]);
  }

  lemma ParallelStageCounts(c: Config, s: State)
    requires ParallelStopped(c, s)
    ensures s.successful + s.failed + |s.aborted| + s.skipped == Nodes(c.schedule.parallelItems) + Nodes(c.schedule.serialItems)
  {
    NodesFlat(s.pending);
    NodesFlat(c.schedule.serialItems);
    assert Counted(c, s.(aborted := []));
    assert ItemsOf(s.active) == [];
  }

  lemma CompletedStageCounts(c: Config, s: State)
    requires SerialReady(c, s, |c.schedule.serialItems|)
    ensures s.successful + s.failed + |s.aborted| + s.skipped == Nodes(c.schedule.parallelItems) + Nodes(c.schedule.serialItems)
  {
    hide Logged;
    hide Booked;
    hide Totalled;
    hide AllSucceeded;
    hide TerminalUpTo;
    WholePrefix(c.schedule.serialItems);
  }

  /** Node conservation, with the one gap: segments behind a failed launch. */
  lemma StageCounts(c: Config, s: State, stage: Stage)
    requires AtStage(c, s, stage)
    ensures stage.StoppedInSerial? ==> stage.k < |c.schedule.serialItems|
    ensures s.successful + s.failed + |s.aborted| + s.skipped + Shortfall(c, stage) == Nodes(c.schedule.AllItems())
  {
    hide SerialReady;
    hide ParallelStopped;
    NodesConcat(c.schedule.parallelItems, c.schedule.serialItems);
    match stage {
      case Completed => CompletedStageCounts(c, s);
      case StoppedInParallel => ParallelStageCounts(c, s);
      case StoppedInSerial(k, launchFailed) =>
        assert k < |c.schedule.serialItems|;
        hide SerialStopped;
        SerialStageCounts(c, s, k, launchFailed);
    }
  }

  /** No failure is recorded exactly when every item's accepted result is a success. */
  lemma StageVerdict(c: Config, s: State, stage: Stage)
    requires AtStage(c, s, stage)
    ensures s.failureReason.None? ==> s.failed == 0 && s.aborted == []
    ensures s.failureReason.None? <==>
              AllSucceeded(c.schedule.parallelItems, s.history) && AllSucceeded(c.schedule.serialItems, s.history)
    ensures Open(s.history) == []
  {
    assert ItemsOf([]) == [];
    match stage {
      case Completed => WholePrefix(c.schedule.serialItems);
      case StoppedInParallel =>
        var t := s.(aborted := []);
        assert Flagged(c, t) && Logged(c, t);
        var i: nat :| Spoiled(c, t, i);
      case StoppedInSerial(k, launchFailed) =>
    }
  }

  datatype RunEnd = Returned(outcome: Outcome) | Raised(cause: Break, ends: seq<Termination>, complete: bool)

  function Totals(s: State): Outcome {
    var reason := if s.failureReason.None? && s.diagnosticFailures > 0 then Some(DiagnosticEventFailed) else s.failureReason;
    var failed := s.failed + |s.aborted|;
    Outcome(failed == 0 && s.aborted == [] && reason.None?, reason, s.successful, failed, s.skipped, s.aborted)
  }

  /** What is known about the nodes that never ran. */
  ghost predicate StageDetail(c: Config, s: State, stage: Stage) {
    match stage
    case Completed => s.failureReason == None && s.aborted == []
    case StoppedInParallel =>
      && s.failureReason.Some? && |s.pending| <= |c.schedule.parallelItems|
      && s.pending == c.schedule.parallelItems[|c.schedule.parallelItems| - |s.pending|..]
      && s.aborted == Flat(s.pending) + Flat(c.schedule.serialItems)
    case StoppedInSerial(k, launchFailed) =>
      && s.failureReason.Some? && k < |c.schedule.serialItems|
      && AllSucceeded(c.schedule.parallelItems, s.history) && AllSucceeded(c.schedule.serialItems[..k], s.history)
      && !Won(s.history, c.schedule.serialItems[k])
      && s.aborted == (if launchFailed then [] else Flat(c.schedule.serialItems[k + 1..]))
      && (launchFailed ==> s.failureReason == Some(WorkerLaunchFailed) && Launched(c.schedule.serialItems[k]) !in s.history)
  }

  /** What every normal return guarantees. */
  ghost predicate Concluded(c: Config, s: State, stage: Stage) {
    && StageDetail(c, s, stage)
    && ClosingsOk(c.runId, s.history) && Totalled(c, s)
    && Open(s.history) == []
    && s.successful + s.failed + |s.aborted| + s.skipped + Shortfall(c, stage) == Nodes(c.schedule.AllItems())
    && (s.failureReason.None? ==> s.failed == 0 && s.aborted == [])
    && (s.failureReason.None? <==>
          AllSucceeded(c.schedule.parallelItems, s.history) && AllSucceeded(c.schedule.serialItems, s.history))
  }

  lemma StageDetails(c: Config, s: State, stage: Stage)
    requires AtStage(c, s, stage)
    ensures StageDetail(c, s, stage) && Booked(s) && Totalled(c, s)
    ensures HistoryOk(c.schedule, Limit(c), s.history) && ClosingsOk(c.runId, s.history)
  {
    hide HistoryOk;
    hide ClosingsOk;
    hide AllSucceeded;
    hide Won;
    if stage.StoppedInParallel? {
      var t := s.(aborted := []);
      assert Booked(t) && Queued(c, t) && Flagged(c, t) && Logged(c, t) && Totalled(c, t);
      hide Invariant;
    }
    hide Booked;
  }

  lemma StageConcluded(c: Config, s: State, stage: Stage)
    requires AtStage(c, s, stage)
    ensures Concluded(c, s, stage) && Booked(s) && HistoryOk(c.schedule, Limit(c), s.history)
  {
    hide AtStage;
    hide StageDetail;
    hide Booked;
    hide Totalled;
    hide HistoryOk;
    hide ClosingsOk;
    hide AllSucceeded;
    StageCounts(c, s, stage);
    StageVerdict(c, s, stage);
    StageDetails(c, s, stage);
  }

  /** Notifications do not touch what was concluded. */
  lemma StillConcluded(c: Config, s: State, stage: Stage, t: State)
    requires Concluded(c, s, stage) && SameButEvents(s, t)
    ensures Concluded(c, t, stage)
  {
    hide ClosingsOk;
    hide AllSucceeded;
    hide Won;
    hide BookedCounts;
  }

  /** A worker ran for the item and its result file was accepted, agreed with the exit code and said success. */
  ghost predicate ItemSucceeded(c: Config, h: seq<Action>, item: WorkItem) {
    exists a :: a in h && SuccessReported(c.runId, a, item)
  }

  /** Every item has such a result, and no diagnostic callback failed. */
  ghost predicate Flawless(c: Config, s: State) {
    && s.diagnosticFailures == 0
    && forall i :: 0 <= i < |c.schedule.AllItems()| ==> ItemSucceeded(c, s.history, c.schedule.AllItems()[i])
  }

  lemma AllOfBoth(p: seq<WorkItem>, q: seq<WorkItem>, h: seq<Action>)
    ensures AllSucceeded(p + q, h) <==> AllSucceeded(p, h) && AllSucceeded(q, h)
  {
    hide Won;
    assert forall i :: 0 <= i < |p| ==> (p + q)[i] == p[i];
    assert forall i :: 0 <= i < |q| ==> (p + q)[|p| + i] == q[i];
  }

  /** The two phases succeeded exactly when every item of the schedule did. */
  lemma BothPhases(c: Config, h: seq<Action>)
    requires ClosingsOk(c.runId, h)
    ensures AllSucceeded(c.schedule.parallelItems, h) && AllSucceeded(c.schedule.serialItems, h)
       <==> forall i :: 0 <= i < |c.schedule.AllItems()| ==> ItemSucceeded(c, h, c.schedule.AllItems()[i])
  {
    hide SuccessReported;
    hide ClosingsOk;
    AllOfBoth(c.schedule.parallelItems, c.schedule.serialItems, h);
    var all := c.schedule.AllItems();
    forall i | 0 <= i < |all|
      ensures Won(h, all[i]) <==> ItemSucceeded(c, h, all[i])
    {
      WonMeansAccepted(c.runId, h, all[i]);
    }
    hide Won;
    hide ItemSucceeded;
  }

  function NodesCounted(outcome: Outcome): nat {
    outcome.successful + outcome.failed + outcome.skipped
  }

  /** A serial launch failed in front of segments that have nodes. */
  ghost predicate LaunchLeftNodes(c: Config, stage: Stage)
    requires stage.StoppedInSerial? ==> stage.k < |c.schedule.serialItems|
  {
    stage.StoppedInSerial? && stage.launchFailed && Nodes(c.schedule.serialItems[stage.k + 1..]) > 0
  }

  /** The outcome says success exactly when nothing went wrong. */
  lemma SuccessMeansFlawless(c: Config, s: State, stage: Stage)
    requires Concluded(c, s, stage)
    ensures Totals(s).succeeded <==> Flawless(c, s)
    ensures NodesCounted(Totals(s)) + Shortfall(c, stage) == Nodes(c.schedule.AllItems())
  {
    BothPhases(c, s.history);
    hide AllSucceeded;
    hide ItemSucceeded;
  }

  /** Nodes go missing from the totals exactly when a launch failed in front of segments that have nodes. */
  lemma NodesMissing(c: Config, s: State, stage: Stage)
    requires Concluded(c, s, stage)
    ensures NodesCounted(Totals(s)) < Nodes(c.schedule.AllItems()) <==> LaunchLeftNodes(c, stage)
  {}

  /** They do go missing: without parallel items and memory gate, when the first segment cannot be started. */
  lemma FirstLaunchFailure(c: Config, start: real) returns (s: State)
    requires ConfigOk(c) && !c.hasGate && c.schedule.parallelItems == []
    requires |c.schedule.serialItems| >= 2 && Nodes(c.schedule.serialItems[1..]) > 0
    ensures s == SegmentFailed(c, Initial(c, start), 0, WorkerLaunchFailed, true, false, start)
    ensures SerialReady(c, Initial(c, start), 0)
    ensures Concluded(c, s, StoppedInSerial(0, true)) && LaunchLeftNodes(c, StoppedInSerial(0, true))
    ensures NodesCounted(Totals(s)) < Nodes(c.schedule.AllItems())
  {
    hide Invariant;
    hide SerialReady;
    hide SerialStopped;
    hide Concluded;
    s := SegmentFailed(c, Initial(c, start), 0, WorkerLaunchFailed, true, false, start);
    InitialInvariant(c, start);
    EnterSerial(c, Initial(c, start));
    SegmentFailedOk(c, Initial(c, start), 0, WorkerLaunchFailed, true, false, start);
    StageConcluded(c, s, StoppedInSerial(0, true));
    NodesMissing(c, s, StoppedInSerial(0, true));
  }

  lemma NothingPending(c: Config, s: State)
    requires Invariant(c, s) && !s.parallelFailed && (s.pending == [] || s.stopAdmission)
    ensures s.pending == []
  {}

  lemma ParallelAborts(c: Config, s: State)
    requires Invariant(c, s) && s.active == [] && s.parallelFailed
    ensures ParallelStopped(c, s.(aborted := Flat(s.pending) + Flat(c.schedule.serialItems)))
  {
    assert s.aborted == [];
    assert s.(aborted := Flat(s.pending) + Flat(c.schedule.serialItems)).(aborted := []) == s;
  }

  lemma TerminalEach(c: Config, s: State)
    requires Booked(s) && AllNotified(c.schedule.AllItems(), s)
    ensures OneTerminalEach(c, s)
  {}

  /** What a cancelled run leaves: the workers it still tracked were torn down as `end` says, and if that went through,
      every item has its terminal event and the held slots are those of the unconfirmed workers, less the debt. */
  ghost predicate Swept(c: Config, s: State, end: RunEnd)
    requires end.Raised?
  {
    && Booked(s) && BreakOk(c, s, end.cause)
    && TornDown(c, s, end.cause, end.ends, end.complete)
    && SlotsReleased(c, s, end.cause, end.ends, end.complete, s.held)
    && WorkersNotified(s.active, end.ends, Handled(end.ends, end.complete), s.events)
    && (end.complete ==> OneTerminalEach(c, s))
  }

  /** Of the workers that were torn down, those whose exit is confirmed are reported as cancelled, the others as failed. */
  lemma SweptEvents(c: Config, s: State, end: RunEnd, i: nat)
    requires end.Raised? && Swept(c, s, end) && i < Handled(end.ends, end.complete)
    ensures i < |s.active| && i < |end.ends|
    ensures end.ends[i].Confirmed? ==> Event(s.active[i].item.id, Cancelled) in s.events
    ensures !end.ends[i].Confirmed? ==> Event(s.active[i].item.id, EventKind.Failed) in s.events
  {
    hide Booked;
    hide BreakOk;
    hide OneTerminalEach;
    assert TeardownEvent(s.active[i], end.ends[i]) in s.events;
  }

  /** The run is cancelled: tear down, notify, re-raise. */
  method Cancel(c: Config, s: State, cause: Break) returns (t: State, end: RunEnd)
    requires BrokenOff(c, s, cause)
    ensures end.Raised? && end.cause == cause && Swept(c, t, end) && SameButEvents(s, t)
    ensures CallbacksCounted(c, s) ==> CallbacksCounted(c, t)
  {
    hide CallbacksCounted;
    hide TeardownEnds;
    hide SameButEvents;
    hide Swept;
    var ends, complete;
    t, ends, complete := Teardown(c, s, cause);
    end := Raised(cause, ends, complete);
    TeardownSweeps(c, s, t, end);
    if complete {
      ghost var before := t;
      t := NotifyRest(c, t);
      TerminalEach(c, t);
      NotifiedSweeps(c, s, before, t, end);
    }
  }

  lemma TeardownSweeps(c: Config, s: State, t: State, end: RunEnd)
    requires end.Raised? && BreakOk(c, s, end.cause) && TeardownEnds(c, s, end.cause, t, end.ends, end.complete)
    ensures Booked(t) && SameButEvents(s, t) && (!end.complete ==> Swept(c, t, end))
  {
    hide Booked;
    hide OneTerminalEach;
  }

  lemma NotifiedSweeps(c: Config, s: State, before: State, t: State, end: RunEnd)
    requires end.Raised? && BreakOk(c, s, end.cause) && TeardownEnds(c, s, end.cause, before, end.ends, end.complete)
    requires SameButEvents(before, t) && t.held == before.held
    requires Booked(t) && OneTerminalEach(c, t)
    ensures Swept(c, t, end) && SameButEvents(s, t)
  {
    hide Booked;
    hide OneTerminalEach;
    forall i | 0 <= i < Handled(end.ends, end.complete)
      ensures TeardownEvent(t.active[i], end.ends[i]) in t.events
    {
      var e := TeardownEvent(s.active[i], end.ends[i]);
      var k :| 0 <= k < |before.events| && before.events[k] == e;
      assert t.events[k] == e;
    }
  }

  lemma SweepHistory(c: Config, s: State, cause: Break)
    requires BrokenOff(c, s, cause)
    ensures HistoryOk(c.schedule, Limit(c), s.history) && ClosingsOk(c.runId, s.history) && Totalled(c, s)
  {}

  /** The whole run. `stage` says how far a run that returns has come. */
  method RunBatch(c: Config, start: real) returns (s: State, end: RunEnd, ghost stage: Stage)
    requires ConfigOk(c)
    ensures HistoryOk(c.schedule, Limit(c), s.history) && ClosingsOk(c.runId, s.history) && Totalled(c, s)
    ensures s.polls <= ParallelBound(c) + Times(|c.schedule.serialItems|, SegmentRounds(c))
    ensures end.Returned? ==> Concluded(c, s, stage) && end.outcome == Totals(s)
    ensures end.Returned? ==> (end.outcome.succeeded <==> Flawless(c, s))
    ensures end.Returned? ==> NodesCounted(end.outcome) + Shortfall(c, stage) == Nodes(c.schedule.AllItems())
    ensures end.Returned? ==> (NodesCounted(end.outcome) < Nodes(c.schedule.AllItems()) <==> LaunchLeftNodes(c, stage))
    ensures end.Returned? ==> OneTerminalEach(c, s)
    ensures end.Returned? && c.hasGate ==> s.held == |s.uncleaned|
    ensures end.Raised? ==> Swept(c, s, end)
    ensures Explained(c, s) && CallbacksCounted(c, s) && EventsOf(c.runId, s.history) <= s.events
    ensures end.Returned? ==> (end.outcome.succeeded <==> Smooth(c, s))
    ensures end.Returned? ==> end.outcome.failureReason == FinalReason(c, s)
    ensures end.Returned? ==> RestNotExecuted(EventsOf(c.runId, s.history), s.events)
    ensures end.Returned? && stage.StoppedInParallel? && s.pending != [] ==> s.refusal.Some? || Halted(c, s.history)
    ensures Benign(c, s) ==> end.Returned? && end.outcome.succeeded
  {
    hide Benign;
    hide Explained;
    hide Narrated;
    hide CallbacksCounted;
    hide Smooth;
    hide Halted;
    hide Invariant;
    hide SerialReady;
    hide SerialStopped;
    hide BrokenOff;
    hide ParallelStopped;
    hide Concluded;
    hide Booked;
    hide Swept;
    hide Totalled;
    hide HistoryOk;
    hide ClosingsOk;
    hide OneTerminalEach;
    hide Flawless;
    InitialInvariant(c, start);
    InitialAccounted(c, start);
    hide StopExplained;
    stage := Completed;
    var broken;
    s, broken := ParallelPhase(c, Initial(c, start));
    if broken.Some? {
      SweepParallel(c, s);
      BreakInParallel(c, s, broken.value);
      SweepHistory(c, s, broken.value);
      ghost var t := s;
      s, end := Cancel(c, s, broken.value);
      SweptBooks(c, t, s);
      StillExplained(c, t, s);
      SweptIsNotBenign(c, s, end);
      return;
    }
    // The barrier violation of the source cannot happen: no worker is active here.
    if s.parallelFailed {
      ParallelAborts(c, s);
      if s.pending != [] {
        StopHasCause(c, s);
      }
      CarryRecounted(c, s, s.(aborted := Flat(s.pending) + Flat(c.schedule.serialItems)));
      s, stage := s.(aborted := Flat(s.pending) + Flat(c.schedule.serialItems)), StoppedInParallel;
    } else {
      NothingPending(c, s);
      EnterSerial(c, s);
      var serial;
      s, serial := SerialPhase(c, s);
      match serial {
        case AllSegments => stage := Completed;
        case StoppedAt(k, launchFailed) => stage := StoppedInSerial(k, launchFailed);
        case SerialBroken(cause) =>
          SweepHistory(c, s, cause);
          ghost var t := s;
          s, end := Cancel(c, s, cause);
          SweptBooks(c, t, s);
          StillExplained(c, t, s);
          SweptIsNotBenign(c, s, end);
          return;
      }
    }
    StageIdle(c, s, stage);
    ghost var before := s;
    s := Conclude(c, s, stage);
    StillExplained(c, before, s);
    SmoothMeansSuccess(c, s, stage);
    ConcludedBooks(c, s, stage);
    if Benign(c, s) {
      BenignIsSmooth(c, s);
    }
    SuccessMeansFlawless(c, s, stage);
    NodesMissing(c, s, stage);
    end := Returned(Totals(s));
  }

  lemma SweptIsNotBenign(c: Config, s: State, end: RunEnd)
    requires end.Raised? && Swept(c, s, end) && Explained(c, s) && HistoryOk(c.schedule, Limit(c), s.history)
    ensures !Benign(c, s)
  {
    hide BreakOk;
    hide HistoryOk;
    if Benign(c, s) {
      BenignIsNotBroken(c, s, end.cause);
      assert false;
    }
  }

  /** The reason that is reported: a failed callback counts last. */
  function FinalReason(c: Config, s: State): Option<FailureReason> {
    if Cause(c, s).Some? then Cause(c, s)
    else if s.diagnosticFailures > 0 then Some(DiagnosticEventFailed)
    else None
  }

  lemma StillExplained(c: Config, s: State, t: State)
    requires Recounted(c, s) && SameButEvents(s, t)
    ensures Explained(c, t) && EventsOf(c.runId, t.history) <= t.events && EventsOf(c.runId, t.history) == s.events
  {
    hide NothingAfterStop;
    hide LeftBehind;
    hide FirstReason;
    hide EventsOf;
    hide KilledLate;
  }

  lemma StopHasCause(c: Config, s: State)
    requires Accounted(c, s) && s.stopAdmission
    ensures s.refusal.Some? || Halted(c, s.history)
  {
    hide Recounted;
    hide Halted;
  }

  lemma SmoothMeansSuccess(c: Config, s: State, stage: Stage)
    requires Explained(c, s) && Concluded(c, s, stage)
    ensures Totals(s).succeeded <==> Smooth(c, s)
    ensures Totals(s).failureReason == FinalReason(c, s)
  {
    SmoothRun(c, s);
    hide Smooth;
    hide StageDetail;
    hide ClosingsOk;
    hide AllSucceeded;
    hide FirstReason;
    hide Timely;
    hide RefusalOk;
    hide NothingAfterStop;
  }

  lemma BreakInParallel(c: Config, s: State, cause: Break)
    requires Sweepable(c, s) && BreakOk(c, s, cause) && Slots(c, s, Debt(cause))
    ensures BrokenOff(c, s, cause)
  {}

  lemma SweptBooks(c: Config, s: State, t: State)
    requires SameButEvents(s, t) && Totalled(c, s)
    ensures Totalled(c, t)
  {}

  lemma ConcludedBooks(c: Config, s: State, stage: Stage)
    requires Concluded(c, s, stage)
    ensures ClosingsOk(c.runId, s.history) && Totalled(c, s)
  {}

  lemma StageIdle(c: Config, s: State, stage: Stage)
    requires AtStage(c, s, stage) && Slots(c, s, 0)
    ensures c.hasGate ==> s.held == |s.uncleaned|
  {}

  /** The last notifications and the outcome. */
  method Conclude(c: Config, s: State, ghost stage: Stage) returns (t: State)
    requires AtStage(c, s, stage)
    ensures Concluded(c, t, stage) && OneTerminalEach(c, t) && SameButEvents(s, t) && t.held == s.held
    ensures RestNotExecuted(s.events, t.events)
    ensures CallbacksCounted(c, s) ==> CallbacksCounted(c, t)
    ensures HistoryOk(c.schedule, Limit(c), t.history)
  {
    hide AtStage;
    hide Concluded;
    hide Booked;
    hide HistoryOk;
    StageConcluded(c, s, stage);
    t := NotifyRest(c, s);
    TerminalEach(c, t);
    hide OneTerminalEach;
    StillConcluded(c, s, stage, t);
  }
}
