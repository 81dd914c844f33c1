/** Why things happen in a run: a worker is killed only after its time is over, admission ends only for a reason that the
    history or the memory gate gives, and the reason and the events that are reported are those of the history. */
module RunCauses {
  import opened Outcomes
  import opened BatchTypes
  import opened RunHistory
  import opened RunState
  import opened RunSteps
  import opened SerialSteps
  import WorkerResult
  import WorkerContract

  // What one action stands for

  /** The reason to fail the run that an action gives, if it gives one. */
  function ReasonOf(batchRun: string, a: Action): Option<FailureReason> {
    match a
    case Launched(_) => None
    case NotLaunched(_) => Some(WorkerLaunchFailed)
    case Closed(item, _, Killed(confirmed)) => Some(if confirmed then WorkerTimeout else WorkerCleanupFailed)
    case Closed(item, _, Exited(code, payload)) =>
      if AcceptedSuccess(batchRun, item, Exited(code, payload)) then None else Some(WorkerFailed)
  }

  function EventOf(batchRun: string, a: Action): Event {
    match a
    case Launched(item) => Event(item.id, Running)
    case NotLaunched(item) => Event(item.id, Failed)
    case Closed(item, _, report) => Event(item.id, if AcceptedOf(batchRun, item, report).Some? then Reported else Failed)
  }

  function EventsOf(batchRun: string, h: seq<Action>): (events: seq<Event>)
    ensures |events| == |h|
  {
    seq(|h|, i requires 0 <= i < |h| => EventOf(batchRun, h[i]))
  }

  function FirstReason(batchRun: string, h: seq<Action>): Option<FailureReason> {
    if h == [] then None
    else
      var before := FirstReason(batchRun, h[..|h| - 1]);
      if before.Some? then before else ReasonOf(batchRun, h[|h| - 1])
  }

  lemma FirstReasonOne(batchRun: string, h: seq<Action>, a: Action)
    ensures FirstReason(batchRun, h + [a])
         == if FirstReason(batchRun, h).Some? then FirstReason(batchRun, h) else ReasonOf(batchRun, a)
  {
    assert (h + [a])[..|h|] == h;
  }

  /** There is a first reason exactly if some action gives one. */
  lemma {:induction false} FirstReasonGiven(batchRun: string, h: seq<Action>)
    ensures FirstReason(batchRun, h).Some? <==> exists i :: 0 <= i < |h| && ReasonOf(batchRun, h[i]).Some?
  {
    hide ReasonOf;
    if h != [] {
      var n := |h| - 1;
      FirstReasonGiven(batchRun, h[..n]);
      if i :| 0 <= i < n && ReasonOf(batchRun, h[..n][i]).Some? {
        assert h[i] == h[..n][i];
      }
      if i :| 0 <= i < |h| && ReasonOf(batchRun, h[i]).Some? {
        if i < n { assert h[..n][i] == h[i]; }
      }
    }
  }

  lemma EventsOne(batchRun: string, h: seq<Action>, a: Action)
    ensures EventsOf(batchRun, h + [a]) == EventsOf(batchRun, h) + [EventOf(batchRun, a)]
  {}

  /** After this action nothing may be started any more. */
  predicate Stops(c: Config, a: Action) {
    (a.Closed? && a.ending == Uncleaned) || (!c.skipError && ReasonOf(c.runId, a).Some?)
  }

  ghost predicate Halted(c: Config, h: seq<Action>) {
    exists i :: 0 <= i < |h| && Stops(c, h[i])
  }

  lemma HaltedOne(c: Config, h: seq<Action>, a: Action)
    ensures Halted(c, h + [a]) <==> Halted(c, h) || Stops(c, a)
  {
    hide Stops;
    var longer := h + [a];
    if i :| 0 <= i < |h| && Stops(c, h[i]) {
      assert longer[i] == h[i];
    }
    if Stops(c, a) {
      assert longer[|h|] == a;
    }
  }

  ghost predicate NothingAfterStop(c: Config, h: seq<Action>) {
    forall i, j :: 0 <= i < j < |h| && Stops(c, h[i]) ==> !h[j].Launched?
  }

  lemma StopExtend(c: Config, h: seq<Action>, a: Action)
    requires NothingAfterStop(c, h) && (a.Launched? ==> !Halted(c, h))
    ensures NothingAfterStop(c, h + [a])
  {
    hide Stops;
    var longer := h + [a];
    forall i, j | 0 <= i < j < |longer| && Stops(c, longer[i]) ensures !longer[j].Launched? {
      assert Stops(c, h[i]);
    }
  }

  // Times

  /** The item was started at `at`. */
  ghost predicate StartedAt(h: seq<Action>, times: seq<real>, item: WorkItem, at: real) {
    exists j :: 0 <= j < |h| && j < |times| && h[j] == Launched(item) && times[j] == at
  }

  /** A parallel worker that was killed had run for longer than the time allowed. */
  ghost predicate KilledLate(c: Config, h: seq<Action>, times: seq<real>, i: nat)
    requires i < |h| && i < |times|
  {
    h[i].Closed? && h[i].report.Killed? && h[i].item.phase == Parallel ==>
      exists start :: StartedAt(h[..i], times[..i], h[i].item, start) && times[i] - start > c.workerTimeout
  }

  /** One time for every action, in order, none of them later than `now`. */
  ghost predicate InOrder(h: seq<Action>, times: seq<real>, now: real) {
    && |times| == |h|
    && (forall i, j :: 0 <= i < j < |times| ==> times[i] <= times[j])
    && (forall i :: 0 <= i < |times| ==> times[i] <= now)
  }

  ghost predicate Timely(c: Config, s: State) {
    && InOrder(s.history, s.times, s.now)
    && (forall i :: 0 <= i < |s.history| ==> KilledLate(c, s.history, s.times, i))
    && (forall k :: 0 <= k < |s.active| ==> StartedAt(s.history, s.times, s.active[k].item, s.active[k].startedAt))
  }

  /** The time is that of the launch, for the item is launched once. */
  lemma StartedOnce(schedule: Schedule, limit: nat, h: seq<Action>, times: seq<real>, item: WorkItem, s: real, t: real)
    requires HistoryOk(schedule, limit, h) && StartedAt(h, times, item, s) && StartedAt(h, times, item, t)
    ensures s == t
  {
    hide HistoryOk;
    forall i: nat, j: nat | i < j < |h| && h[i].Launched? && h[j].Launched? ensures h[i].item != h[j].item {
      LaunchedOnce(schedule, limit, h, i, j);
    }
  }

  lemma StartedStays(h: seq<Action>, times: seq<real>, item: WorkItem, at: real, a: Action, t: real)
    requires |times| == |h| && StartedAt(h, times, item, at)
    ensures StartedAt(h + [a], times + [t], item, at)
  {
    var j :| 0 <= j < |h| && h[j] == Launched(item) && times[j] == at;
    assert (h + [a])[j] == h[j] && (times + [t])[j] == times[j];
  }

  /** One more action, observed at `t`. */
  lemma TimesExtend(c: Config, h: seq<Action>, times: seq<real>, now: real, a: Action, t: real, later: real)
    requires InOrder(h, times, now) && now <= t <= later
    requires forall i :: 0 <= i < |h| ==> KilledLate(c, h, times, i)
    requires a.Closed? && a.report.Killed? && a.item.phase == Parallel ==>
               exists start :: StartedAt(h, times, a.item, start) && t - start > c.workerTimeout
    ensures InOrder(h + [a], times + [t], later)
    ensures forall i :: 0 <= i < |h + [a]| ==> KilledLate(c, h + [a], times + [t], i)
  {
    hide StartedAt;
    var longer, longerTimes := h + [a], times + [t];
    forall i | 0 <= i < |longer| ensures KilledLate(c, longer, longerTimes, i) {
      if i < |h| {
        assert longer[..i] == h[..i] && longerTimes[..i] == times[..i];
        assert KilledLate(c, h, times, i);
      } else {
        assert longer[..i] == h && longerTimes[..i] == times;
      }
    }
  }

  // The environment

  /** The environment has brought the action about: a start that worked or failed (or was refused by the gate), an exit
      that the poll or the wait has shown, with the document in the result file, or a kill of a worker that a poll has shown
      to run or for which the wait has failed, confirmed as it went. */
  ghost predicate Genuine(c: Config, a: Action, at: real, refused: Option<Refusal>) {
    match a
    case Launched(item) => c.env.starts(item)
    case NotLaunched(item) => !c.env.starts(item) || (refused.Some? && refused.value.item == item)
    case Closed(item, _, Exited(code, payload)) =>
      && payload == c.env.payload(item)
      && (if item.phase == Parallel then c.env.poll(item, at) == HasExited(code) else c.env.wait(item) == WaitExited(code))
    case Closed(item, _, Killed(confirmed)) =>
      && (if item.phase == Parallel then c.env.poll(item, at) == StillRunning else c.env.wait(item) == WaitFailed)
      && !c.env.KillEnd(item, Overdue).Abandoned? && (confirmed <==> c.env.KillEnd(item, Overdue).Confirmed?)
  }

  ghost predicate AllGenuine(c: Config, s: State) {
    && |s.times| == |s.history|
    && (forall i :: 0 <= i < |s.history| ==> Genuine(c, s.history[i], s.times[i], s.refusal))
    && (forall i :: 0 <= i < |s.history| && s.history[i].NotLaunched? ==> s.history[i].item in c.schedule.AllItems())
  }

  lemma GenuineAnyway(c: Config, a: Action, at: real, refused: Option<Refusal>)
    requires Genuine(c, a, at, None)
    ensures Genuine(c, a, at, refused)
  {}

  /** A refusal that comes later takes nothing back. */
  lemma GenuineStill(c: Config, s: State, t: State)
    requires AllGenuine(c, s) && s.refusal.None? && t.history == s.history && t.times == s.times
    ensures AllGenuine(c, t)
  {
    forall i | 0 <= i < |t.history| ensures Genuine(c, t.history[i], t.times[i], t.refusal) {
      assert Genuine(c, s.history[i], s.times[i], s.refusal);
    }
  }

  lemma GenuineOne(c: Config, s: State, a: Action, at: real, t: State)
    requires AllGenuine(c, s) && Genuine(c, a, at, t.refusal) && (t.refusal == s.refusal || s.refusal.None?)
    requires t.history == s.history + [a] && t.times == s.times + [at]
    requires a.NotLaunched? ==> a.item in c.schedule.AllItems()
    ensures AllGenuine(c, t)
  {
    forall i | 0 <= i < |t.history| ensures Genuine(c, t.history[i], t.times[i], t.refusal) {
      if i < |s.history| {
        assert Genuine(c, s.history[i], s.times[i], s.refusal);
      }
    }
  }

  // The memory gate

  /** If the gate ended admission by keeping the queue waiting, the time for that was over, and no worker was started or
      had ended since the wait began. */
  ghost predicate RefusalOk(c: Config, s: State) {
    s.refusal.Some? ==>
      var r := s.refusal.value;
      && c.hasGate && r.since <= r.at <= s.now && r.reason in {MemoryGateError, MemoryAdmissionTimeout}
      && (exists asked :: GateSaid(c, r, asked)) && r.item in c.schedule.AllItems()
      && (r.reason == MemoryAdmissionTimeout ==>
            && r.at - r.since >= c.admissionTimeout && s.active == []
            && QuietSince(s.history, s.times, r.since))
  }

  /** What the gate answered when it was asked. */
  ghost predicate GateSaid(c: Config, r: Refusal, asked: real) {
    && asked <= r.at
    && c.env.gate(r.item, asked) == if r.reason == MemoryGateError then GateRaised else MustWait
  }

  /** No worker was started or ended after `since`. */
  ghost predicate QuietSince(h: seq<Action>, times: seq<real>, since: real) {
    forall i :: 0 <= i < |h| && i < |times| && !h[i].NotLaunched? ==> times[i] <= since
  }

  lemma QuietStays(h: seq<Action>, times: seq<real>, since: real, a: Action, t: real)
    requires |times| == |h| && QuietSince(h, times, since) && a.NotLaunched?
    ensures QuietSince(h + [a], times + [t], since)
  {}

  /** A wait for memory runs only while nothing else happens. */
  ghost predicate WaitsQuiet(s: State) {
    forall id :: id in s.waits && s.waits[id].Some? ==> QuietSince(s.history, s.times, s.waits[id].value)
  }

  // Reasons and events

  /** What failed the run: the gate, or else the first action that gives a reason. */
  function Cause(c: Config, s: State): Option<FailureReason> {
    if s.refusal.Some? then Some(s.refusal.value.reason) else FirstReason(c.runId, s.history)
  }

  /** The items whose process tree could not be confirmed gone. */
  function LeftBehind(h: seq<Action>): seq<WorkItem> {
    if h == [] then []
    else
      var before, last := LeftBehind(h[..|h| - 1]), h[|h| - 1];
      if last.Closed? && last.ending == Uncleaned then before + [last.item] else before
  }

  lemma LeftBehindOne(h: seq<Action>, a: Action)
    ensures LeftBehind(h + [a]) == LeftBehind(h) + if a.Closed? && a.ending == Uncleaned then [a.item] else []
  {
    assert (h + [a])[..|h|] == h;
  }

  ghost predicate Explained(c: Config, s: State) {
    && Timely(c, s) && RefusalOk(c, s)
    && NothingAfterStop(c, s.history) && AllGenuine(c, s)
    && s.failureReason == Cause(c, s)
    && ItemsOf(s.uncleaned) == LeftBehind(s.history)
  }

  /** The callbacks so far are those of the actions. */
  ghost predicate Narrated(c: Config, s: State) {
    s.events == EventsOf(c.runId, s.history)
  }

  /** In the parallel phase: admission has stopped exactly for these reasons. */
  ghost predicate StopExplained(c: Config, s: State) {
    && (s.stopAdmission <==> s.refusal.Some? || Halted(c, s.history))
    && WaitsQuiet(s)
  }

  function HowMany(raises: seq<bool>): nat {
    if raises == [] then 0 else HowMany(raises[..|raises| - 1]) + if raises[|raises| - 1] then 1 else 0
  }

  lemma OneMoreCallback(raises: seq<bool>, raised: bool)
    ensures HowMany(raises + [raised]) == HowMany(raises) + if raised then 1 else 0
  {
    assert (raises + [raised])[..|raises|] == raises;
  }

  /** Every event has its callback, and those that raised are counted. */
  ghost predicate CallbacksCounted(c: Config, s: State) {
    && |s.raises| == |s.events| && s.diagnosticFailures == HowMany(s.raises)
    && forall k :: 0 <= k < |s.events| ==> s.raises[k] == c.env.raises(s.events[k])
  }

  ghost predicate Recounted(c: Config, s: State) {
    Explained(c, s) && Narrated(c, s) && CallbacksCounted(c, s)
  }

  ghost predicate Accounted(c: Config, s: State) {
    Recounted(c, s) && StopExplained(c, s)
  }

  /** How a settlement follows from the report. */
  ghost predicate Told(c: Config, s: State, w: Worker, x: Settlement) {
    && (x.ending != Success ==> ReasonOf(c.runId, Ended(w, x)) == Some(x.reason))
    && (x.ending == Success ==> ReasonOf(c.runId, Ended(w, x)) == None)
    && EventOf(c.runId, Ended(w, x)) == Event(w.item.id, x.kind)
    && s.now <= x.seen <= x.now
    && (x.report.Killed? && w.item.phase == Parallel ==> x.seen - w.startedAt > c.workerTimeout)
    && Genuine(c, Ended(w, x), x.seen, None) && x.raised == c.env.raises(Event(w.item.id, x.kind))
  }

  // ---------------------------------------------------------------------------------------------
  // The steps keep this.

  /** Nothing that is explained has changed, and time may have passed. */
  lemma CarryRecounted(c: Config, s: State, t: State)
    requires Recounted(c, s) && s.now <= t.now
    requires t.history == s.history && t.times == s.times && t.refusal == s.refusal && t.active == s.active
    requires t.failureReason == s.failureReason && t.events == s.events && t.uncleaned == s.uncleaned
    requires t.raises == s.raises && t.diagnosticFailures == s.diagnosticFailures
    ensures Recounted(c, t)
  {}

  lemma CarryAccounted(c: Config, s: State, t: State)
    requires Accounted(c, s) && s.now <= t.now
    requires t.history == s.history && t.times == s.times && t.refusal == s.refusal && t.active == s.active
    requires t.failureReason == s.failureReason && t.events == s.events && t.uncleaned == s.uncleaned
    requires t.raises == s.raises && t.diagnosticFailures == s.diagnosticFailures
    requires t.stopAdmission == s.stopAdmission && t.waits == s.waits
    ensures Accounted(c, t)
  {
    CarryRecounted(c, s, t);
  }

  lemma SettledTimely(c: Config, s: State, w: Worker, x: Settlement, active: seq<Worker>, t: State)
    requires Timely(c, s) && Told(c, s, w, x) && w in s.active && forall v :: v in active ==> v in s.active
    requires t.history == s.history + [Ended(w, x)] && t.times == s.times + [x.seen] && t.now == x.now && t.active == active
    ensures Timely(c, t)
  {
    var k :| 0 <= k < |s.active| && s.active[k] == w;
    assert StartedAt(s.history, s.times, w.item, w.startedAt);
    TimesExtend(c, s.history, s.times, s.now, Ended(w, x), x.seen, x.now);
    forall k | 0 <= k < |active| ensures StartedAt(t.history, t.times, active[k].item, active[k].startedAt) {
      assert active[k] in s.active;
      var l :| 0 <= l < |s.active| && s.active[l] == active[k];
      StartedStays(s.history, s.times, active[k].item, active[k].startedAt, Ended(w, x), x.seen);
    }
  }

  /** A running timer is not in the future, and nothing has happened since it was set. */
  lemma WaitFacts(c: Config, s: State, id: ItemId)
    requires Invariant(c, s) && Accounted(c, s) && id in s.waits && s.waits[id].Some?
    ensures s.waits[id].value <= s.now && QuietSince(s.history, s.times, s.waits[id].value)
  {
    hide QuietSince;
    hide Recounted;
  }

  lemma HeadScheduled(c: Config, s: State)
    requires Queued(c, s) && s.pending != []
    ensures s.pending[0] in c.schedule.AllItems()
  {
    assert s.pending[0] == c.schedule.parallelItems[Launches(c, s)];
    assert s.pending[0] == c.schedule.AllItems()[Launches(c, s)];
  }

  lemma SegmentScheduled(c: Config, k: nat)
    requires k < |c.schedule.serialItems|
    ensures c.schedule.serialItems[k] in c.schedule.AllItems()
  {
    assert c.schedule.AllItems()[|c.schedule.parallelItems| + k] == c.schedule.serialItems[k];
  }

  lemma InvariantFacts(c: Config, s: State)
    requires Invariant(c, s)
    ensures Queued(c, s) && Timed(c, s)
  {}

  /** What one more action has to bring about, apart from times and the gate. */
  ghost predicate Appended(c: Config, s: State, t: State, a: Action, at: real, raised: bool) {
    && t.history == s.history + [a] && t.times == s.times + [at]
    && t.events == s.events + [EventOf(c.runId, a)] && t.raises == s.raises + [raised]
    && raised == c.env.raises(EventOf(c.runId, a))
    && t.diagnosticFailures == s.diagnosticFailures + (if raised then 1 else 0)
    && ItemsOf(t.uncleaned) == ItemsOf(s.uncleaned) + (if a.Closed? && a.ending == Uncleaned then [a.item] else [])
    && t.failureReason == (if t.refusal.Some? then Some(t.refusal.value.reason)
                           else if s.failureReason.Some? then s.failureReason
                           else ReasonOf(c.runId, a))
    && (t.refusal == s.refusal || s.refusal.None?)
  }

  lemma OneMoreAction(c: Config, s: State, t: State, a: Action, at: real, raised: bool)
    requires Recounted(c, s) && Appended(c, s, t, a, at, raised) && Timely(c, t) && RefusalOk(c, t)
    requires Genuine(c, a, at, t.refusal) && (a.NotLaunched? ==> a.item in c.schedule.AllItems())
    requires a.Launched? ==> !Halted(c, s.history)
    ensures Recounted(c, t)
  {
    StopExtend(c, s.history, a);
    GenuineOne(c, s, a, at, t);
    hide AllGenuine;
    hide Genuine;
    hide NothingAfterStop;
    hide Timely;
    hide RefusalOk;
    hide Halted;
    FirstReasonOne(c.runId, s.history, a);
    EventsOne(c.runId, s.history, a);
    LeftBehindOne(s.history, a);
    OneMoreCallback(s.raises, raised);
    hide ReasonOf;
    hide EventOf;
    hide EventsOf;
    hide FirstReason;
    hide LeftBehind;
    hide HowMany;
    hide ItemsOf;
  }

  lemma SettledRecounted(c: Config, s: State, before: seq<Worker>, w: Worker, after: seq<Worker>, x: Settlement)
    requires Recounted(c, s) && Around(s, before, w, after) && Told(c, s, w, x) && Drop(s.active, w.item) == before + after
    ensures Recounted(c, Settled(c, s, w, x))
  {
    hide Drop;
    hide Timely;
    var t, a := Settled(c, s, w, x), Ended(w, x);
    assert s.active[|before|] == w;
    SettledTimely(c, s, w, x, before + after, t);
    GenuineAnyway(c, a, x.seen, s.refusal);
    OneMoreUncleaned(s.uncleaned, w);
    hide Genuine;
    hide ItemsOf;
    hide ReasonOf;
    hide EventOf;
    RefusalStays(c, s, t);
    hide RefusalOk;
    OneMoreAction(c, s, t, a, x.seen, x.raised);
  }

  lemma SettledStops(c: Config, s: State, w: Worker, x: Settlement)
    requires StopExplained(c, s) && Timed(c, s) && s.active != [] && Told(c, s, w, x)
    ensures StopExplained(c, Settled(c, s, w, x))
  {
    hide Halted;
    hide Stops;
    hide Drop;
    hide QuietSince;
    StopsWhen(c, s, w, x);
    HaltedOne(c, s.history, Ended(w, x));
    hide Told;
  }

  lemma SettledAccounted(c: Config, s: State, before: seq<Worker>, w: Worker, after: seq<Worker>, x: Settlement)
    requires Accounted(c, s) && Invariant(c, s) && Around(s, before, w, after) && Told(c, s, w, x)
    ensures Accounted(c, Settled(c, s, w, x))
  {
    hide Invariant;
    hide Recounted;
    hide StopExplained;
    hide Queued;
    hide Timed;
    hide Told;
    hide Settled;
    InvariantFacts(c, s);
    DropAround(c, s, before, w, after);
    SettledRecounted(c, s, before, w, after, x);
    SettledStops(c, s, w, x);
  }

  lemma StopsWhen(c: Config, s: State, w: Worker, x: Settlement)
    requires Told(c, s, w, x)
    ensures Stops(c, Ended(w, x)) <==> x.ending == Uncleaned || (x.ending != Success && !c.skipError)
  {
    hide ReasonOf;
    hide EventOf;
  }

  lemma LaunchTimely(c: Config, s: State, w: Worker, now: real, t: State)
    requires Timely(c, s) && s.now <= w.startedAt <= now
    requires t.history == s.history + [Launched(w.item)] && t.times == s.times + [w.startedAt] && t.now == now
    requires t.active == s.active + [w]
    ensures Timely(c, t)
  {
    TimesExtend(c, s.history, s.times, s.now, Launched(w.item), w.startedAt, now);
    forall k | 0 <= k < |t.active| ensures StartedAt(t.history, t.times, t.active[k].item, t.active[k].startedAt) {
      if k < |s.active| {
        StartedStays(s.history, s.times, s.active[k].item, s.active[k].startedAt, Launched(w.item), w.startedAt);
      } else {
        assert t.history[|s.history|] == Launched(w.item) && t.times[|s.times|] == w.startedAt;
      }
    }
  }

  lemma LaunchedAccounted(c: Config, s: State, startedAt: real, raised: bool, now: real)
    requires Accounted(c, s) && Invariant(c, s) && s.pending != [] && !s.stopAdmission && s.now <= startedAt <= now
    requires c.env.starts(s.pending[0]) && raised == c.env.raises(Event(s.pending[0].id, Running))
    ensures Accounted(c, LaunchedState(c, s, startedAt, raised, now))
  {
    hide Invariant;
    hide Timely;
    hide Halted;
    hide ItemsOf;
    InvariantFacts(c, s);
    hide Queued;
    var t, a := LaunchedState(c, s, startedAt, raised, now), Launched(s.pending[0]);
    LaunchTimely(c, s, Worker(s.pending[0], startedAt), now, t);
    HaltedOne(c, s.history, a);
    LaunchNeverStops(c, s.pending[0]);
    hide Stops;
    OneMoreAction(c, s, t, a, startedAt, raised);
    hide Recounted;
  }

  lemma LaunchNeverStops(c: Config, item: WorkItem)
    ensures !Stops(c, Launched(item)) && (Stops(c, NotLaunched(item)) <==> !c.skipError)
  {}

  lemma FailureTimely(c: Config, s: State, item: WorkItem, now: real, t: State)
    requires Timely(c, s) && s.now <= now
    requires t.history == s.history + [NotLaunched(item)] && t.times == s.times + [now] && t.now == now
    requires t.active == s.active
    ensures Timely(c, t)
  {
    TimesExtend(c, s.history, s.times, s.now, NotLaunched(item), now, now);
    forall k | 0 <= k < |t.active| ensures StartedAt(t.history, t.times, t.active[k].item, t.active[k].startedAt) {
      StartedStays(s.history, s.times, s.active[k].item, s.active[k].startedAt, NotLaunched(item), now);
    }
  }

  lemma LaunchFailedAccounted(c: Config, s: State, raised: bool, now: real)
    requires Accounted(c, s) && Invariant(c, s) && s.pending != [] && !s.stopAdmission && s.now <= now
    requires !c.env.starts(s.pending[0]) && raised == c.env.raises(Event(s.pending[0].id, Failed))
    ensures Accounted(c, LaunchFailedState(c, s, raised, now))
  {
    hide Invariant;
    hide Timely;
    hide Halted;
    hide ItemsOf;
    InvariantFacts(c, s);
    HeadScheduled(c, s);
    hide Queued;
    var t, a := LaunchFailedState(c, s, raised, now), NotLaunched(s.pending[0]);
    FailureTimely(c, s, s.pending[0], now, t);
    HaltedOne(c, s.history, a);
    LaunchNeverStops(c, s.pending[0]);
    hide Stops;
    OneMoreAction(c, s, t, a, now, raised);
    hide Recounted;
  }

  lemma StoppedAccounted(c: Config, s: State, reason: FailureReason, waits: map<ItemId, Option<real>>, since: real,
                         asked: real, now: real)
    requires Accounted(c, s) && s.pending != [] && !s.stopAdmission && c.hasGate && s.now <= now && since <= now
    requires waits == s.waits || waits == s.waits - {s.pending[0].id}
    requires reason == MemoryGateError || (&& reason == MemoryAdmissionTimeout && now - since >= c.admissionTimeout
                                           && s.active == [] && QuietSince(s.history, s.times, since))
    requires GateSaid(c, Refusal(s.pending[0], reason, since, now), asked)
    requires s.pending[0] in c.schedule.AllItems()
    ensures Accounted(c, StoppedState(s, reason, waits, since, now))
  {
    GenuineStill(c, s, StoppedState(s, reason, waits, since, now));
    hide AllGenuine;
    hide GateSaid;
    hide QuietSince;
    hide Halted;
    hide NothingAfterStop;
    hide EventsOf;
    hide FirstReason;
  }

  lemma WaitingAccounted(c: Config, s: State, now: real)
    requires Accounted(c, s) && s.pending != [] && s.now <= now
    ensures Accounted(c, WaitingState(s, now))
  {
    CarryRecounted(c, s, WaitingState(s, now));
    assert QuietSince(s.history, s.times, now);
    hide QuietSince;
    hide Halted;
    hide Recounted;
  }

  // The serial phase

  /** Without a reason to fail nothing has stopped the run. */
  lemma NothingHalted(c: Config, h: seq<Action>)
    requires FirstReason(c.runId, h).None? && NoneUncleaned(h)
    ensures !Halted(c, h)
  {
    FirstReasonGiven(c.runId, h);
    hide ReasonOf;
  }

  lemma ReadyFacts(c: Config, s: State, k: nat)
    requires SerialReady(c, s, k)
    ensures s.failureReason == None && s.active == [] && NoneUncleaned(s.history)
  {}

  lemma RunningFacts(c: Config, s: State, k: nat, w: Worker)
    requires SerialRunning(c, s, k, w)
    ensures s.failureReason == None && s.active == [w] && k < |c.schedule.serialItems|
  {}

  lemma SegmentLaunchedRecounted(c: Config, s: State, k: nat, startedAt: real, raised: bool, now: real)
    requires Recounted(c, s) && SerialReady(c, s, k) && k < |c.schedule.serialItems| && s.now <= startedAt <= now
    requires var item := c.schedule.serialItems[k]; c.env.starts(item) && raised == c.env.raises(Event(item.id, Running))
    ensures Recounted(c, SegmentLaunched(c, s, k, startedAt, raised, now))
  {
    hide SerialReady;
    hide Timely;
    hide ItemsOf;
    var item := c.schedule.serialItems[k];
    var t, a := SegmentLaunched(c, s, k, startedAt, raised, now), Launched(item);
    ReadyFacts(c, s, k);
    NothingHalted(c, s.history);
    hide Halted;
    assert t.active == s.active + [Worker(item, startedAt)];
    LaunchTimely(c, s, Worker(item, startedAt), now, t);
    OneMoreAction(c, s, t, a, startedAt, raised);
  }

  lemma SegmentUnlaunchedRecounted(c: Config, s: State, k: nat, raised: bool, now: real)
    requires Recounted(c, s) && SerialReady(c, s, k) && k < |c.schedule.serialItems| && s.now <= now
    requires var item := c.schedule.serialItems[k]; !c.env.starts(item) && raised == c.env.raises(Event(item.id, Failed))
    ensures Recounted(c, SegmentFailed(c, s, k, WorkerLaunchFailed, true, raised, now))
  {
    hide SerialReady;
    hide Timely;
    hide ItemsOf;
    SegmentScheduled(c, k);
    var item := c.schedule.serialItems[k];
    var t, a := SegmentFailed(c, s, k, WorkerLaunchFailed, true, raised, now), NotLaunched(item);
    ReadyFacts(c, s, k);
    FailureTimely(c, s, item, now, t);
    OneMoreAction(c, s, t, a, now, raised);
  }

  function RefusedFirst(c: Config, s: State, k: nat, reason: FailureReason, since: real, now: real): State
    requires k < |c.schedule.serialItems|
  {
    s.(refusal := Some(Refusal(c.schedule.serialItems[k], reason, since, now)))
  }

  lemma SegmentRefusedRecounted(c: Config, s: State, k: nat, reason: FailureReason, since: real, asked: real, raised: bool,
                                now: real)
    requires Recounted(c, s) && SerialReady(c, s, k) && k < |c.schedule.serialItems| && s.now <= now && c.hasGate
    requires since <= now && forall i :: 0 <= i < |s.times| ==> s.times[i] <= since
    requires reason == MemoryGateError || (reason == MemoryAdmissionTimeout && now - since >= c.admissionTimeout)
    requires GateSaid(c, Refusal(c.schedule.serialItems[k], reason, since, now), asked)
    requires raised == c.env.raises(Event(c.schedule.serialItems[k].id, Failed))
    ensures Recounted(c, SegmentFailed(c, RefusedFirst(c, s, k, reason, since, now), k, reason, false, raised, now))
  {
    hide SerialReady;
    hide ItemsOf;
    SegmentScheduled(c, k);
    var item, r := c.schedule.serialItems[k], RefusedFirst(c, s, k, reason, since, now);
    var t, a := SegmentFailed(c, r, k, reason, false, raised, now), NotLaunched(item);
    ReadyFacts(c, s, k);
    FailureTimely(c, s, item, now, t);
    assert QuietSince(s.history, s.times, since);
    QuietStays(s.history, s.times, since, a, now);
    hide Timely;
    hide QuietSince;
    hide GateSaid;
    OneMoreAction(c, s, t, a, now, raised);
  }

  /** A worker is active, so the gate has not given up for want of memory. */
  lemma RefusalStays(c: Config, s: State, t: State)
    requires RefusalOk(c, s) && s.active != [] && t.refusal == s.refusal && s.now <= t.now
    ensures RefusalOk(c, t)
  {}

  lemma OneMoreUncleaned(workers: seq<Worker>, w: Worker)
    ensures ItemsOf(workers + [w]) == ItemsOf(workers) + [w.item]
  {}

  lemma SegmentSettledRecounted(c: Config, s: State, k: nat, w: Worker, x: Settlement)
    requires Recounted(c, s) && SerialRunning(c, s, k, w) && Told(c, s, w, x)
    ensures Recounted(c, SegmentSettled(c, s, k, w, x))
  {
    hide SerialRunning;
    hide Timely;
    RunningFacts(c, s, k, w);
    var t, a := SegmentSettled(c, s, k, w, x), Ended(w, x);
    SettledTimely(c, s, w, x, [], t);
    GenuineAnyway(c, a, x.seen, s.refusal);
    OneMoreUncleaned(s.uncleaned, w);
    hide Genuine;
    hide ItemsOf;
    hide ReasonOf;
    hide EventOf;
    RefusalStays(c, s, t);
    hide RefusalOk;
    OneMoreAction(c, s, t, a, x.seen, x.raised);
  }

  // At the end

  /** No start failed, no wait for memory ended in vain, every worker ended by itself with an accepted success, and no
      callback failed. */
  ghost predicate Smooth(c: Config, s: State) {
    && s.refusal.None? && s.diagnosticFailures == 0
    && forall i :: 0 <= i < |s.history| ==> !Failing(c, s.history[i])
  }

  predicate Failing(c: Config, a: Action) {
    a.NotLaunched? || (a.Closed? && !AcceptedSuccess(c.runId, a.item, a.report))
  }

  lemma FailingGivesReason(c: Config, a: Action)
    ensures Failing(c, a) <==> ReasonOf(c.runId, a).Some?
  {
    hide WorkerResult.ValidateWorkerResult;
    if a.Closed? && a.report.Exited? {
      assert a.report == Exited(a.report.exitCode, a.report.payload);
    }
  }

  /** No failure was recorded exactly in a smooth run. */
  lemma SmoothRun(c: Config, s: State)
    requires Explained(c, s)
    ensures Smooth(c, s) <==> s.failureReason.None? && s.diagnosticFailures == 0
  {
    hide Timely;
    hide RefusalOk;
    hide NothingAfterStop;
    FirstReasonGiven(c.runId, s.history);
    forall i | 0 <= i < |s.history| ensures Failing(c, s.history[i]) <==> ReasonOf(c.runId, s.history[i]).Some? {
      FailingGivesReason(c, s.history[i]);
    }
    hide Failing;
    hide ReasonOf;
  }

  // What a success is

  /** The document keeps the contract with this item. */
  ghost predicate KeepsFor(batchRun: string, item: WorkItem, payload: WorkerResult.Json) {
    WorkerContract.Keeps(payload, item, WorkerResult.RunIdText(batchRun, item))
  }

  lemma StatesExitCode(payload: WorkerResult.Json, item: WorkItem, run: string)
    requires WorkerContract.Keeps(payload, item, run)
    ensures payload.JObject? && WorkerResult.Status in payload.fields && WorkerResult.ExitCode in payload.fields
    ensures payload.fields[WorkerResult.Status] == WorkerResult.JText("succeeded") ==>
              forall code :: WorkerResult.EqualsInt(payload.fields[WorkerResult.ExitCode], code) <==> code == 0
  {}

  /** A worker's result counts exactly if its document keeps the contract and states the exit code. */
  lemma AcceptedWhen(batchRun: string, item: WorkItem, report: Report)
    ensures AcceptedOf(batchRun, item, report).Some? <==>
            && report.Exited? && report.payload.Some? && KeepsFor(batchRun, item, report.payload.value)
            && WorkerResult.EqualsInt(report.payload.value.fields[WorkerResult.ExitCode], report.exitCode)
    ensures AcceptedOf(batchRun, item, report).Some? ==>
              (AcceptedOf(batchRun, item, report).value.succeeded <==>
                 report.payload.value.fields[WorkerResult.Status] == WorkerResult.JText("succeeded"))
  {
    if report.Exited? && report.payload.Some? {
      WorkerContract.AcceptedExactly(report.payload.value, item, WorkerResult.RunIdText(batchRun, item));
    }
    hide WorkerResult.ValidateWorkerResult;
    hide WorkerContract.Keeps;
  }

  /** A worker has succeeded exactly if it exited with code zero and left a document that keeps the contract and states
      success. */
  lemma SuccessExactly(batchRun: string, item: WorkItem, report: Report)
    ensures AcceptedSuccess(batchRun, item, report) <==>
            && report.Exited? && report.exitCode == 0 && report.payload.Some?
            && KeepsFor(batchRun, item, report.payload.value)
            && report.payload.value.fields[WorkerResult.Status] == WorkerResult.JText("succeeded")
  {
    AcceptedWhen(batchRun, item, report);
    hide AcceptedOf;
    if report.Exited? && report.payload.Some? && KeepsFor(batchRun, item, report.payload.value) {
      StatesExitCode(report.payload.value, item, WorkerResult.RunIdText(batchRun, item));
    }
    hide KeepsFor;
  }

  // At the start

  lemma InitialAccounted(c: Config, now: real)
    ensures Accounted(c, Initial(c, now))
  {}
}
