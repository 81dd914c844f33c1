/** Where nothing goes wrong a run succeeds: no worker is killed in its time, nothing is refused or cancelled on a whim. */
module BenignRuns {
  import opened Outcomes
  import opened BatchTypes
  import opened RunHistory
  import opened RunState
  import opened RunCauses
  import opened BatchWorkers
  import WorkerResult
  import WorkerContract

  /** The worker starts and leaves a result that keeps the contract and states success; a segment's worker also exits with
      code zero in the time it is waited for. */
  ghost predicate ItemWorks(c: Config, item: WorkItem) {
    && c.env.starts(item) && c.env.payload(item).Some? && WritesSuccess(c, item, c.env.payload(item).value)
    && (item.phase == Serial ==> c.env.wait(item) == WaitExited(0))
  }

  ghost predicate WritesSuccess(c: Config, item: WorkItem, payload: WorkerResult.Json) {
    && KeepsFor(c.runId, item, payload)
    && payload.fields[WorkerResult.Status] == WorkerResult.JText("succeeded")
  }

  /** Polls show that a worker started at `start` exits with code zero, and that it runs no longer than allowed. */
  ghost predicate ExitsInTime(c: Config, item: WorkItem, start: real) {
    forall t :: c.env.poll(item, t) == HasExited(0) || (c.env.poll(item, t) == StillRunning && t - start <= c.workerTimeout)
  }

  /** Every item works, the gate always admits, no callback fails and no sleep is interrupted, and each parallel worker
      exits in time, counted from its start in this run. */
  ghost predicate Benign(c: Config, s: State) {
    && (forall item :: item in c.schedule.AllItems() ==> ItemWorks(c, item))
    && (c.hasGate ==> forall item, t :: item in c.schedule.AllItems() ==> c.env.gate(item, t) == Admitted)
    && (forall e :: !c.env.raises(e)) && (forall t :: !c.env.interrupts(t))
    && (forall item, start :: item in c.schedule.parallelItems && StartedAt(s.history, s.times, item, start) ==>
          ExitsInTime(c, item, start))
  }

  lemma LaunchedIsScheduled(c: Config, h: seq<Action>, item: WorkItem)
    requires HistoryOk(c.schedule, Limit(c), h) && Launched(item) in h
    ensures item in c.schedule.AllItems() && (item.phase == Parallel ==> item in c.schedule.parallelItems)
  {
    var j :| 0 <= j < |h| && h[j] == Launched(item);
    assert MayLaunch(c.schedule, Limit(c), h[..j], item);
    if item.phase == Serial {
      var k :| MayLaunchSegment(c.schedule, h[..j], item, k);
      SegmentScheduled(c, k);
    }
  }

  lemma ClosedIsScheduled(c: Config, h: seq<Action>, i: nat)
    requires HistoryOk(c.schedule, Limit(c), h) && ClosingsOk(c.runId, h) && i < |h| && h[i].Closed?
    ensures Launched(h[i].item) in h && h[i].item in c.schedule.AllItems()
    ensures h[i].item.phase == Parallel ==> h[i].item in c.schedule.parallelItems
  {
    assert MayClose(c.runId, h[..i], h[i]);
    hide HistoryOk;
    hide ClosingsOk;
    OpenWasLaunched(h[..i], h[i].item);
    LaunchedIsScheduled(c, h, h[i].item);
  }

  lemma SomeStart(h: seq<Action>, times: seq<real>, item: WorkItem) returns (start: real)
    requires |times| == |h| && Launched(item) in h
    ensures StartedAt(h, times, item, start)
  {
    var j :| 0 <= j < |h| && h[j] == Launched(item);
    start := times[j];
  }

  lemma StartedBefore(h: seq<Action>, times: seq<real>, i: nat, item: WorkItem, start: real)
    requires i < |h| && i < |times| && StartedAt(h[..i], times[..i], item, start)
    ensures StartedAt(h, times, item, start)
  {
    var j :| 0 <= j < |h[..i]| && j < |times[..i]| && h[..i][j] == Launched(item) && times[..i][j] == start;
    assert h[j] == Launched(item) && times[j] == start;
  }

  /** What an exit of a benign run looks like. */
  lemma ExitSucceeds(c: Config, s: State, i: nat)
    requires Benign(c, s) && AllGenuine(c, s) && HistoryOk(c.schedule, Limit(c), s.history) && ClosingsOk(c.runId, s.history)
    requires i < |s.history| && s.history[i].Closed? && s.history[i].report.Exited?
    ensures AcceptedSuccess(c.runId, s.history[i].item, s.history[i].report)
  {
    var item, report := s.history[i].item, s.history[i].report;
    assert Genuine(c, s.history[i], s.times[i], s.refusal);
    ClosedIsScheduled(c, s.history, i);
    var start := SomeStart(s.history, s.times, item);
    hide HistoryOk;
    hide ClosingsOk;
    hide StartedAt;
    assert ItemWorks(c, item);
    if item.phase == Parallel {
      assert ExitsInTime(c, item, start);
    }
    SuccessExactly(c.runId, item, report);
    hide AcceptedSuccess;
    hide KeepsFor;
  }

  /** A worker that a poll shows to run is in its time. */
  lemma InTimeSoFar(c: Config, s: State, i: nat, item: WorkItem)
    requires Benign(c, s) && i < |s.history| && i < |s.times|
    requires item in c.schedule.parallelItems && c.env.poll(item, s.times[i]) == StillRunning
    ensures forall start :: StartedAt(s.history[..i], s.times[..i], item, start) ==> s.times[i] - start <= c.workerTimeout
  {
    hide StartedAt;
    forall start | StartedAt(s.history[..i], s.times[..i], item, start) ensures s.times[i] - start <= c.workerTimeout {
      StartedBefore(s.history, s.times, i, item, start);
      assert ExitsInTime(c, item, start);
    }
  }

  lemma NobodyKilled(c: Config, s: State, i: nat)
    requires Benign(c, s) && AllGenuine(c, s) && Timely(c, s)
    requires HistoryOk(c.schedule, Limit(c), s.history) && ClosingsOk(c.runId, s.history)
    requires i < |s.history| && s.history[i].Closed?
    ensures s.history[i].report.Exited?
  {
    var item, report := s.history[i].item, s.history[i].report;
    assert Genuine(c, s.history[i], s.times[i], s.refusal);
    ClosedIsScheduled(c, s.history, i);
    hide HistoryOk;
    hide ClosingsOk;
    assert ItemWorks(c, item);
    assert KilledLate(c, s.history, s.times, i);
    if item.phase == Parallel && c.env.poll(item, s.times[i]) == StillRunning {
      InTimeSoFar(c, s, i, item);
    }
  }

  lemma {:induction false} NoneRaised(raises: seq<bool>)
    requires forall k :: 0 <= k < |raises| ==> !raises[k]
    ensures HowMany(raises) == 0
  {
    if raises != [] {
      NoneRaised(raises[..|raises| - 1]);
    }
  }

  lemma NothingRefused(c: Config, s: State)
    requires Benign(c, s) && RefusalOk(c, s)
    ensures s.refusal.None?
  {}

  lemma AllStarted(c: Config, s: State, i: nat)
    requires Benign(c, s) && AllGenuine(c, s) && s.refusal.None? && i < |s.history|
    ensures !s.history[i].NotLaunched?
  {
    assert Genuine(c, s.history[i], s.times[i], s.refusal);
  }

  /** The history of a benign run shows no failure. */
  lemma BenignIsSmooth(c: Config, s: State)
    requires Benign(c, s) && Explained(c, s) && CallbacksCounted(c, s)
    requires HistoryOk(c.schedule, Limit(c), s.history) && ClosingsOk(c.runId, s.history)
    ensures Smooth(c, s)
  {
    NothingRefused(c, s);
    NoneRaised(s.raises);
    hide Timely;
    hide AllGenuine;
    hide HistoryOk;
    hide ClosingsOk;
    hide AcceptedSuccess;
    forall i | 0 <= i < |s.history| ensures !Failing(c, s.history[i]) {
      AllStarted(c, s, i);
      if s.history[i].Closed? {
        NobodyKilled(c, s, i);
        ExitSucceeds(c, s, i);
      }
    }
  }

  lemma AcceptedDoesNotRaise(c: Config, item: WorkItem, report: Report)
    requires report.Exited? && report.payload.Some? && KeepsFor(c.runId, item, report.payload.value)
    ensures !TypeErrorOn(c.runId, item, report)
  {
    var runId := WorkerResult.RunIdText(c.runId, item);
    WorkerContract.AcceptedExactly(report.payload.value, item, runId);
    WorkerResult.RaisesExactly(report.payload.value, item, runId);
    hide WorkerResult.ValidateWorkerResult;
    hide WorkerResult.UnhashableStatus;
    hide WorkerContract.Keeps;
  }

  lemma ActiveWorks(c: Config, s: State, k: nat)
    requires Benign(c, s) && Timely(c, s) && HistoryOk(c.schedule, Limit(c), s.history) && k < |s.active|
    ensures ItemWorks(c, s.active[k].item)
    ensures s.active[k].item.phase == Parallel ==> ExitsInTime(c, s.active[k].item, s.active[k].startedAt)
  {
    var w := s.active[k];
    assert StartedAt(s.history, s.times, w.item, w.startedAt);
    LaunchedIsScheduled(c, s.history, w.item);
  }

  lemma NobodyDisturbs(c: Config, s: State, k: nat)
    requires Benign(c, s) && Timely(c, s) && HistoryOk(c.schedule, Limit(c), s.history) && k < |s.active|
    ensures !WorkerDisturbs(c, s.active[k])
  {
    ActiveWorks(c, s, k);
    hide Benign;
    hide Timely;
    hide HistoryOk;
  }

  /** A benign run is not cancelled. */
  lemma BenignIsNotBroken(c: Config, s: State, cause: Break)
    requires Benign(c, s) && Timely(c, s) && HistoryOk(c.schedule, Limit(c), s.history)
    ensures !BreakOk(c, s, cause)
  {
    if BreakOk(c, s, cause) {
      match cause
      case Interruption =>
        var k :| 0 <= k < |s.active| && WorkerDisturbs(c, s.active[k]);
        NobodyDisturbs(c, s, k);
      case ResultRaised(item, report) =>
        var k :| 0 <= k < |s.active| && s.active[k].item == item;
        ActiveWorks(c, s, k);
        AcceptedDoesNotRaise(c, item, report);
    }
  }
}
