/** What a run of the scheduler looks like from outside: which worker processes were started, how each of them ended and
    what it reported. `HistoryOk` and `ClosingsOk` are what every run keeps; the lemmas draw the consequences. */
module RunHistory {
  import opened Outcomes
  import opened PlanTypes
  import opened BatchTypes
  import opened TagSchedule
  import opened BatchSchedule
  import WorkerResult

  /** `Uncleaned`: the kill or the exit of the process tree could not be confirmed. */
  datatype Ending = Success | Failure | Uncleaned

  /** How the end of a worker was observed: its exit code and the document in its result file, or `None` when that could
      not be read; or a kill, confirmed or not. */
  datatype Report = Exited(exitCode: int, payload: Option<WorkerResult.Json>) | Killed(confirmed: bool)

  /** `NotLaunched`: the start of the process failed, or the memory gate refused a segment. */
  datatype Action =
    | Launched(item: WorkItem)
    | NotLaunched(item: WorkItem)
    | Closed(item: WorkItem, ending: Ending, report: Report)

  // What a report is worth

  /** The result that the coordinator accepts: it keeps the contract and agrees with the exit code. */
  function AcceptedOf(batchRun: string, item: WorkItem, report: Report): Option<WorkerResult.Accepted> {
    if report.Exited? && report.payload.Some? then
      var v := WorkerResult.ValidateWorkerResult(report.payload.value, item, WorkerResult.RunIdText(batchRun, item));
      if v.Valid? && WorkerResult.EqualsInt(v.result.exitCode, report.exitCode) then Some(v.result) else None
    else None
  }

  predicate AcceptedSuccess(batchRun: string, item: WorkItem, report: Report) {
    AcceptedOf(batchRun, item, report).Some? && AcceptedOf(batchRun, item, report).value.succeeded
  }

  /** The document makes the validator raise a TypeError. */
  ghost predicate TypeErrorOn(batchRun: string, item: WorkItem, report: Report) {
    && report.Exited? && report.payload.Some?
    && WorkerResult.UnhashableStatus(report.payload.value, item, WorkerResult.RunIdText(batchRun, item))
  }

  function EndingOf(batchRun: string, item: WorkItem, report: Report): Ending {
    match report
    case Killed(confirmed) => if confirmed then Failure else Uncleaned
    case Exited(_, _) => if AcceptedSuccess(batchRun, item, report) then Success else Failure
  }

  /** What an action adds to the totals: the counts of an accepted result, otherwise all nodes as failed. */
  function CountsOf(batchRun: string, a: Action): WorkerResult.Counts {
    match a
    case Launched(_) => WorkerResult.Counts(0, 0, 0)
    case NotLaunched(item) => WorkerResult.Counts(0, |item.nodeIds|, 0)
    case Closed(item, _, report) =>
      var accepted := AcceptedOf(batchRun, item, report);
      if accepted.Some? then accepted.value.counts else WorkerResult.Counts(0, |item.nodeIds|, 0)
  }

  function Added(a: WorkerResult.Counts, b: WorkerResult.Counts): WorkerResult.Counts {
    WorkerResult.Counts(a.successful + b.successful, a.failed + b.failed, a.skipped + b.skipped)
  }

  function BookedCounts(batchRun: string, h: seq<Action>): WorkerResult.Counts {
    if h == [] then WorkerResult.Counts(0, 0, 0)
    else Added(BookedCounts(batchRun, h[..|h| - 1]), CountsOf(batchRun, h[|h| - 1]))
  }

  lemma BookedOne(batchRun: string, h: seq<Action>, a: Action)
    ensures BookedCounts(batchRun, h + [a]) == Added(BookedCounts(batchRun, h), CountsOf(batchRun, a))
  {
    assert (h + [a])[..|h|] == h;
  }

  // Open workers

  function Without(items: seq<WorkItem>, item: WorkItem): (rest: seq<WorkItem>)
    ensures |rest| <= |items|
    ensures forall x :: x in rest ==> x in items
  {
    if items == [] then []
    else if items[0] == item then items[1..]
    else [items[0]] + Without(items[1..], item)
  }

  lemma {:induction false} WithoutMiddle(before: seq<WorkItem>, item: WorkItem, after: seq<WorkItem>)
    requires item !in before
    ensures Without(before + [item] + after, item) == before + after
  {
    var all := before + [item] + after;
    if before == [] {
      assert all == [item] + after;
      assert all[1..] == after;
      assert before + after == after;
    } else {
      WithoutMiddle(before[1..], item, after);
      assert all[1..] == before[1..] + [item] + after;
      assert [before[0]] + (before[1..] + after) == before + after;
    }
  }

  function OpenAfter(open: seq<WorkItem>, action: Action): seq<WorkItem> {
    match action
    case Launched(item) => open + [item]
    case NotLaunched(_) => open
    case Closed(item, _, _) => Without(open, item)
  }

  /** The items whose worker runs after the actions of `h`. */
  function Open(h: seq<Action>): seq<WorkItem> {
    if h == [] then [] else OpenAfter(Open(h[..|h| - 1]), h[|h| - 1])
  }

  lemma OpenOne(h: seq<Action>, action: Action)
    ensures Open(h + [action]) == OpenAfter(Open(h), action)
  {
    assert (h + [action])[..|h|] == h;
  }

  ghost predicate NoneUncleaned(h: seq<Action>) {
    forall i :: 0 <= i < |h| && h[i].Closed? ==> h[i].ending != Uncleaned
  }

  predicate IsWin(a: Action, item: WorkItem) {
    a.Closed? && a.item == item && a.ending == Success
  }

  /** The item's worker has ended with success. */
  ghost predicate Won(h: seq<Action>, item: WorkItem) {
    exists a :: a in h && IsWin(a, item)
  }

  lemma WonOne(h: seq<Action>, a: Action, item: WorkItem)
    ensures Won(h + [a], item) <==> Won(h, item) || IsWin(a, item)
  {
    if Won(h, item) {
      var b :| b in h && IsWin(b, item);
      assert b in h + [a];
    }
    if IsWin(a, item) {
      assert a in h + [a];
    }
  }

  ghost predicate AllSucceeded(items: seq<WorkItem>, h: seq<Action>) {
    forall i :: 0 <= i < |items| ==> Won(h, items[i])
  }

  /** A closing ends a running worker, its ending is what the report says, and the report did not raise. */
  ghost predicate MayClose(batchRun: string, before: seq<Action>, a: Action)
    requires a.Closed?
  {
    && a.item in Open(before)
    && a.ending == EndingOf(batchRun, a.item, a.report)
    && !TypeErrorOn(batchRun, a.item, a.report)
  }

  ghost predicate ClosingsOk(batchRun: string, h: seq<Action>) {
    forall i :: 0 <= i < |h| && h[i].Closed? ==> MayClose(batchRun, h[..i], h[i])
  }

  lemma ClosingsExtend(batchRun: string, h: seq<Action>, a: Action)
    requires ClosingsOk(batchRun, h) && (a.Closed? ==> MayClose(batchRun, h, a))
    ensures ClosingsOk(batchRun, h + [a])
  {
    hide MayClose;
    var longer := h + [a];
    forall i | 0 <= i < |longer| && longer[i].Closed? ensures MayClose(batchRun, longer[..i], longer[i]) {
      if i < |h| {
        assert longer[..i] == h[..i];
      } else {
        assert longer[..i] == h;
      }
    }
  }

  /** Every success stands for an accepted result that says so. */
  lemma WonMeansAccepted(batchRun: string, h: seq<Action>, item: WorkItem)
    requires ClosingsOk(batchRun, h)
    ensures Won(h, item) <==> exists a :: a in h && SuccessReported(batchRun, a, item)
  {
    hide WorkerResult.ValidateWorkerResult;
    forall a | a in h
      ensures IsWin(a, item) <==> SuccessReported(batchRun, a, item)
    {
      var i :| 0 <= i < |h| && h[i] == a;
      if a.Closed? {
        assert MayClose(batchRun, h[..i], a);
      }
    }
  }

  predicate SuccessReported(batchRun: string, a: Action, item: WorkItem) {
    a.Closed? && a.item == item && AcceptedSuccess(batchRun, item, a.report)
  }

  /** When a worker may be started. */
  ghost predicate MayLaunch(schedule: Schedule, limit: nat, before: seq<Action>, item: WorkItem) {
    && Launched(item) !in before
    && NoneUncleaned(before)
    && |Open(before)| < (if item.phase == Parallel then limit else 1)
    && (forall i :: 0 <= i < |Open(before)| ==> Open(before)[i].binary != item.binary)
    && (if item.phase == Parallel then item in schedule.parallelItems
        else exists k :: MayLaunchSegment(schedule, before, item, k))
  }

  ghost predicate MayLaunchSegment(schedule: Schedule, before: seq<Action>, item: WorkItem, k: nat) {
    && k < |schedule.serialItems| && schedule.serialItems[k] == item
    && AllSucceeded(schedule.parallelItems, before)
    && AllSucceeded(schedule.serialItems[..k], before)
  }

  ghost predicate HistoryOk(schedule: Schedule, limit: nat, h: seq<Action>) {
    forall i :: 0 <= i < |h| && h[i].Launched? ==> MayLaunch(schedule, limit, h[..i], h[i].item)
  }

  lemma HistoryExtend(schedule: Schedule, limit: nat, h: seq<Action>, action: Action)
    requires HistoryOk(schedule, limit, h)
    requires action.Launched? ==> MayLaunch(schedule, limit, h, action.item)
    ensures HistoryOk(schedule, limit, h + [action])
    ensures NoneUncleaned(h) && (action.Closed? ==> action.ending != Uncleaned) ==> NoneUncleaned(h + [action])
  {
    var longer := h + [action];
    forall i | 0 <= i < |longer| && longer[i].Launched? ensures MayLaunch(schedule, limit, longer[..i], longer[i].item) {
      if i < |h| {
        assert longer[..i] == h[..i];
      } else {
        assert longer[..i] == h;
      }
    }
  }

  // ---------------------------------------------------------------------------------------------
  // Dependency order of every run.

  /** `key` is worked on before place `b` of the item launched at `j`. */
  ghost predicate DoneBefore(h: seq<Action>, j: nat, item: WorkItem, b: nat, key: NodeKey) {
    || (exists a: nat :: a < b && At([item], 0, a, key))
    || (exists i, a: nat :: 0 <= i < j && i < |h| && IsWin(h[i], h[i].item) && At([h[i].item], 0, a, key))
  }

  lemma DoneByClosed(h: seq<Action>, j: nat, item: WorkItem, b: nat, key: NodeKey, other: WorkItem, a: nat)
    requires j < |h| && Won(h[..j], other) && At([other], 0, a, key)
    ensures DoneBefore(h, j, item, b, key)
  {
    var x :| x in h[..j] && IsWin(x, other);
    var i :| 0 <= i < |h[..j]| && h[..j][i] == x;
    assert h[i] == x && IsWin(h[i], h[i].item);
  }

  /** For a parallel item: its scheduled predecessors are in the same item, earlier. */
  lemma ParallelDone(schedule: Schedule, h: seq<Action>, j: nat, e: KeyEdge, i: nat, b: nat)
    requires Respects(schedule.parallelItems, schedule.serialItems, e)
    requires At(schedule.parallelItems, i, b, e.target)
    requires e.source in Flat(schedule.parallelItems) || e.source in Flat(schedule.serialItems)
    ensures DoneBefore(h, j, schedule.parallelItems[i], b, e.source)
  {
    AtFlat(schedule.parallelItems, i, b, e.target);
    var i', a := FlatHas(schedule.parallelItems, e.source);
    assert At([schedule.parallelItems[i]], 0, a, e.source);
  }

  /** For a segment: they are in the same segment, earlier, or in an item that has succeeded. */
  lemma SerialDone(schedule: Schedule, h: seq<Action>, j: nat, e: KeyEdge, k: nat, b: nat)
    requires Respects(schedule.parallelItems, schedule.serialItems, e)
    requires At(schedule.serialItems, k, b, e.target) && j < |h|
    requires AllSucceeded(schedule.parallelItems, h[..j]) && AllSucceeded(schedule.serialItems[..k], h[..j])
    requires e.source in Flat(schedule.parallelItems) || e.source in Flat(schedule.serialItems)
    ensures DoneBefore(h, j, schedule.serialItems[k], b, e.source)
  {
    var items := schedule.serialItems;
    if e.source in Flat(schedule.parallelItems) {
      var i, a := FlatHas(schedule.parallelItems, e.source);
      DoneByClosed(h, j, items[k], b, e.source, schedule.parallelItems[i], a);
    } else {
      var k', a := FlatHas(items, e.source);
      FlatAt(items, k', a);
      FlatAt(items, k, b);
      if k' < k {
        assert items[..k][k'] == items[k'];
        DoneByClosed(h, j, items[k], b, e.source, items[k'], a);
      } else {
        if k' > k {
          StartMonotone(items, k, k');
        }
        assert At([items[k]], 0, a, e.source);
      }
    }
  }

  /** End-to-end dependency order: whenever a worker is started, every scheduled predecessor of each
      of its nodes is earlier in the same item or in an item that has already succeeded. */
  lemma EveryLaunchInOrder(plans: seq<TagPlan>, schedule: Schedule, limit: nat, h: seq<Action>,
                           j: nat, p: nat, e: Edge, b: nat)
    requires ScheduleFor(plans, schedule) && HistoryOk(schedule, limit, h)
    requires j < |h| && h[j].Launched? && b < |h[j].item.nodeIds|
    requires p < |plans| && e in plans[p].edges && PlanOrdered(plans[p].nodes, plans[p].edges)
    requires ItemKeys(h[j].item)[b] == Keyed(plans[p].tag, e).target
    requires var source := Keyed(plans[p].tag, e).source;
             source in Flat(schedule.parallelItems) || source in Flat(schedule.serialItems)
    ensures DoneBefore(h, j, h[j].item, b, Keyed(plans[p].tag, e).source)
  {
    var item, k := h[j].item, Keyed(plans[p].tag, e);
    assert MayLaunch(schedule, limit, h[..j], item);
    assert Respects(schedule.parallelItems, schedule.serialItems, k);
    if item.phase == Parallel {
      var i :| 0 <= i < |schedule.parallelItems| && schedule.parallelItems[i] == item;
      ParallelDone(schedule, h, j, k, i, b);
    } else {
      var i :| MayLaunchSegment(schedule, h[..j], item, i);
      SerialDone(schedule, h, j, k, i, b);
    }
  }

  lemma HistoryPrefix(schedule: Schedule, limit: nat, h: seq<Action>, n: nat)
    requires HistoryOk(schedule, limit, h) && n <= |h|
    ensures HistoryOk(schedule, limit, h[..n])
  {
    hide MayLaunch;
    forall i | 0 <= i < n && h[..n][i].Launched? ensures MayLaunch(schedule, limit, h[..n][..i], h[..n][i].item) {
      assert h[..n][..i] == h[..i];
    }
  }

  /** At most `limit` workers run at once (one, if there is no parallel item to limit), always on distinct binaries. */
  lemma {:induction false} BoundedConcurrency(schedule: Schedule, limit: nat, h: seq<Action>)
    requires HistoryOk(schedule, limit, h)
    ensures |Open(h)| <= if limit == 0 then 1 else limit
    ensures forall x, y :: 0 <= x < y < |Open(h)| ==> Open(h)[x].binary != Open(h)[y].binary
  {
    hide AllSucceeded;
    if h != [] {
      var last := h[|h| - 1];
      HistoryPrefix(schedule, limit, h, |h| - 1);
      BoundedConcurrency(schedule, limit, h[..|h| - 1]);
      match last {
        case Launched(_) =>
          assert MayLaunch(schedule, limit, h[..|h| - 1], last.item);
          hide HistoryOk;
        case NotLaunched(_) =>
        case Closed(_, _, _) => WithoutDistinct(Open(h[..|h| - 1]), last.item);
      }
    }
  }

  lemma {:induction false} OpenWasLaunched(h: seq<Action>, item: WorkItem)
    requires item in Open(h)
    ensures Launched(item) in h
  {
    var init, last := h[..|h| - 1], h[|h| - 1];
    if last != Launched(item) {
      OpenWasLaunched(init, item);
    }
  }

  lemma WonWasLaunched(batchRun: string, h: seq<Action>, item: WorkItem)
    requires ClosingsOk(batchRun, h) && Won(h, item)
    ensures Launched(item) in h
  {
    var a :| a in h && IsWin(a, item);
    var i :| 0 <= i < |h| && h[i] == a;
    assert MayClose(batchRun, h[..i], a);
    OpenWasLaunched(h[..i], item);
  }

  /** From the first segment on, never more than one worker runs, and no parallel item is started. */
  lemma {:induction false} SerialTail(schedule: Schedule, limit: nat, batchRun: string, h: seq<Action>, j: nat, n: nat)
    requires HistoryOk(schedule, limit, h) && ClosingsOk(batchRun, h)
    requires j < n <= |h| && h[j].Launched? && h[j].item.phase == Serial
    ensures |Open(h[..n])| <= 1
    ensures h[n - 1].Launched? ==> h[n - 1].item.phase == Serial
    decreases n
  {
    hide ClosingsOk;
    hide AllSucceeded;
    var last := h[n - 1];
    assert h[..n] == h[..n - 1] + [last];
    OpenOne(h[..n - 1], last);
    if last.Launched? {
      assert MayLaunch(schedule, limit, h[..n - 1], last.item);
      if last.item.phase == Parallel {
        AlreadyLaunched(schedule, limit, batchRun, h, j, n - 1);
        assert false;
      }
    } else {
      SerialTail(schedule, limit, batchRun, h, j, n - 1);
    }
  }

  /** No parallel item can be started behind a segment: all of them have been. */
  lemma AlreadyLaunched(schedule: Schedule, limit: nat, batchRun: string, h: seq<Action>, j: nat, n: nat)
    requires HistoryOk(schedule, limit, h) && ClosingsOk(batchRun, h)
    requires j <= n < |h| && h[j].Launched? && h[j].item.phase == Serial && h[n].Launched?
    ensures h[n].item.phase == Serial
  {
    if h[n].item.phase == Parallel {
      var item := h[n].item;
      assert MayLaunch(schedule, limit, h[..n], item);
      assert MayLaunch(schedule, limit, h[..j], h[j].item);
      var k :| MayLaunchSegment(schedule, h[..j], h[j].item, k);
      var i :| 0 <= i < |schedule.parallelItems| && schedule.parallelItems[i] == item;
      assert Won(h[..j], item);
      ClosingsPrefix(batchRun, h, j);
      WonWasLaunched(batchRun, h[..j], item);
      assert false;
    }
  }

  lemma ClosingsPrefix(batchRun: string, h: seq<Action>, n: nat)
    requires ClosingsOk(batchRun, h) && n <= |h|
    ensures ClosingsOk(batchRun, h[..n])
  {
    hide MayClose;
    forall i | 0 <= i < n && h[..n][i].Closed? ensures MayClose(batchRun, h[..n][..i], h[..n][i]) {
      assert h[..n][..i] == h[..i];
    }
  }

  lemma {:induction false} WithoutDistinct(items: seq<WorkItem>, item: WorkItem)
    requires forall x, y :: 0 <= x < y < |items| ==> items[x].binary != items[y].binary
    ensures forall x, y :: 0 <= x < y < |Without(items, item)| ==>
              Without(items, item)[x].binary != Without(items, item)[y].binary
  {
    if items != [] && items[0] != item {
      var tail := items[1..];
      WithoutDistinct(tail, item);
      var rest := Without(tail, item);
      forall y | 0 <= y < |rest| ensures rest[y].binary != items[0].binary {
        assert rest[y] in rest;
        assert rest[y] in tail;
        var k :| 0 <= k < |tail| && tail[k] == rest[y];
        assert items[0].binary != items[k + 1].binary;
      }
    }
  }

  /** After one unconfirmed kill nothing is ever started again. */
  lemma NothingAfterUncleaned(schedule: Schedule, limit: nat, h: seq<Action>, i: nat, j: nat)
    requires HistoryOk(schedule, limit, h)
    requires i < j < |h| && h[i].Closed? && h[i].ending == Uncleaned
    ensures !h[j].Launched?
  {
    assert h[..j][i] == h[i];
    assert !NoneUncleaned(h[..j]);
  }

  /** No item is started twice. */
  lemma LaunchedOnce(schedule: Schedule, limit: nat, h: seq<Action>, i: nat, j: nat)
    requires HistoryOk(schedule, limit, h)
    requires i < j < |h| && h[i].Launched? && h[j].Launched?
    ensures h[i].item != h[j].item
  {
    assert MayLaunch(schedule, limit, h[..j], h[j].item);
    assert h[..j][i] == h[i];
  }

  /** The success barrier: a started segment has every parallel item behind it, succeeded. */
  lemma Barrier(schedule: Schedule, limit: nat, h: seq<Action>, j: nat, i: nat)
    requires HistoryOk(schedule, limit, h)
    requires j < |h| && h[j].Launched? && h[j].item.phase == Serial && i < |schedule.parallelItems|
    ensures Won(h[..j], schedule.parallelItems[i]) && Open(h[..j]) == []
  {
    assert MayLaunch(schedule, limit, h[..j], h[j].item);
    var k :| MayLaunchSegment(schedule, h[..j], h[j].item, k);
  }
}
