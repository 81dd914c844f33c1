/** The result file between a worker process and the coordinator: what the coordinator accepts (`validate_worker_result`)
    and what a worker writes (end of the worker entry point in `ida_analyze_bin.py`). */
module WorkerResult {
  import opened PlanTypes
  import opened BatchTypes

  /** The object keys that the contract names; any other key is `OtherField`. */
  datatype Field =
    | SchemaVersion | RunId | WorkItemId | PhaseField | Tag | ModuleField | Platform | BinaryRelativePath
    | NodeIds | NodeResults | Status | ExitCode | Summary | FailureReasonField
    | NodeIdField | ReasonField | SuccessfulCount | FailedCount | SkippedCount
    | OtherField(name: string)

  /** A decoded JSON document; numbers are integers. */
  datatype Json =
    | JNull
    | JBool(flag: bool)
    | JInt(number: int)
    | JText(text: string)
    | JList(elements: seq<Json>)
    | JObject(fields: map<Field, Json>)

  datatype Counts = Counts(successful: nat, failed: nat, skipped: nat)

  datatype Accepted = Accepted(succeeded: bool, exitCode: Json, counts: Counts)

  /** `Raised` is a TypeError, which the coordinator does not catch as a contract violation. */
  datatype Verdict = Valid(result: Accepted) | Invalid | Raised

  const RESULT_KEYS: set<Field> := {
    SchemaVersion, RunId, WorkItemId, PhaseField, Tag, ModuleField, Platform,
    BinaryRelativePath, NodeIds, NodeResults, Status, ExitCode, Summary, FailureReasonField
  }

  // ---------------------------------------------------------------------------------------------
  // Identity of an item as text.

  function Decimal(n: nat): string {
    if n < 10 then [Digit(n)] else Decimal(n / 10) + [Digit(n % 10)]
  }

  function Digit(n: nat): char
    requires n < 10
  {
    "0123456789"[n]
  }

  function Padded(s: string): string
    decreases 4 - |s|
  {
    if |s| >= 4 then s else Padded("0" + s)
  }

  function PhaseText(phase: Phase): string {
    match phase
    case Parallel => "parallel"
    case Serial => "serial"
  }

  function IdText(id: ItemId): string {
    PhaseText(id.phase) + "-" + Padded(Decimal(id.index))
  }

  function RunIdText(batchRunId: string, item: WorkItem): string {
    batchRunId + "-" + IdText(item.id)
  }

  function Texts(ids: seq<NodeId>): (texts: seq<Json>)
    ensures |texts| == |ids|
  {
    seq(|ids|, i requires 0 <= i < |ids| => JText(ids[i].text))
  }

  // ---------------------------------------------------------------------------------------------
  // The validator.

  /** Python's `==` between an integer and a JSON value: booleans count as 0 and 1. */
  predicate EqualsInt(value: Json, n: int) {
    match value
    case JInt(m) => m == n
    case JBool(b) => n == if b then 1 else 0
    case _ => false
  }

  predicate Hashable(value: Json) {
    !value.JList? && !value.JObject?
  }

  predicate IdentityMatches(f: map<Field, Json>, runId: string, item: WorkItem)
    requires f.Keys == RESULT_KEYS
  {
    && EqualsInt(f[SchemaVersion], 1)
    && f[RunId] == JText(runId)
    && f[WorkItemId] == JText(IdText(item.id))
    && f[PhaseField] == JText(PhaseText(item.phase))
    && f[Tag] == JText(item.binary.tag)
    && f[ModuleField] == JText(item.binary.key.moduleName)
    && f[Platform] == JText(item.binary.key.platform)
    && f[BinaryRelativePath] == JText(item.binary.path)
    && f[NodeIds] == JList(Texts(item.nodeIds))
  }

  predicate Reason(value: Json) {
    value.JNull? || value.JText?
  }

  predicate Count(value: Json) {
    value.JInt? && value.number >= 0
  }

  /** One element of `node_results`; `Raised` when its status cannot be looked up. */
  datatype EntryVerdict = EntryOk | EntryBad | EntryRaised

  function CheckEntry(entry: Json): EntryVerdict {
    if !entry.JObject? || entry.fields.Keys != {NodeIdField, Status, ReasonField} then EntryBad
    else if !Hashable(entry.fields[Status]) then EntryRaised
    else if entry.fields[Status] !in {JText("succeeded"), JText("failed"), JText("skipped"), JText("aborted")} then EntryBad
    else if !Reason(entry.fields[ReasonField]) then EntryBad
    else EntryOk
  }

  /** Element `i` is the first that is not accepted. */
  ghost predicate FirstRejected(entries: seq<Json>, i: nat) {
    && i < |entries| && CheckEntry(entries[i]) != EntryOk
    && forall k :: 0 <= k < i ==> CheckEntry(entries[k]) == EntryOk
  }

  /** The first element that is not accepted decides. */
  function CheckEntries(entries: seq<Json>): (v: EntryVerdict)
    ensures v == EntryOk <==> forall i :: 0 <= i < |entries| ==> CheckEntry(entries[i]) == EntryOk
    ensures forall i: nat :: FirstRejected(entries, i) ==> v == CheckEntry(entries[i])
  {
    assert forall i: nat :: i > 0 && FirstRejected(entries, i) ==> FirstRejected(entries[1..], i - 1);
    if entries == [] then EntryOk
    else if CheckEntry(entries[0]) == EntryOk then CheckEntries(entries[1..])
    else CheckEntry(entries[0])
  }

  predicate EntriesOk(entries: seq<Json>) {
    forall i :: 0 <= i < |entries| ==> CheckEntry(entries[i]) == EntryOk
  }

  /** How often each kind of terminal status occurs; every other status counts as failed. */
  function Tally(entries: seq<Json>): (c: Counts)
    requires EntriesOk(entries)
    ensures c.successful + c.failed + c.skipped == |entries|
  {
    if entries == [] then Counts(0, 0, 0)
    else
      var (init, last) := (entries[..|entries| - 1], entries[|entries| - 1]);
      assert CheckEntry(last) == EntryOk;
      var c := Tally(init);
      if last.fields[Status] == JText("succeeded") then c.(successful := c.successful + 1)
      else if last.fields[Status] == JText("skipped") then c.(skipped := c.skipped + 1)
      else c.(failed := c.failed + 1)
  }

  function NodeIdsOf(entries: seq<Json>): (ids: seq<Json>)
    requires EntriesOk(entries)
    ensures |ids| == |entries|
  {
    seq(|entries|, i requires 0 <= i < |entries| =>
      assert CheckEntry(entries[i]) == EntryOk; entries[i].fields[NodeIdField])
  }

  function ValidateWorkerResult(payload: Json, item: WorkItem, runId: string): Verdict {
    if !payload.JObject? || payload.fields.Keys != RESULT_KEYS then Invalid
    else
      var f := payload.fields;
      if !IdentityMatches(f, runId, item) then Invalid
      else if !Hashable(f[Status]) then Raised
      else if f[Status] !in {JText("succeeded"), JText("failed")} then Invalid
      else if !Reason(f[FailureReasonField]) then Invalid
      else if !f[Summary].JObject? || f[Summary].fields.Keys != {SuccessfulCount, FailedCount, SkippedCount} then Invalid
      else ValidateDetail(f, item)
  }

  function ValidateDetail(f: map<Field, Json>, item: WorkItem): Verdict
    requires f.Keys == RESULT_KEYS
    requires f[Summary].JObject? && f[Summary].fields.Keys == {SuccessfulCount, FailedCount, SkippedCount}
  {
    var s := f[Summary].fields;
    if !Count(s[SuccessfulCount]) || !Count(s[FailedCount]) || !Count(s[SkippedCount]) then Invalid
    else if !f[NodeResults].JList? then Invalid
    else
      var entries := f[NodeResults].elements;
      var counts := Counts(s[SuccessfulCount].number, s[FailedCount].number, s[SkippedCount].number);
      match CheckEntries(entries)
      case EntryBad => Invalid
      case EntryRaised => Raised
      case EntryOk =>
        if NodeIdsOf(entries) != Texts(item.nodeIds) then Invalid
        else if Tally(entries) != counts then Invalid
        else
          var succeeded := f[Status] == JText("succeeded");
          if succeeded && (!EqualsInt(f[ExitCode], 0) || counts.failed != 0 || f[FailureReasonField] != JNull) then Invalid
          else Valid(Accepted(succeeded, f[ExitCode], counts))
  }

  lemma RejectedFirst(entries: seq<Json>) returns (i: nat)
    requires CheckEntries(entries) != EntryOk
    ensures FirstRejected(entries, i)
  {
    hide CheckEntry;
    i := 0;
    while CheckEntry(entries[i]) == EntryOk
      invariant i < |entries| && forall k :: 0 <= k < i ==> CheckEntry(entries[k]) == EntryOk
      decreases |entries| - i
    {
      if i + 1 == |entries| {
        assert forall k :: 0 <= k < |entries| ==> CheckEntry(entries[k]) == EntryOk;
      }
      i := i + 1;
    }
  }

  predicate SummaryComplete(summary: Json) {
    && summary.JObject? && summary.fields.Keys == {SuccessfulCount, FailedCount, SkippedCount}
    && Count(summary.fields[SuccessfulCount]) && Count(summary.fields[FailedCount]) && Count(summary.fields[SkippedCount])
  }

  predicate EntryStatusUnhashable(entry: Json) {
    entry.JObject? && entry.fields.Keys == {NodeIdField, Status, ReasonField} && !Hashable(entry.fields[Status])
  }

  /** A list or an object as the status of the result, or of its first rejected node entry, with everything that is
      checked before it in order. */
  ghost predicate UnhashableStatus(payload: Json, item: WorkItem, runId: string) {
    && payload.JObject? && payload.fields.Keys == RESULT_KEYS
    && IdentityMatches(payload.fields, runId, item)
    && (|| !Hashable(payload.fields[Status])
        || (&& payload.fields[Status] in {JText("succeeded"), JText("failed")}
            && Reason(payload.fields[FailureReasonField])
            && SummaryComplete(payload.fields[Summary])
            && payload.fields[NodeResults].JList?
            && exists i: nat :: UnhashableAt(payload.fields[NodeResults].elements, i)))
  }

  ghost predicate UnhashableAt(entries: seq<Json>, i: nat) {
    FirstRejected(entries, i) && EntryStatusUnhashable(entries[i])
  }

  lemma EntriesRaise(entries: seq<Json>)
    ensures CheckEntries(entries) == EntryRaised <==> exists i: nat :: UnhashableAt(entries, i)
  {
    hide CheckEntries;
    if CheckEntries(entries) != EntryOk {
      var i := RejectedFirst(entries);
      assert CheckEntries(entries) == CheckEntry(entries[i]);
      if CheckEntry(entries[i]) == EntryRaised {
        assert UnhashableAt(entries, i);
      }
    }
  }

  /** Validation raises exactly on these documents. */
  lemma RaisesExactly(payload: Json, item: WorkItem, runId: string)
    ensures ValidateWorkerResult(payload, item, runId) == Raised <==> UnhashableStatus(payload, item, runId)
  {
    hide IdentityMatches;
    hide CheckEntries;
    hide UnhashableAt;
    hide Tally;
    hide NodeIdsOf;
    hide EntriesOk;
    if payload.JObject? && payload.fields.Keys == RESULT_KEYS && payload.fields[NodeResults].JList? {
      EntriesRaise(payload.fields[NodeResults].elements);
    }
  }

  // How often each status occurs

  function Places(entries: seq<Json>, status: string): set<nat>
    requires EntriesOk(entries)
  {
    set i: nat | i < |entries| && StatusIs(entries, i, status)
  }

  predicate StatusIs(entries: seq<Json>, i: nat, status: string)
    requires EntriesOk(entries) && i < |entries|
  {
    assert CheckEntry(entries[i]) == EntryOk;
    entries[i].fields[Status] == JText(status)
  }

  lemma PlacesGrow(entries: seq<Json>, status: string)
    requires EntriesOk(entries) && entries != []
    ensures var n := |entries| - 1;
            |Places(entries, status)| == |Places(entries[..n], status)| + if StatusIs(entries, n, status) then 1 else 0
  {
    var n := |entries| - 1;
    var before := Places(entries[..n], status);
    assert n !in before;
    assert Places(entries, status) == before + if StatusIs(entries, n, status) then {n} else {};
  }

  /** Successes and skips are counted as such, failed and aborted nodes as failed. */
  lemma {:induction false} TallyCounts(entries: seq<Json>)
    requires EntriesOk(entries)
    ensures Tally(entries).successful == |Places(entries, "succeeded")|
    ensures Tally(entries).skipped == |Places(entries, "skipped")|
    ensures Tally(entries).failed == |Places(entries, "failed")| + |Places(entries, "aborted")|
  {
    if entries == [] {
      assert Places(entries, "succeeded") == {} && Places(entries, "skipped") == {};
      assert Places(entries, "failed") == {} && Places(entries, "aborted") == {};
    } else {
      var n := |entries| - 1;
      TallyCounts(entries[..n]);
      PlacesGrow(entries, "succeeded");
      PlacesGrow(entries, "skipped");
      PlacesGrow(entries, "failed");
      PlacesGrow(entries, "aborted");
      hide Places;
      DifferentTexts();
      assert CheckEntry(entries[n]) == EntryOk;
    }
  }

  /** Node conservation of one accepted result. */
  lemma AcceptedCounts(payload: Json, item: WorkItem, runId: string)
    requires ValidateWorkerResult(payload, item, runId).Valid?
    ensures var r := ValidateWorkerResult(payload, item, runId).result;
            && r.counts.successful + r.counts.failed + r.counts.skipped == |item.nodeIds|
            && (r.succeeded ==> r.counts.failed == 0 && EqualsInt(r.exitCode, 0))
  {
    var entries := payload.fields[NodeResults].elements;
    assert |entries| == |Texts(item.nodeIds)|;
  }

  lemma IdentityIgnoresStatus(f: map<Field, Json>, status: Json, runId: string, item: WorkItem)
    requires f.Keys == RESULT_KEYS && IdentityMatches(f, runId, item)
    ensures f[Status := status].Keys == RESULT_KEYS && IdentityMatches(f[Status := status], runId, item)
  {
    assert f[Status := status].Keys == f.Keys + {Status};
  }

  /** A status that is a list or an object is not rejected but raises. */
  lemma UnhashableStatusRaises(item: WorkItem, runId: string) returns (payload: Json)
    ensures ValidateWorkerResult(payload, item, runId) == Raised
  {
    hide WorkerPayload;
    hide IdentityMatches;
    var ends := seq(|item.nodeIds|, i => Skipped);
    var good := WorkerPayload(item, runId, ends, None);
    WrittenIdentity(item, runId, ends, None);
    IdentityIgnoresStatus(good.fields, JList([]), runId, item);
    payload := JObject(good.fields[Status := JList([])]);
  }

  // ---------------------------------------------------------------------------------------------
  // The writer.

  /** What the worker's recorder knows about a node at the end. */
  datatype NodeEnd = Succeeded | Failed | Skipped | Aborted | NotExecuted

  datatype FailureReason = None | Because(text: string)

  function EntryOf(id: NodeId, end: NodeEnd, reason: FailureReason): Json {
    match end
    case Succeeded => Entry(id, "succeeded", JNull)
    case Skipped => Entry(id, "skipped", JNull)
    case Aborted => Entry(id, "aborted", JText("lifecycle_abort"))
    case Failed => Entry(id, "failed", JText(if reason.Because? && reason.text != "" then reason.text else "node_failed"))
    case NotExecuted => Entry(id, "aborted", JText("not_executed"))
  }

  function Entry(id: NodeId, status: string, reason: Json): Json {
    JObject(map[NodeIdField := JText(id.text), Status := JText(status), ReasonField := reason])
  }

  function EntriesOf(ids: seq<NodeId>, ends: seq<NodeEnd>, reason: FailureReason): (entries: seq<Json>)
    requires |ends| == |ids|
    ensures |entries| == |ids|
  {
    seq(|ids|, i requires 0 <= i < |ids| => EntryOf(ids[i], ends[i], reason))
  }

  lemma EntriesOfOk(ids: seq<NodeId>, ends: seq<NodeEnd>, reason: FailureReason)
    requires |ends| == |ids|
    ensures EntriesOk(EntriesOf(ids, ends, reason))
    ensures NodeIdsOf(EntriesOf(ids, ends, reason)) == Texts(ids)
  {}

  function SummaryOf(c: Counts): (summary: Json)
    ensures summary.JObject?
  {
    JObject(map[SuccessfulCount := JInt(c.successful), FailedCount := JInt(c.failed), SkippedCount := JInt(c.skipped)])
  }

  function WorkerPayload(item: WorkItem, runId: string, ends: seq<NodeEnd>, reason: FailureReason): (payload: Json)
    requires |ends| == |item.nodeIds|
    ensures payload.JObject? && payload.fields.Keys == RESULT_KEYS
  {
    var entries := EntriesOf(item.nodeIds, ends, reason);
    EntriesOfOk(item.nodeIds, ends, reason);
    var counts := Tally(entries);
    var succeeded := reason == None && counts.failed == 0;
    JObject(map[
      SchemaVersion := JInt(1),
      RunId := JText(runId),
      WorkItemId := JText(IdText(item.id)),
      PhaseField := JText(PhaseText(item.phase)),
      Tag := JText(item.binary.tag),
      ModuleField := JText(item.binary.key.moduleName),
      Platform := JText(item.binary.key.platform),
      BinaryRelativePath := JText(item.binary.path),
      NodeIds := JList(Texts(item.nodeIds)),
      NodeResults := JList(entries),
      Status := JText(if succeeded then "succeeded" else "failed"),
      ExitCode := JInt(if succeeded then 0 else 1),
      Summary := SummaryOf(counts),
      FailureReasonField := if reason.Because? then JText(reason.text) else JNull
    ])
  }

  /** The coordinator accepts every result a worker writes for its own item, and reads back what was counted. */
  lemma WrittenIsAccepted(item: WorkItem, runId: string, ends: seq<NodeEnd>, reason: FailureReason)
    requires |ends| == |item.nodeIds|
    ensures ValidateWorkerResult(WorkerPayload(item, runId, ends, reason), item, runId).Valid?
    ensures var r := ValidateWorkerResult(WorkerPayload(item, runId, ends, reason), item, runId).result;
            && (r.succeeded <==> reason == None && forall i :: 0 <= i < |ends| ==> ends[i] == Succeeded || ends[i] == Skipped)
            && EqualsInt(r.exitCode, if r.succeeded then 0 else 1)
  {
    hide WorkerPayload;
    hide IdentityMatches;
    hide ValidateDetail;
    hide EntriesOf;
    hide EntriesOk;
    hide Tally;
    hide SummaryOf;
    NoFailures(item.nodeIds, ends, reason);
    WrittenIdentity(item, runId, ends, reason);
    WrittenDetail(item, runId, ends, reason);
  }

  lemma WrittenIdentity(item: WorkItem, runId: string, ends: seq<NodeEnd>, reason: FailureReason)
    requires |ends| == |item.nodeIds|
    ensures IdentityMatches(WorkerPayload(item, runId, ends, reason).fields, runId, item)
  {
    hide EntriesOf;
    hide EntriesOk;
    hide Tally;
    hide SummaryOf;
    hide Texts;
    hide IdText;
    hide PhaseText;
  }

  /** The fields behind the identity of a written result. */
  lemma WrittenFields(item: WorkItem, runId: string, ends: seq<NodeEnd>, reason: FailureReason)
    requires |ends| == |item.nodeIds|
    ensures EntriesOk(EntriesOf(item.nodeIds, ends, reason))
    ensures var f := WorkerPayload(item, runId, ends, reason).fields;
            var counts := Tally(EntriesOf(item.nodeIds, ends, reason));
            var succeeded := reason == None && counts.failed == 0;
            && f[NodeResults] == JList(EntriesOf(item.nodeIds, ends, reason))
            && f[Status] == JText(if succeeded then "succeeded" else "failed")
            && f[ExitCode] == JInt(if succeeded then 0 else 1)
            && f[FailureReasonField] == (if reason.Because? then JText(reason.text) else JNull)
            && f[Summary] == SummaryOf(counts)
  {
    EntriesOfOk(item.nodeIds, ends, reason);
    hide EntriesOk;
    hide EntriesOf;
    hide Tally;
    hide IdText;
    hide PhaseText;
    hide Texts;
  }

  lemma SummaryFields(c: Counts)
    ensures SummaryOf(c).fields.Keys == {SuccessfulCount, FailedCount, SkippedCount}
    ensures SummaryOf(c).fields[SuccessfulCount] == JInt(c.successful)
    ensures SummaryOf(c).fields[FailedCount] == JInt(c.failed) && SummaryOf(c).fields[SkippedCount] == JInt(c.skipped)
  {}

  lemma WrittenDetail(item: WorkItem, runId: string, ends: seq<NodeEnd>, reason: FailureReason)
    requires |ends| == |item.nodeIds|
    ensures EntriesOk(EntriesOf(item.nodeIds, ends, reason))
    ensures var f := WorkerPayload(item, runId, ends, reason).fields;
            var counts := Tally(EntriesOf(item.nodeIds, ends, reason));
            var succeeded := reason == None && counts.failed == 0;
            && f[Status] == JText(if succeeded then "succeeded" else "failed")
            && f[FailureReasonField] == (if reason.Because? then JText(reason.text) else JNull)
            && f[Summary] == SummaryOf(counts)
            && SummaryOf(counts).fields.Keys == {SuccessfulCount, FailedCount, SkippedCount}
            && ValidateDetail(f, item) == Valid(Accepted(succeeded, JInt(if succeeded then 0 else 1), counts))
  {
    EntriesOfOk(item.nodeIds, ends, reason);
    var entries := EntriesOf(item.nodeIds, ends, reason);
    assert CheckEntries(entries) == EntryOk;
    WrittenFields(item, runId, ends, reason);
    SummaryFields(Tally(entries));
    hide WorkerPayload;
    hide EntriesOf;
    hide EntriesOk;
    hide CheckEntries;
    hide CheckEntry;
    hide Tally;
    hide NodeIdsOf;
    hide Texts;
    hide SummaryOf;
  }

  lemma {:induction false} NoFailures(ids: seq<NodeId>, ends: seq<NodeEnd>, reason: FailureReason)
    requires |ends| == |ids|
    ensures EntriesOk(EntriesOf(ids, ends, reason))
    ensures Tally(EntriesOf(ids, ends, reason)).failed == 0
       <==> forall i :: 0 <= i < |ends| ==> ends[i] == Succeeded || ends[i] == Skipped
  {
    EntriesOfOk(ids, ends, reason);
    hide EntriesOk;
    if ids != [] {
      var n := |ids| - 1;
      NoFailures(ids[..n], ends[..n], reason);
      EntriesOfInit(ids, ends, reason);
      LastEntry(ids, ends, reason);
      assert forall i :: 0 <= i < n ==> ends[..n][i] == ends[i];
      hide CheckEntry;
      hide EntriesOf;
    }
  }

  lemma LastEntry(ids: seq<NodeId>, ends: seq<NodeEnd>, reason: FailureReason)
    requires |ends| == |ids| && ids != []
    ensures var last := EntriesOf(ids, ends, reason)[|ids| - 1];
            && last.JObject? && Status in last.fields
            && (last.fields[Status] == JText("succeeded") <==> ends[|ids| - 1] == Succeeded)
            && (last.fields[Status] == JText("skipped") <==> ends[|ids| - 1] == Skipped)
  {
    DifferentTexts();
  }

  lemma DifferentTexts()
    ensures "succeeded" != "skipped" && "aborted" != "succeeded" && "aborted" != "skipped"
    ensures "failed" != "succeeded" && "failed" != "skipped" && "aborted" != "failed"
  {
    assert "succeeded"[1] != "skipped"[1] && "aborted"[0] != "failed"[0];
  }

  lemma EntriesOfInit(ids: seq<NodeId>, ends: seq<NodeEnd>, reason: FailureReason)
    requires |ends| == |ids| && ids != []
    ensures var n := |ids| - 1;
            EntriesOf(ids, ends, reason)[..n] == EntriesOf(ids[..n], ends[..n], reason)
  {}
}
