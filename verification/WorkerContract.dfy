/** The contract of a worker's result, condition by condition and without the order of the checks. */
module WorkerContract {
  import opened PlanTypes
  import opened BatchTypes
  import opened WorkerResult

  /** A node entry: the id it must have, a terminal status, and a reason or none. */
  ghost predicate EntryKept(entry: Json, id: NodeId) {
    && entry.JObject? && |entry.fields| == 3
    && NodeIdField in entry.fields && entry.fields[NodeIdField] == JText(id.text)
    && Status in entry.fields && TerminalStatus(entry.fields[Status])
    && ReasonField in entry.fields && (entry.fields[ReasonField].JNull? || entry.fields[ReasonField].JText?)
  }

  predicate TerminalStatus(status: Json) {
    status.JText? && (status.text == "succeeded" || status.text == "failed" || status.text == "skipped" || status.text == "aborted")
  }

  /** The places of the entries with this status. */
  ghost function With(entries: seq<Json>, status: string): set<nat> {
    set i: nat | i < |entries| && HasStatus(entries[i], status)
  }

  predicate HasStatus(entry: Json, status: string) {
    entry.JObject? && Status in entry.fields && entry.fields[Status] == JText(status)
  }

  predicate CountIs(summary: map<Field, Json>, field: Field, count: nat) {
    field in summary && summary[field] == JInt(count)
  }

  /** Exactly the fourteen fields are there, and those that name the item are the item's. */
  ghost predicate IdentityKept(f: map<Field, Json>, item: WorkItem, runId: string) {
    && |f| == 14
    && SchemaVersion in f && f[SchemaVersion] in {JInt(1), JBool(true)}
    && RunId in f && f[RunId] == JText(runId)
    && WorkItemId in f && f[WorkItemId] == JText(IdText(item.id))
    && PhaseField in f && f[PhaseField] == JText(if item.phase == Parallel then "parallel" else "serial")
    && Tag in f && f[Tag] == JText(item.binary.tag)
    && ModuleField in f && f[ModuleField] == JText(item.binary.key.moduleName)
    && Platform in f && f[Platform] == JText(item.binary.key.platform)
    && BinaryRelativePath in f && f[BinaryRelativePath] == JText(item.binary.path)
    && NodeIds in f && f[NodeIds].JList? && |f[NodeIds].elements| == |item.nodeIds|
    && (forall i :: 0 <= i < |item.nodeIds| ==> f[NodeIds].elements[i] == JText(item.nodeIds[i].text))
    && NodeResults in f && Status in f && ExitCode in f && Summary in f && FailureReasonField in f
  }

  /** One entry for each node of the item, in order, and a summary that counts their statuses. */
  ghost predicate DetailKept(f: map<Field, Json>, item: WorkItem)
    requires NodeResults in f && Summary in f
  {
    && f[NodeResults].JList? && |f[NodeResults].elements| == |item.nodeIds|
    && (forall i :: 0 <= i < |item.nodeIds| ==> EntryKept(f[NodeResults].elements[i], item.nodeIds[i]))
    && f[Summary].JObject? && |f[Summary].fields| == 3
    && var entries, summary := f[NodeResults].elements, f[Summary].fields;
    && CountIs(summary, SuccessfulCount, |With(entries, "succeeded")|)
    && CountIs(summary, SkippedCount, |With(entries, "skipped")|)
    && CountIs(summary, FailedCount, |With(entries, "failed")| + |With(entries, "aborted")|)
  }

  /** A success has exit code zero, no failed or aborted node, and no reason to fail. */
  ghost predicate VerdictKept(f: map<Field, Json>)
    requires NodeResults in f && Status in f && ExitCode in f && FailureReasonField in f && f[NodeResults].JList?
  {
    && f[Status] in {JText("succeeded"), JText("failed")}
    && (f[FailureReasonField].JNull? || f[FailureReasonField].JText?)
    && (f[Status] == JText("succeeded") ==>
          && f[ExitCode] in {JInt(0), JBool(false)} && f[FailureReasonField].JNull?
          && forall i :: 0 <= i < |f[NodeResults].elements| ==>
               !HasStatus(f[NodeResults].elements[i], "failed") && !HasStatus(f[NodeResults].elements[i], "aborted"))
  }

  ghost predicate Keeps(payload: Json, item: WorkItem, runId: string) {
    && payload.JObject?
    && IdentityKept(payload.fields, item, runId)
    && DetailKept(payload.fields, item) && VerdictKept(payload.fields)
  }

  // ---------------------------------------------------------------------------------------------
  // The validator accepts exactly what keeps the contract.

  lemma SameSize<T>(a: set<T>, b: set<T>)
    requires a <= b && |a| == |b|
    ensures a == b
  {
    assert b == a + (b - a);
  }

  lemma FourteenKeys()
    ensures |RESULT_KEYS| == 14
  {}

  lemma KeysExactly(f: map<Field, Json>)
    ensures f.Keys == RESULT_KEYS <==> |f| == 14 && RESULT_KEYS <= f.Keys
  {
    FourteenKeys();
    assert |f| == |f.Keys|;
    if |f| == 14 && RESULT_KEYS <= f.Keys {
      SameSize(RESULT_KEYS, f.Keys);
    }
  }

  lemma IdentityExactly(f: map<Field, Json>, item: WorkItem, runId: string)
    ensures f.Keys == RESULT_KEYS && IdentityMatches(f, runId, item) <==> IdentityKept(f, item, runId)
  {
    KeysExactly(f);
    hide IdText;
    if NodeIds in f && f[NodeIds].JList? && |f[NodeIds].elements| == |item.nodeIds| {
      if forall i :: 0 <= i < |item.nodeIds| ==> f[NodeIds].elements[i] == JText(item.nodeIds[i].text) {
        assert f[NodeIds].elements == Texts(item.nodeIds);
      }
    }
  }

  lemma ThreeKeys(fields: map<Field, Json>, a: Field, b: Field, c: Field)
    requires a != b && a != c && b != c
    ensures fields.Keys == {a, b, c} <==> |fields| == 3 && a in fields && b in fields && c in fields
  {
    assert |fields| == |fields.Keys| && |{a, b, c}| == 3;
    if |fields| == 3 && a in fields && b in fields && c in fields {
      SameSize({a, b, c}, fields.Keys);
    }
  }

  predicate EntryChecked(entry: Json, id: NodeId) {
    CheckEntry(entry) == EntryOk && entry.fields[NodeIdField] == JText(id.text)
  }

  lemma EntryExactly(entry: Json, id: NodeId)
    ensures EntryKept(entry, id) <==> EntryChecked(entry, id)
  {
    if entry.JObject? {
      ThreeKeys(entry.fields, NodeIdField, Status, ReasonField);
    }
  }

  lemma EntriesExactly(entries: seq<Json>, item: WorkItem)
    ensures (|entries| == |item.nodeIds| && forall i :: 0 <= i < |entries| ==> EntryKept(entries[i], item.nodeIds[i]))
       <==> EntriesOk(entries) && NodeIdsOf(entries) == Texts(item.nodeIds)
  {
    hide EntryKept;
    hide CheckEntry;
    if |entries| == |item.nodeIds| {
      forall i | 0 <= i < |entries|
        ensures EntryKept(entries[i], item.nodeIds[i]) <==> EntryChecked(entries[i], item.nodeIds[i])
      {
        EntryExactly(entries[i], item.nodeIds[i]);
      }
      if EntriesOk(entries) && NodeIdsOf(entries) == Texts(item.nodeIds) {
        forall i | 0 <= i < |entries| ensures EntryKept(entries[i], item.nodeIds[i]) {
          assert NodeIdsOf(entries)[i] == Texts(item.nodeIds)[i];
        }
      }
    }
  }

  lemma WithIsPlaces(entries: seq<Json>, status: string)
    requires EntriesOk(entries)
    ensures With(entries, status) == Places(entries, status)
  {
    forall i: nat | i < |entries| ensures HasStatus(entries[i], status) <==> StatusIs(entries, i, status) {
      assert CheckEntry(entries[i]) == EntryOk;
    }
  }

  lemma SummaryExactly(f: map<Field, Json>, entries: seq<Json>)
    requires Summary in f && EntriesOk(entries)
    ensures (&& f[Summary].JObject? && |f[Summary].fields| == 3
             && var summary := f[Summary].fields;
             && CountIs(summary, SuccessfulCount, |With(entries, "succeeded")|)
             && CountIs(summary, SkippedCount, |With(entries, "skipped")|)
             && CountIs(summary, FailedCount, |With(entries, "failed")| + |With(entries, "aborted")|))
       <==> (&& SummaryComplete(f[Summary])
             && var s := f[Summary].fields;
             && Tally(entries) == Counts(s[SuccessfulCount].number, s[FailedCount].number, s[SkippedCount].number))
  {
    TallyCounts(entries);
    WithIsPlaces(entries, "succeeded");
    WithIsPlaces(entries, "skipped");
    WithIsPlaces(entries, "failed");
    WithIsPlaces(entries, "aborted");
    hide With;
    hide Places;
    hide Tally;
    hide EntriesOk;
    if f[Summary].JObject? {
      ThreeKeys(f[Summary].fields, SuccessfulCount, FailedCount, SkippedCount);
    }
  }

  /** No entry has failed exactly if none of them is counted as failed. */
  lemma NoFailuresCounted(entries: seq<Json>)
    requires EntriesOk(entries)
    ensures Tally(entries).failed == 0 <==>
            forall i :: 0 <= i < |entries| ==> !HasStatus(entries[i], "failed") && !HasStatus(entries[i], "aborted")
  {
    TallyCounts(entries);
    WithIsPlaces(entries, "failed");
    WithIsPlaces(entries, "aborted");
    hide Tally;
    hide Places;
    if i :| 0 <= i < |entries| && (HasStatus(entries[i], "failed") || HasStatus(entries[i], "aborted")) {
      assert i in With(entries, "failed") || i in With(entries, "aborted");
    }
    if With(entries, "failed") != {} {
      var i :| i in With(entries, "failed");
    }
    if With(entries, "aborted") != {} {
      var i :| i in With(entries, "aborted");
    }
  }

  lemma DetailExactly(f: map<Field, Json>, item: WorkItem)
    requires f.Keys == RESULT_KEYS
    ensures DetailKept(f, item) <==>
            && f[NodeResults].JList?
            && EntriesOk(f[NodeResults].elements) && NodeIdsOf(f[NodeResults].elements) == Texts(item.nodeIds)
            && SummaryComplete(f[Summary])
            && Tally(f[NodeResults].elements) == Counted(f[Summary])
  {
    hide EntryKept;
    hide EntriesOk;
    hide NodeIdsOf;
    hide With;
    hide Tally;
    hide SummaryComplete;
    if f[NodeResults].JList? {
      EntriesExactly(f[NodeResults].elements, item);
      if EntriesOk(f[NodeResults].elements) {
        SummaryExactly(f, f[NodeResults].elements);
      }
    }
  }

  /** The counts that a summary states. */
  function Counted(summary: Json): Counts
    requires SummaryComplete(summary)
  {
    Counts(summary.fields[SuccessfulCount].number, summary.fields[FailedCount].number, summary.fields[SkippedCount].number)
  }

  lemma CompleteSummary(summary: Json)
    ensures SummaryComplete(summary) ==> summary.JObject? && summary.fields.Keys == {SuccessfulCount, FailedCount, SkippedCount}
  {}

  /** The last part of the validator. */
  lemma DetailValid(f: map<Field, Json>, item: WorkItem)
    requires f.Keys == RESULT_KEYS
    requires f[Summary].JObject? && f[Summary].fields.Keys == {SuccessfulCount, FailedCount, SkippedCount}
    ensures ValidateDetail(f, item).Valid? <==>
            && DetailKept(f, item)
            && (f[Status] == JText("succeeded") ==>
                  f[ExitCode] in {JInt(0), JBool(false)} && f[FailureReasonField].JNull? && NothingFailed(f))
    ensures ValidateDetail(f, item).Valid? ==>
              ValidateDetail(f, item).result == Accepted(f[Status] == JText("succeeded"), f[ExitCode], Counted(f[Summary]))
  {
    DetailExactly(f, item);
    hide DetailKept;
    if f[NodeResults].JList? && EntriesOk(f[NodeResults].elements) {
      NoFailuresCounted(f[NodeResults].elements);
    }
    hide CheckEntry;
    hide Tally;
    hide NodeIdsOf;
    hide HasStatus;
    hide Texts;
  }

  ghost predicate NothingFailed(f: map<Field, Json>)
    requires NodeResults in f
  {
    f[NodeResults].JList? ==>
      forall i :: 0 <= i < |f[NodeResults].elements| ==>
        !HasStatus(f[NodeResults].elements[i], "failed") && !HasStatus(f[NodeResults].elements[i], "aborted")
  }

  /** A document is accepted if and only if it keeps the contract; the verdict is the one it states. */
  lemma AcceptedExactly(payload: Json, item: WorkItem, runId: string)
    ensures ValidateWorkerResult(payload, item, runId).Valid? <==> Keeps(payload, item, runId)
    ensures Keeps(payload, item, runId) ==>
              var r, f := ValidateWorkerResult(payload, item, runId).result, payload.fields;
              && (r.succeeded <==> f[Status] == JText("succeeded")) && r.exitCode == f[ExitCode]
              && f[Summary].fields[SuccessfulCount] == JInt(r.counts.successful)
              && f[Summary].fields[FailedCount] == JInt(r.counts.failed)
              && f[Summary].fields[SkippedCount] == JInt(r.counts.skipped)
  {
    if payload.JObject? {
      var f := payload.fields;
      IdentityExactly(f, item, runId);
      if f.Keys == RESULT_KEYS {
        DetailExactly(f, item);
        CompleteSummary(f[Summary]);
        if f[Summary].JObject? && f[Summary].fields.Keys == {SuccessfulCount, FailedCount, SkippedCount} {
          DetailValid(f, item);
        }
      }
      hide IdentityKept;
      hide DetailKept;
      hide IdentityMatches;
      hide EntriesOk;
      hide NodeIdsOf;
      hide Tally;
      hide CheckEntry;
      hide ValidateDetail;
      hide HasStatus;
    }
  }

  /** How items are named in results. */
  lemma ShortIdText()
    ensures IdText(ItemId(Parallel, 7)) == "parallel-0007"
  {
    assert Decimal(7) == "7";
    assert "0" + "7" == "07" && "0" + "07" == "007" && "0" + "007" == "0007";
    assert Padded("7") == Padded("07") == Padded("007") == Padded("0007") == "0007";
    assert "parallel" + "-" + "0007" == "parallel-0007";
  }

  lemma LongIdText()
    ensures IdText(ItemId(Serial, 12345)) == "serial-12345"
  {
    assert Decimal(1) == "1" && Decimal(12) == "1" + "2" && Decimal(123) == "12" + "3" && Decimal(1234) == "123" + "4";
    assert Decimal(12345) == "1234" + "5" == "12345";
    assert "serial" + "-" + "12345" == "serial-12345";
  }

  lemma RunIdTexts(item: WorkItem)
    requires item.id == ItemId(Parallel, 7)
    ensures RunIdText("batch", item) == "batch-parallel-0007"
  {
    ShortIdText();
    hide IdText;
    assert "batch" + "-" + "parallel-0007" == "batch-parallel-0007";
  }
}
