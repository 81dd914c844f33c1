/** `select_batch_schedule`: keep only the requested nodes of a schedule. */
module BatchSelection {
  import opened Outcomes
  import opened PlanTypes
  import opened BatchTypes
  import opened Sequences
  import opened Classification
  import opened TagSchedule
  import opened BatchSchedule

  function Wanted(requested: set<NodeKey>): NodeKey -> bool {
    (key: NodeKey) => key in requested
  }

  function WantedId(requested: set<NodeKey>, tag: string): NodeId -> bool {
    (id: NodeId) => NodeKey(tag, id) in requested
  }

  function Filtered(item: WorkItem, requested: set<NodeKey>): WorkItem {
    item.(nodeIds := Select(item.nodeIds, WantedId(requested, item.binary.tag)))
  }

  lemma {:induction false} FilterIds(tag: string, ids: seq<NodeId>, requested: set<NodeKey>)
    ensures Select(SegmentKeys(tag, ids), Wanted(requested)) == SegmentKeys(tag, Select(ids, WantedId(requested, tag)))
  {
    if ids != [] {
      var init, last := ids[..|ids| - 1], ids[|ids| - 1];
      FilterIds(tag, init, requested);
      InitLast(ids);
      SelectOne(init, last, WantedId(requested, tag));
      assert SegmentKeys(tag, ids) == SegmentKeys(tag, init) + [NodeKey(tag, last)];
      SelectOne(SegmentKeys(tag, init), NodeKey(tag, last), Wanted(requested));
      var kept := Select(init, WantedId(requested, tag));
      assert SegmentKeys(tag, kept + [last]) == SegmentKeys(tag, kept) + [NodeKey(tag, last)];
    }
  }

  lemma FilterItem(item: WorkItem, requested: set<NodeKey>)
    ensures Select(ItemKeys(item), Wanted(requested)) == ItemKeys(Filtered(item, requested))
  {
    FilterIds(item.binary.tag, item.nodeIds, requested);
    assert ItemKeys(item) == SegmentKeys(item.binary.tag, item.nodeIds);
    var kept := Filtered(item, requested);
    assert ItemKeys(kept) == SegmentKeys(item.binary.tag, kept.nodeIds);
  }

  function WantedTask(requested: set<NodeKey>): Task -> bool {
    (t: Task) => t.key in requested
  }

  function TaskList(binary: Binary, ids: seq<NodeId>): (tasks: seq<Task>)
    ensures |tasks| == |ids|
  {
    seq(|ids|, i requires 0 <= i < |ids| => Task(NodeKey(binary.tag, ids[i]), binary))
  }

  lemma {:induction false} FilterTaskList(binary: Binary, ids: seq<NodeId>, requested: set<NodeKey>)
    ensures Select(TaskList(binary, ids), WantedTask(requested)) == TaskList(binary, Select(ids, WantedId(requested, binary.tag)))
  {
    if ids != [] {
      var init, last := ids[..|ids| - 1], ids[|ids| - 1];
      FilterTaskList(binary, init, requested);
      InitLast(ids);
      SelectOne(init, last, WantedId(requested, binary.tag));
      assert TaskList(binary, ids) == TaskList(binary, init) + [Task(NodeKey(binary.tag, last), binary)];
      SelectOne(TaskList(binary, init), Task(NodeKey(binary.tag, last), binary), WantedTask(requested));
      var kept := Select(init, WantedId(requested, binary.tag));
      assert TaskList(binary, kept + [last]) == TaskList(binary, kept) + [Task(NodeKey(binary.tag, last), binary)];
    }
  }

  lemma FilterTasks(item: WorkItem, requested: set<NodeKey>)
    ensures Select(ItemTasks(item), WantedTask(requested)) == ItemTasks(Filtered(item, requested))
  {
    FilterTaskList(item.binary, item.nodeIds, requested);
    assert ItemTasks(item) == TaskList(item.binary, item.nodeIds);
    var kept := Filtered(item, requested);
    assert ItemTasks(kept) == TaskList(item.binary, kept.nodeIds);
  }

  /** `selected[k]` is what is left of `items[origin[k]]`. */
  ghost predicate FromItems(items: seq<WorkItem>, requested: set<NodeKey>, selected: seq<WorkItem>, origin: seq<nat>) {
    && |origin| == |selected|
    && (forall k :: 0 <= k < |origin| ==> origin[k] < |items| && SameButIds(Filtered(items[origin[k]], requested), selected[k]))
    && (forall k, l :: 0 <= k < l < |origin| ==> origin[k] < origin[l])
  }

  ghost predicate SameButIds(a: WorkItem, b: WorkItem) {
    a.binary == b.binary && a.nodeIds == b.nodeIds && a.phase == b.phase
  }

  /** The selection from the items read so far: the requested tasks in order, each still on its binary. */
  ghost predicate Chosen(items: seq<WorkItem>, requested: set<NodeKey>, phase: Phase, chosen: seq<WorkItem>,
        origin: seq<nat>) {
    && InPhase(chosen, phase)
    && Tasks(chosen) == Select(Tasks(items), WantedTask(requested))
    && Flat(chosen) == Select(Flat(items), Wanted(requested))
    && (phase == Serial ==> RunsMaximal(chosen))
    && (phase == Parallel ==> FromItems(items, requested, chosen, origin))
  }

  lemma AddedKeys(items: seq<WorkItem>, item: WorkItem, requested: set<NodeKey>)
    ensures Select(Flat(items + [item]), Wanted(requested))
         == Select(Flat(items), Wanted(requested)) + ItemKeys(Filtered(item, requested))
  {
    FlatOne(items, item);
    SelectConcat(Flat(items), ItemKeys(item), Wanted(requested));
    FilterItem(item, requested);
  }

  lemma AddedTasks(items: seq<WorkItem>, item: WorkItem, requested: set<NodeKey>)
    ensures Select(Tasks(items + [item]), WantedTask(requested))
         == Select(Tasks(items), WantedTask(requested)) + ItemTasks(Filtered(item, requested))
  {
    TasksOne(items, item);
    SelectConcat(Tasks(items), ItemTasks(item), WantedTask(requested));
    FilterTasks(item, requested);
  }

  lemma FromMore(items: seq<WorkItem>, item: WorkItem, requested: set<NodeKey>, chosen: seq<WorkItem>, origin: seq<nat>)
    requires FromItems(items, requested, chosen, origin)
    ensures FromItems(items + [item], requested, chosen, origin)
    ensures FromItems(items + [item], requested, chosen + [Filtered(item, requested)], origin + [|items|])
  {
    var all := items + [item];
    forall k | 0 <= k < |origin| ensures all[origin[k]] == items[origin[k]] {}
    assert all[|items|] == item;
  }

  /** An item of which nothing was requested. */
  lemma DropStep(items: seq<WorkItem>, item: WorkItem, requested: set<NodeKey>, phase: Phase,
                 chosen: seq<WorkItem>, origin: seq<nat>)
    requires Chosen(items, requested, phase, chosen, origin) && Filtered(item, requested).nodeIds == []
    ensures Chosen(items + [item], requested, phase, chosen, origin)
  {
    hide Flat;
    hide Tasks;
    hide Select;
    AddedKeys(items, item, requested);
    AddedTasks(items, item, requested);
    if phase == Parallel {
      FromMore(items, item, requested, chosen, origin);
    }
  }

  /** An item that starts a new run. */
  lemma KeepStep(items: seq<WorkItem>, item: WorkItem, requested: set<NodeKey>, phase: Phase,
                 chosen: seq<WorkItem>, origin: seq<nat>)
    requires Chosen(items, requested, phase, chosen, origin) && Filtered(item, requested).nodeIds != []
    requires item.phase == phase
    requires phase == Serial && chosen != [] ==> chosen[|chosen| - 1].binary != item.binary
    ensures Chosen(items + [item], requested, phase, chosen + [Filtered(item, requested)], origin + [|items|])
  {
    hide Flat;
    hide Tasks;
    hide Select;
    AddedKeys(items, item, requested);
    AddedTasks(items, item, requested);
    FlatOne(chosen, Filtered(item, requested));
    TasksOne(chosen, Filtered(item, requested));
    if phase == Parallel {
      FromMore(items, item, requested, chosen, origin);
    }
  }

  function Merged(last: WorkItem, kept: WorkItem): WorkItem {
    last.(nodeIds := last.nodeIds + kept.nodeIds)
  }

  /** A serial item that joins the run before it. */
  lemma MergeStep(items: seq<WorkItem>, item: WorkItem, requested: set<NodeKey>, chosen: seq<WorkItem>, origin: seq<nat>)
    requires Chosen(items, requested, Serial, chosen, origin)
    requires chosen != [] && chosen[|chosen| - 1].binary == item.binary
    ensures var merged := Merged(chosen[|chosen| - 1], Filtered(item, requested));
            Chosen(items + [item], requested, Serial, chosen[|chosen| - 1 := merged], origin)
  {
    hide Flat;
    hide Tasks;
    hide Select;
    hide SegmentKeys;
    AddedKeys(items, item, requested);
    AddedTasks(items, item, requested);
    MergeFlat(chosen, Filtered(item, requested));
    MergeTasks(chosen, Filtered(item, requested));
  }

  /** Only items of one binary can be merged: the tasks carry it. */
  lemma MergeTasks(chosen: seq<WorkItem>, kept: WorkItem)
    requires chosen != [] && chosen[|chosen| - 1].binary == kept.binary
    ensures Tasks(chosen[|chosen| - 1 := Merged(chosen[|chosen| - 1], kept)]) == Tasks(chosen) + ItemTasks(kept)
  {
    var init, last := chosen[..|chosen| - 1], chosen[|chosen| - 1];
    var merged := Merged(last, kept);
    assert ItemTasks(merged) == ItemTasks(last) + ItemTasks(kept);
    assert chosen[|chosen| - 1 := merged] == init + [merged];
    InitLast(chosen);
    TasksOne(init, last);
    TasksOne(init, merged);
    Associative(Tasks(init), ItemTasks(last), ItemTasks(kept));
  }

  lemma MergeFlat(chosen: seq<WorkItem>, kept: WorkItem)
    requires chosen != [] && chosen[|chosen| - 1].binary == kept.binary
    ensures Flat(chosen[|chosen| - 1 := Merged(chosen[|chosen| - 1], kept)]) == Flat(chosen) + ItemKeys(kept)
  {
    var init, last := chosen[..|chosen| - 1], chosen[|chosen| - 1];
    var merged := Merged(last, kept);
    assert ItemKeys(merged) == ItemKeys(last) + ItemKeys(kept);
    assert chosen[|chosen| - 1 := merged] == init + [merged];
    InitLast(chosen);
    FlatOne(init, last);
    FlatOne(init, merged);
    Associative(Flat(init), ItemKeys(last), ItemKeys(kept));
  }

  method SelectItems(items: seq<WorkItem>, requested: set<NodeKey>, phase: Phase)
    returns (selected: seq<WorkItem>, ghost origin: seq<nat>)
    requires InPhase(items, phase)
    ensures Chosen(items, requested, phase, selected, origin) && Numbered(selected, phase)
  {
    var chosen: seq<WorkItem> := [];
    origin := [];
    NothingChosen(requested, phase);
    assert items[..0] == [];
    hide Chosen;
    hide Select;
    hide Flat;
    hide Tasks;
    hide Filtered;
    hide Merged;
    hide SegmentKeys;
    hide Numbered;
    hide SameWork;
    for i: nat := 0 to |items|
      invariant Chosen(items[..i], requested, phase, chosen, origin)
    {
      var item := items[i];
      PrefixOne(items, i);
      var kept := Filtered(item, requested);
      if kept.nodeIds == [] {
        DropStep(items[..i], item, requested, phase, chosen, origin);
      } else if item.phase == Serial && chosen != [] && chosen[|chosen| - 1].binary == item.binary {
        MergeStep(items[..i], item, requested, chosen, origin);
        chosen := chosen[|chosen| - 1 := Merged(chosen[|chosen| - 1], kept)];
      } else {
        KeepStep(items[..i], item, requested, phase, chosen, origin);
        chosen := chosen + [kept];
        origin := origin + [i];
      }
    }
    WholePrefix(items);
    selected := Renumber(chosen, phase);
    RenumberedChosen(items, requested, phase, chosen, selected, origin);
  }

  lemma NothingChosen(requested: set<NodeKey>, phase: Phase)
    ensures Chosen([], requested, phase, [], [])
  {}

  lemma RenumberedChosen(items: seq<WorkItem>, requested: set<NodeKey>, phase: Phase, chosen: seq<WorkItem>,
                         selected: seq<WorkItem>, origin: seq<nat>)
    requires Chosen(items, requested, phase, chosen, origin) && SameWork(chosen, selected)
    ensures Chosen(items, requested, phase, selected, origin)
  {
    SameFlat(chosen, selected);
    SameTasks(chosen, selected);
    hide Flat;
    hide Tasks;
    hide Select;
    hide Filtered;
  }

  // ---------------------------------------------------------------------------------------------
  // Selection keeps dependency order.

  lemma SelectListRespects(keys: seq<NodeKey>, requested: set<NodeKey>, e: KeyEdge)
    requires ListRespects(keys, e)
    ensures ListRespects(Select(keys, Wanted(requested)), e)
  {
    var kept := Select(keys, Wanted(requested));
    forall x, y | 0 <= x < |kept| && 0 <= y < |kept| && kept[x] == e.source && kept[y] == e.target ensures x < y {
      if y <= x {
        var i, j := SelectEmbeds(keys, Wanted(requested), y, x);
        NotBehind(keys, e, i, j);
      }
    }
  }

  lemma NotBehind(keys: seq<NodeKey>, e: KeyEdge, i: nat, j: nat)
    requires ListRespects(keys, e) && i <= j < |keys|
    ensures keys[i] != e.target || keys[j] != e.source
  {}

  lemma SelectItemsRespect(items: seq<WorkItem>, requested: set<NodeKey>, selected: seq<WorkItem>,
        origin: seq<nat>, e: KeyEdge)
    requires ItemsRespect(items, e) && FromItems(items, requested, selected, origin)
    ensures ItemsRespect(selected, e)
  {
    forall i: nat, a: nat, j: nat, b: nat | At(selected, i, a, e.source) && At(selected, j, b, e.target) ensures i == j && a < b {
      var a' := OriginPlace(items, requested, selected, origin, i, a, e.source);
      var b' := OriginPlace(items, requested, selected, origin, j, b, e.target);
      assert origin[i] == origin[j];
      assert i == j;
      if b <= a {
        var item := items[origin[i]];
        FilterItem(item, requested);
        var y, x := SelectEmbeds(ItemKeys(item), Wanted(requested), b, a);
        NotBehindInItem(items, e, origin[i], y, x);
      }
    }
  }

  lemma NotBehindInItem(items: seq<WorkItem>, e: KeyEdge, i: nat, y: nat, x: nat)
    requires ItemsRespect(items, e) && y <= x
    ensures !At(items, i, y, e.target) || !At(items, i, x, e.source)
  {}

  /** Where a kept key stood before. */
  lemma OriginPlace(items: seq<WorkItem>, requested: set<NodeKey>, selected: seq<WorkItem>, origin: seq<nat>,
                    i: nat, a: nat, key: NodeKey) returns (a': nat)
    requires FromItems(items, requested, selected, origin) && At(selected, i, a, key)
    ensures At(items, origin[i], a', key)
    ensures ItemKeys(selected[i]) == ItemKeys(Filtered(items[origin[i]], requested))
  {
    var item := items[origin[i]];
    assert SameButIds(Filtered(item, requested), selected[i]);
    assert ItemKeys(selected[i]) == ItemKeys(Filtered(item, requested));
    FilterItem(item, requested);
    var x, y := SelectEmbeds(ItemKeys(item), Wanted(requested), a, a);
    a' := x;
  }

  lemma SelectRespects(schedule: Schedule, requested: set<NodeKey>, selected: Schedule, origin: seq<nat>, e: KeyEdge)
    requires Respects(schedule.parallelItems, schedule.serialItems, e)
    requires FromItems(schedule.parallelItems, requested, selected.parallelItems, origin)
    requires Flat(selected.parallelItems) == Select(Flat(schedule.parallelItems), Wanted(requested))
    requires Flat(selected.serialItems) == Select(Flat(schedule.serialItems), Wanted(requested))
    ensures Respects(selected.parallelItems, selected.serialItems, e)
  {
    SelectItemsRespect(schedule.parallelItems, requested, selected.parallelItems, origin, e);
    SelectListRespects(Flat(schedule.serialItems), requested, e);
  }

  lemma SelectOwned(plans: seq<TagPlan>, items: seq<WorkItem>, requested: set<NodeKey>, selected: seq<WorkItem>,
        serial: bool)
    requires Owned(plans, items, serial) && Tasks(selected) == Select(Tasks(items), WantedTask(requested))
    ensures Owned(plans, selected, serial)
  {
    hide TaskFrom;
    hide Tasks;
  }

  lemma SelectBinaries(items: seq<WorkItem>, requested: set<NodeKey>, selected: seq<WorkItem>, origin: seq<nat>)
    requires DistinctBinaries(items) && FromItems(items, requested, selected, origin)
    ensures DistinctBinaries(selected)
  {
    hide Filtered;
    forall k, l | 0 <= k < l < |origin| ensures selected[k].binary != selected[l].binary {
      FilteredBinary(items[origin[k]], requested);
      FilteredBinary(items[origin[l]], requested);
      assert SameButIds(Filtered(items[origin[k]], requested), selected[k]);
      assert SameButIds(Filtered(items[origin[l]], requested), selected[l]);
    }
  }

  lemma FilteredBinary(item: WorkItem, requested: set<NodeKey>)
    ensures Filtered(item, requested).binary == item.binary
  {}

  lemma SelectNoRepeats(a: seq<NodeKey>, b: seq<NodeKey>, requested: set<NodeKey>)
    requires NoRepeats(a + b)
    ensures NoRepeats(Select(a, Wanted(requested)) + Select(b, Wanted(requested)))
  {
    SelectConcat(a, b, Wanted(requested));
    SelectDistinct(a + b, Wanted(requested));
  }

  /** Every promise of the schedule still holds, now for the requested nodes. */
  lemma SelectSchedule(plans: seq<TagPlan>, schedule: Schedule, requested: set<NodeKey>, selected: Schedule,
                       origin: seq<nat>, serialOrigin: seq<nat>)
    requires ScheduleFor(plans, schedule)
    requires Numbered(selected.parallelItems, Parallel) && Numbered(selected.serialItems, Serial)
    requires Chosen(schedule.parallelItems, requested, Parallel, selected.parallelItems, origin)
    requires Chosen(schedule.serialItems, requested, Serial, selected.serialItems, serialOrigin)
    ensures ScheduleFor(plans, selected)
  {
    hide Flat;
    hide Tasks;
    hide Owned;
    hide NoRepeats;
    hide DistinctBinaries;
    hide Respects;
    hide FromItems;
    forall i, e | 0 <= i < |plans| && e in plans[i].edges && PlanOrdered(plans[i].nodes, plans[i].edges)
      ensures Respects(selected.parallelItems, selected.serialItems, Keyed(plans[i].tag, e))
    {
      SelectRespects(schedule, requested, selected, origin, Keyed(plans[i].tag, e));
    }
    SelectNoRepeats(Flat(schedule.parallelItems), Flat(schedule.serialItems), requested);
    SelectBinaries(schedule.parallelItems, requested, selected.parallelItems, origin);
    SelectOwned(plans, schedule.parallelItems, requested, selected.parallelItems, false);
    SelectOwned(plans, schedule.serialItems, requested, selected.serialItems, true);
  }

  method SelectBatchSchedule(ghost plans: seq<TagPlan>, schedule: Schedule, requested: set<NodeKey>)
    returns (result: Result<Schedule, PlanError>)
    requires ScheduleFor(plans, schedule)
    ensures result.Err? <==>
      exists key :: key in requested && key !in Flat(schedule.parallelItems) && key !in Flat(schedule.serialItems)
    ensures result.Ok? ==> ScheduleFor(plans, result.value) && RunsMaximal(result.value.serialItems)
    ensures result.Ok? ==> Tasks(result.value.parallelItems) == Select(Tasks(schedule.parallelItems), WantedTask(requested))
    ensures result.Ok? ==> Tasks(result.value.serialItems) == Select(Tasks(schedule.serialItems), WantedTask(requested))
    ensures result.Ok? ==> Flat(result.value.parallelItems) == Select(Flat(schedule.parallelItems), Wanted(requested))
    ensures result.Ok? ==> Flat(result.value.serialItems) == Select(Flat(schedule.serialItems), Wanted(requested))
    ensures result.Ok? ==> forall key ::
              key in Flat(result.value.parallelItems) || key in Flat(result.value.serialItems) <==> key in requested
    ensures result.Ok? ==> InPhase(result.value.parallelItems, Parallel) && InPhase(result.value.serialItems, Serial)
  {
    var available := (set key | key in Flat(schedule.parallelItems)) + (set key | key in Flat(schedule.serialItems));
    if requested - available != {} {
      var key :| key in requested - available;
      return Err(UnknownSelection);
    }
    forall key | key in requested ensures key in available {
      assert key !in requested - available;
    }
    hide Flat;
    hide Tasks;
    hide AllRespect;
    hide NoRepeats;
    hide FromItems;
    hide Owned;
    hide RunsMaximal;
    var parallelItems, origin := SelectItems(schedule.parallelItems, requested, Parallel);
    var serialItems, serialOrigin := SelectItems(schedule.serialItems, requested, Serial);
    SelectSchedule(plans, schedule, requested, Schedule(parallelItems, serialItems), origin, serialOrigin);
    return Ok(Schedule(parallelItems, serialItems));
  }
}
