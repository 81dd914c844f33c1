/** `build_batch_schedule` and `select_batch_schedule`: the two phases of a whole batch. */
module BatchSchedule {
  import opened Outcomes
  import opened PlanTypes
  import opened BatchTypes
  import opened Sequences
  import opened Classification
  import opened TagSchedule

  // What the items hold, plan by plan.

  ghost predicate AllValid(plans: seq<TagPlan>) {
    forall i :: 0 <= i < |plans| ==> PlanValid(plans[i])
  }

  ghost predicate TaskFrom(plans: seq<TagPlan>, t: Task, serial: bool) {
    exists p :: p in plans && PlanTask(p, t, serial)
  }

  ghost function SerialTasks(plans: seq<TagPlan>): seq<Task>
    requires AllValid(plans)
  {
    if plans == [] then [] else SerialTasks(plans[..|plans| - 1]) + PlanSerialTasks(plans[|plans| - 1])
  }

  /** `owner[x]` is the plan of item `x`: plan after plan, and inside a plan in order of the first node. */
  ghost predicate Groups(plans: seq<TagPlan>, items: seq<WorkItem>, owner: seq<nat>) {
    && |owner| == |items|
    && (forall x :: 0 <= x < |items| ==> owner[x] < |plans| && GroupOf(plans[owner[x]], items[x]))
    && (forall x, y :: 0 <= x < y < |items| ==> owner[x] < owner[y] || SamePlanInOrder(plans, items, owner, x, y))
    && (forall i: nat, key :: i < |plans| && HasGroup(plans[i], key) ==> HasItem(items, owner, i, key))
  }

  ghost predicate SamePlanInOrder(plans: seq<TagPlan>, items: seq<WorkItem>, owner: seq<nat>, x: nat, y: nat)
    requires x < |owner| && y < |owner| && |owner| == |items|
  {
    && owner[x] == owner[y] < |plans| && items[x].binary.key != items[y].binary.key
    && var p := plans[owner[x]];
       StartsBefore(p.nodes, SerialSet(p.nodes, p.edges), items[x].binary.key, items[y].binary.key)
  }

  ghost predicate HasItem(items: seq<WorkItem>, owner: seq<nat>, i: nat, key: BinaryKey)
    requires |owner| == |items|
  {
    exists x :: 0 <= x < |items| && owner[x] == i && items[x].binary.key == key
  }

  /** Two plans of one tag have parallel nodes on the same binary. */
  ghost predicate SharedBinary(plans: seq<TagPlan>) {
    exists i, j, key :: 0 <= i < j < |plans| && ShareGroup(plans[i], plans[j], key)
  }

  ghost predicate ShareGroup(p: TagPlan, q: TagPlan, key: BinaryKey) {
    && p.tag == q.tag && HasGroup(p, key) && HasGroup(q, key)
    && key in p.paths && key in q.paths && p.paths[key] == q.paths[key]
  }

  /** The tasks of the parallel items are the nodes outside the serial sets, those of the serial items the ones inside. */
  ghost predicate TasksExact(plans: seq<TagPlan>, parallelItems: seq<WorkItem>, serialItems: seq<WorkItem>) {
    && (forall t :: t in Tasks(parallelItems) <==> TaskFrom(plans, t, false))
    && (forall t :: t in Tasks(serialItems) <==> TaskFrom(plans, t, true))
  }

  ghost predicate AllRespect(plans: seq<TagPlan>, parallelItems: seq<WorkItem>, serialItems: seq<WorkItem>) {
    forall i, e :: 0 <= i < |plans| && e in plans[i].edges && PlanOrdered(plans[i].nodes, plans[i].edges)
      ==> Respects(parallelItems, serialItems, Keyed(plans[i].tag, e))
  }

  function PlanKeys(plans: seq<TagPlan>): seq<NodeKey> {
    if plans == [] then []
    else PlanKeys(plans[..|plans| - 1]) + KeysOf(plans[|plans| - 1].tag, plans[|plans| - 1].nodes)
  }

  ghost predicate Numbered(items: seq<WorkItem>, phase: Phase) {
    forall i :: 0 <= i < |items| ==> items[i].id == ItemId(phase, i) && items[i].phase == phase
  }

  /** Equal items up to their ids. */
  ghost predicate SameWork(a: seq<WorkItem>, b: seq<WorkItem>) {
    && |a| == |b|
    && forall i :: 0 <= i < |a| ==> a[i].binary == b[i].binary && a[i].nodeIds == b[i].nodeIds && a[i].phase == b[i].phase
  }

  method Renumber(items: seq<WorkItem>, phase: Phase) returns (renumbered: seq<WorkItem>)
    requires InPhase(items, phase)
    ensures Numbered(renumbered, phase) && SameWork(items, renumbered)
  {
    renumbered := [];
    for i := 0 to |items|
      invariant |renumbered| == i
      invariant Numbered(renumbered, phase) && SameWork(items[..i], renumbered)
    {
      renumbered := renumbered + [items[i].(id := ItemId(phase, i))];
    }
    assert items[..|items|] == items;
  }

  lemma {:induction false} SameFlat(a: seq<WorkItem>, b: seq<WorkItem>)
    requires SameWork(a, b)
    ensures Flat(a) == Flat(b)
  {
    if a != [] {
      SameFlat(a[..|a| - 1], b[..|b| - 1]);
      assert ItemKeys(a[|a| - 1]) == ItemKeys(b[|b| - 1]);
    }
  }

  lemma SameRespect(a: seq<WorkItem>, b: seq<WorkItem>, c: seq<WorkItem>, d: seq<WorkItem>, e: KeyEdge)
    requires SameWork(a, b) && SameWork(c, d) && Respects(a, c, e)
    ensures Respects(b, d, e)
  {
    SameFlat(a, b);
    SameFlat(c, d);
    forall i, x, j, y | At(b, i, x, e.source) && At(b, j, y, e.target) ensures i == j && x < y {
      assert At(a, i, x, e.source) && At(a, j, y, e.target);
    }
  }

  /** Adds keys to the set of seen ones until one is already there. */
  method AddKeys(seen0: set<NodeKey>, keys: seq<NodeKey>) returns (ok: bool, seen: set<NodeKey>)
    ensures ok <==> NoRepeats(keys) && forall key :: key in keys ==> key !in seen0
    ensures ok ==> seen == seen0 + set key | key in keys
  {
    seen := seen0;
    for i := 0 to |keys|
      invariant seen == seen0 + set key | key in keys[..i]
      invariant forall key :: key in keys[..i] ==> key !in seen0
      invariant NoRepeats(keys[..i])
    {
      assert keys[i] in keys;
      if keys[i] in seen {
        if keys[i] !in seen0 {
          var j :| 0 <= j < i && keys[j] == keys[i];
        }
        return false, seen;
      }
      assert keys[..i + 1] == keys[..i] + [keys[i]];
      seen := seen + {keys[i]};
    }
    assert keys[..|keys|] == keys;
    ok := true;
  }

  lemma LastTask(items: seq<WorkItem>, phase: Phase)
    requires InPhase(items, phase) && items != []
    ensures Tasks(items) != [] && Tasks(items)[|Tasks(items)| - 1].binary == items[|items| - 1].binary
  {}

  lemma TaskBeforeRun(items: seq<WorkItem>, phase: Phase)
    requires InPhase(items, phase) && RunsMaximal(items) && items != []
    ensures var last := items[|items| - 1];
            var x := |Tasks(items)| - |last.nodeIds| - 1;
            x >= 0 ==> Tasks(items)[x].binary != last.binary
  {
    var init := items[..|items| - 1];
    if init != [] {
      LastTask(init, phase);
    }
  }

  lemma TaskInRun(items: seq<WorkItem>, x: nat)
    requires items != [] && |Tasks(items)| - |items[|items| - 1].nodeIds| <= x < |Tasks(items)|
    ensures Tasks(items)[x].binary == items[|items| - 1].binary
  {}

  /** The last item of one list is not shorter than that of the other. */
  lemma LastRunReaches(a: seq<WorkItem>, b: seq<WorkItem>, phase: Phase)
    requires InPhase(a, phase) && InPhase(b, phase) && RunsMaximal(a)
    requires a != [] && b != [] && Tasks(a) == Tasks(b)
    ensures |a[|a| - 1].nodeIds| >= |b[|b| - 1].nodeIds|
  {
    hide Tasks;
    LastTask(a, phase);
    LastTask(b, phase);
    TasksAtLeast(b);
    var x := |Tasks(a)| - |a[|a| - 1].nodeIds| - 1;
    if x >= 0 && x >= |Tasks(b)| - |b[|b| - 1].nodeIds| {
      TaskInRun(b, x);
      TaskBeforeRun(a, phase);
    }
  }

  lemma TasksAtLeast(items: seq<WorkItem>)
    requires items != []
    ensures |Tasks(items)| >= |items[|items| - 1].nodeIds|
  {}

  /** Items whose neighbours differ in their binary are determined by their tasks. */
  lemma {:induction false} RunsDetermined(a: seq<WorkItem>, b: seq<WorkItem>, phase: Phase)
    requires InPhase(a, phase) && InPhase(b, phase) && RunsMaximal(a) && RunsMaximal(b) && Tasks(a) == Tasks(b)
    ensures SameWork(a, b)
  {
    if a == [] {
      if b != [] {
        LastTask(b, phase);
      }
    } else {
      if b == [] {
        LastTask(a, phase);
      }
      var la, lb := a[|a| - 1], b[|b| - 1];
      var ia, ib := a[..|a| - 1], b[..|b| - 1];
      LastRunReaches(a, b, phase);
      LastRunReaches(b, a, phase);
      SameEnds(Tasks(ia), ItemTasks(la), Tasks(ib), ItemTasks(lb));
      RunsDetermined(ia, ib, phase);
      LastTask(a, phase);
      LastTask(b, phase);
      hide Tasks;
      assert la.nodeIds == lb.nodeIds by {
        forall k | 0 <= k < |la.nodeIds|
          ensures la.nodeIds[k] == lb.nodeIds[k]
        {
          assert ItemTasks(la)[k] == ItemTasks(lb)[k];
        }
      }
      forall k | 0 <= k < |a|
        ensures a[k].binary == b[k].binary && a[k].nodeIds == b[k].nodeIds && a[k].phase == b[k].phase
      {
        if k < |a| - 1 {
          assert ia[k].binary == ib[k].binary;
        }
      }
    }
  }

  lemma SameEnds<T>(a: seq<T>, x: seq<T>, b: seq<T>, y: seq<T>)
    requires a + x == b + y && |x| == |y|
    ensures a == b && x == y
  {
    assert a == (a + x)[..|a|] && x == (a + x)[|a|..];
    assert b == (b + y)[..|b|] && y == (b + y)[|b|..];
  }

  ghost predicate DistinctTags(plans: seq<TagPlan>) {
    forall i, j :: 0 <= i < j < |plans| ==> plans[i].tag != plans[j].tag
  }

  ghost predicate Untouched(items: seq<WorkItem>, e: KeyEdge) {
    e.source !in Flat(items) && e.target !in Flat(items)
  }

  /** Items of other nodes, before or after, change nothing for an edge. */
  lemma RespectAround(p: seq<WorkItem>, q: seq<WorkItem>, s: seq<WorkItem>, t: seq<WorkItem>, e: KeyEdge)
    requires Respects(p, s, e) && Untouched(q, e) && Untouched(t, e)
    ensures Respects(p + q, s + t, e) && Respects(q + p, t + s, e)
  {
    FlatConcat(p, q);
    FlatConcat(q, p);
    FlatConcat(s, t);
    FlatConcat(t, s);
    ItemsAround(p, q, e);
    ListAround(Flat(s), Flat(t), e);
  }

  lemma ItemsAround(p: seq<WorkItem>, q: seq<WorkItem>, e: KeyEdge)
    requires ItemsRespect(p, e) && Untouched(q, e)
    ensures ItemsRespect(p + q, e) && ItemsRespect(q + p, e)
  {
    forall i: nat, a: nat, key | At(p + q, i, a, key) && (key == e.source || key == e.target) ensures At(p, i, a, key) {
      if i >= |p| {
        AtFlat(q, i - |p|, a, key);
      }
    }
    forall i: nat, a: nat, key | At(q + p, i, a, key) && (key == e.source || key == e.target)
      ensures i >= |q| && At(p, i - |q|, a, key)
    {
      if i < |q| {
        AtFlat(q, i, a, key);
      }
    }
  }

  lemma ListAround(s: seq<NodeKey>, t: seq<NodeKey>, e: KeyEdge)
    requires ListRespects(s, e) && e.source !in t && e.target !in t
    ensures ListRespects(s + t, e) && ListRespects(t + s, e)
  {
    forall x | 0 <= x < |t| ensures t[x] != e.source && t[x] != e.target {
      assert t[x] in t;
    }
  }

  /** What the items built so far promise about the plans read so far. */
  ghost predicate Built(plans: seq<TagPlan>, parallelItems: seq<WorkItem>, serialItems: seq<WorkItem>, seen: set<NodeKey>,
                        owner: seq<nat>) {
    && InPhase(parallelItems, Parallel) && InPhase(serialItems, Serial)
    && AllValid(plans)
    && AllRespect(plans, parallelItems, serialItems)
    && NoRepeats(Flat(parallelItems) + Flat(serialItems)) && NoRepeats(PlanKeys(plans))
    && (forall key :: key in seen <==> key in Flat(parallelItems) || key in Flat(serialItems))
    && (forall key :: key in seen <==> key in PlanKeys(plans))
    && TasksExact(plans, parallelItems, serialItems)
    && Groups(plans, parallelItems, owner)
    && Tasks(serialItems) == SerialTasks(plans)
    && (DistinctTags(plans) ==> RunsMaximal(serialItems))
  }

  ghost predicate HasTag(plans: seq<TagPlan>, tag: string) {
    exists p :: p in plans && p.tag == tag
  }

  lemma PlanKeysOne(plans: seq<TagPlan>, p: TagPlan)
    ensures PlanKeys(plans + [p]) == PlanKeys(plans) + KeysOf(p.tag, p.nodes)
  {
    assert (plans + [p])[..|plans|] == plans;
  }

  lemma {:induction false} PlanKeysHas(plans: seq<TagPlan>, i: nat, key: NodeKey)
    requires i < |plans| && key in KeysOf(plans[i].tag, plans[i].nodes)
    ensures key in PlanKeys(plans)
  {
    if i < |plans| - 1 {
      PlanKeysHas(plans[..|plans| - 1], i, key);
    }
  }

  lemma {:induction false} PlanKeysTag(plans: seq<TagPlan>, key: NodeKey)
    requires key in PlanKeys(plans)
    ensures HasTag(plans, key.tag)
  {
    var init, last := plans[..|plans| - 1], plans[|plans| - 1];
    if key in PlanKeys(init) {
      PlanKeysTag(init, key);
    } else {
      KeysOfHas(last.tag, last.nodes, key);
      assert last in plans;
    }
  }

  /** The edges of a valid plan join keys of that plan. */
  lemma EdgeKeys(p: TagPlan, e: Edge)
    requires PlanValid(p) && e in p.edges
    ensures Keyed(p.tag, e).source in KeysOf(p.tag, p.nodes) && Keyed(p.tag, e).target in KeysOf(p.tag, p.nodes)
  {
    KeysOfHas(p.tag, p.nodes, Keyed(p.tag, e).source);
    KeysOfHas(p.tag, p.nodes, Keyed(p.tag, e).target);
  }

  lemma ExtendRespect(plans: seq<TagPlan>, parallelItems: seq<WorkItem>, serialItems: seq<WorkItem>, seen: set<NodeKey>,
                      p: TagPlan, tagParallel: seq<WorkItem>, tagSerial: seq<WorkItem>)
    requires AllRespect(plans, parallelItems, serialItems) && Classified(p, tagParallel, tagSerial)
    requires AllValid(plans)
    requires forall key :: key in seen <==> key in Flat(parallelItems) || key in Flat(serialItems)
    requires forall key :: key in seen <==> key in PlanKeys(plans)
    requires forall key :: key in KeysOf(p.tag, p.nodes) ==> key !in seen
    ensures AllRespect(plans + [p], parallelItems + tagParallel, serialItems + tagSerial)
  {
    var all := plans + [p];
    forall i, e | 0 <= i < |all| && e in all[i].edges && PlanOrdered(all[i].nodes, all[i].edges)
      ensures Respects(parallelItems + tagParallel, serialItems + tagSerial, Keyed(all[i].tag, e))
    {
      EdgeKeys(all[i], e);
      var k := Keyed(all[i].tag, e);
      ClassifiedKeys(p, tagParallel, tagSerial, k.source);
      ClassifiedKeys(p, tagParallel, tagSerial, k.target);
      if i < |plans| {
        PlanKeysHas(plans, i, k.source);
        PlanKeysHas(plans, i, k.target);
        RespectAround(parallelItems, tagParallel, serialItems, tagSerial, k);
      } else {
        TagRespects(p.tag, p.nodes, p.edges, p.paths, tagParallel, tagSerial, e);
        RespectAround(tagParallel, parallelItems, tagSerial, serialItems, k);
      }
    }
  }

  lemma ExtendNoRepeats(a: seq<NodeKey>, b: seq<NodeKey>, c: seq<NodeKey>, d: seq<NodeKey>)
    requires NoRepeats(a + b) && NoRepeats(c + d) && Apart(a + b, c + d)
    ensures NoRepeats((a + c) + (b + d))
  {
    NoRepeatsConcat(a, b);
    NoRepeatsConcat(c, d);
    forall key | key in a || key in b ensures key in a + b {}
    forall key | key in c || key in d ensures key in c + d {}
    NoRepeatsConcat(a, c);
    NoRepeatsConcat(b, d);
    NoRepeatsConcat(a + c, b + d);
  }

  lemma OnePlanMore(plans: seq<TagPlan>, p: TagPlan, t: Task, serial: bool)
    ensures TaskFrom(plans + [p], t, serial) <==> TaskFrom(plans, t, serial) || PlanTask(p, t, serial)
  {
    hide PlanTask;
    assert forall q :: q in plans + [p] <==> q in plans || q == p;
  }

  lemma ExtendTasks(plans: seq<TagPlan>, parallelItems: seq<WorkItem>, serialItems: seq<WorkItem>,
                    p: TagPlan, tagParallel: seq<WorkItem>, tagSerial: seq<WorkItem>)
    requires TasksExact(plans, parallelItems, serialItems) && Classified(p, tagParallel, tagSerial)
    ensures TasksExact(plans + [p], parallelItems + tagParallel, serialItems + tagSerial)
  {
    hide Tasks;
    hide TaskFrom;
    hide PlanTask;
    TasksConcat(parallelItems, tagParallel);
    TasksConcat(serialItems, tagSerial);
    ClassifiedSerialTasks(p, tagParallel, tagSerial);
    forall t
      ensures t in Tasks(parallelItems + tagParallel) <==> TaskFrom(plans + [p], t, false)
      ensures t in Tasks(serialItems + tagSerial) <==> TaskFrom(plans + [p], t, true)
    {
      OnePlanMore(plans, p, t, false);
      OnePlanMore(plans, p, t, true);
      ClassifiedParallelTasks(p, tagParallel, tagSerial, t);
      SerialPartTasks(p, t);
    }
  }

  lemma ExtendSerialTasks(plans: seq<TagPlan>, serialItems: seq<WorkItem>, p: TagPlan, tagParallel: seq<WorkItem>,
        tagSerial: seq<WorkItem>)
    requires AllValid(plans) && Tasks(serialItems) == SerialTasks(plans) && Classified(p, tagParallel, tagSerial)
    ensures AllValid(plans + [p])
    ensures Tasks(serialItems + tagSerial) == SerialTasks(plans + [p])
  {
    hide Tasks;
    hide PlanSerialTasks;
    hide ParallelItems;
    hide SerialItems;
    TasksConcat(serialItems, tagSerial);
    ClassifiedSerialTasks(p, tagParallel, tagSerial);
    hide PlanValid;
    assert (plans + [p])[..|plans|] == plans;
  }

  function Owners(i: nat, n: nat): (owner: seq<nat>)
    ensures |owner| == n && forall x :: 0 <= x < n ==> owner[x] == i
  {
    seq(n, _ => i)
  }

  lemma ExtendGroups(plans: seq<TagPlan>, items: seq<WorkItem>, owner: seq<nat>,
                     p: TagPlan, tagParallel: seq<WorkItem>, tagSerial: seq<WorkItem>)
    requires Groups(plans, items, owner) && Classified(p, tagParallel, tagSerial)
    ensures Groups(plans + [p], items + tagParallel, owner + Owners(|plans|, |tagParallel|))
  {
    hide GroupOf;
    hide HasGroup;
    var all, joined, owners := plans + [p], items + tagParallel, owner + Owners(|plans|, |tagParallel|);
    ClassifiedGroups(p, tagParallel, tagSerial);
    TagOrder(p, tagParallel, tagSerial);
    hide Classified;
    hide StartsBefore;
    forall x | 0 <= x < |joined|
      ensures owners[x] < |all| && GroupOf(all[owners[x]], joined[x])
    {
      if x < |items| {
        assert all[owner[x]] == plans[owner[x]];
      }
    }
    forall x, y | 0 <= x < y < |joined|
      ensures owners[x] < owners[y] || SamePlanInOrder(all, joined, owners, x, y)
    {
      if y < |items| {
        assert owner[x] < owner[y] || SamePlanInOrder(plans, items, owner, x, y);
      }
    }
    forall i: nat, key | i < |all| && HasGroup(all[i], key)
      ensures HasItem(joined, owners, i, key)
    {
      OwnerHasItem(plans, items, owner, p, tagParallel, i, key);
    }
  }

  /** Inside one plan the items stand in order of their first node. */
  lemma TagOrder(p: TagPlan, tagParallel: seq<WorkItem>, tagSerial: seq<WorkItem>)
    requires Classified(p, tagParallel, tagSerial)
    ensures forall x, y :: 0 <= x < y < |tagParallel| ==>
              && tagParallel[x].binary.key != tagParallel[y].binary.key
              && StartsBefore(p.nodes, SerialSet(p.nodes, p.edges), tagParallel[x].binary.key, tagParallel[y].binary.key)
  {
    hide StartsBefore;
    hide SerialSet;
  }

  lemma OwnerHasItem(plans: seq<TagPlan>, items: seq<WorkItem>, owner: seq<nat>, p: TagPlan, tagParallel: seq<WorkItem>,
                     i: nat, key: BinaryKey)
    requires Groups(plans, items, owner) && i < |plans + [p]| && HasGroup((plans + [p])[i], key)
    requires HasGroup(p, key) ==> exists x :: 0 <= x < |tagParallel| && tagParallel[x].binary.key == key
    ensures HasItem(items + tagParallel, owner + Owners(|plans|, |tagParallel|), i, key)
  {
    hide GroupOf;
    hide HasGroup;
    var joined, owners := items + tagParallel, owner + Owners(|plans|, |tagParallel|);
    if i < |plans| {
      assert HasItem(items, owner, i, key);
      var x :| 0 <= x < |items| && owner[x] == i && items[x].binary.key == key;
      assert owners[x] == i && joined[x].binary.key == key;
    } else {
      var x :| 0 <= x < |tagParallel| && tagParallel[x].binary.key == key;
      assert owners[|items| + x] == i && joined[|items| + x].binary.key == key;
    }
  }

  /** Parallel items share a binary exactly when two plans of one tag do. */
  lemma OverlapExactly(plans: seq<TagPlan>, items: seq<WorkItem>, owner: seq<nat>)
    requires Groups(plans, items, owner)
    ensures DistinctBinaries(items) <==> !SharedBinary(plans)
  {
    hide SerialSet;
    hide StartsBefore;
    hide HasGroup;
    forall x | 0 <= x < |items|
      ensures HasGroup(plans[owner[x]], items[x].binary.key)
    {
      GroupHasNode(plans[owner[x]], items[x]);
    }
    if x, y :| 0 <= x < y < |items| && items[x].binary == items[y].binary {
      assert owner[x] < owner[y] || SamePlanInOrder(plans, items, owner, x, y);
      assert ShareGroup(plans[owner[x]], plans[owner[y]], items[x].binary.key);
    }
    if i: nat, j: nat, key :| 0 <= i < j < |plans| && ShareGroup(plans[i], plans[j], key) {
      assert HasItem(items, owner, i, key) && HasItem(items, owner, j, key);
      var x :| 0 <= x < |items| && owner[x] == i && items[x].binary.key == key;
      var y :| 0 <= y < |items| && owner[y] == j && items[y].binary.key == key;
      assert GroupOf(plans[owner[x]], items[x]) && GroupOf(plans[owner[y]], items[y]);
      assert items[x].binary == items[y].binary;
    }
  }

  lemma GroupHasNode(p: TagPlan, item: WorkItem)
    requires GroupOf(p, item)
    ensures HasGroup(p, item.binary.key)
  {
    hide SerialSet;
    var group := Select(p.nodes, InGroup(SerialSet(p.nodes, p.edges), item.binary.key));
    assert |group| == |item.nodeIds|;
    assert group[0] in group;
  }

  lemma ExtendRuns(plans: seq<TagPlan>, serialItems: seq<WorkItem>, p: TagPlan, tagParallel: seq<WorkItem>,
        tagSerial: seq<WorkItem>)
    requires InPhase(serialItems, Serial) && Classified(p, tagParallel, tagSerial)
    requires forall t :: t in Tasks(serialItems) ==> TaskFrom(plans, t, true)
    requires DistinctTags(plans) ==> RunsMaximal(serialItems)
    ensures DistinctTags(plans + [p]) ==> RunsMaximal(serialItems + tagSerial)
  {
    var all, joined, n := plans + [p], serialItems + tagSerial, |serialItems|;
    if DistinctTags(all) {
      assert forall i, j :: 0 <= i < j < |plans| ==> all[i] == plans[i] && all[j] == plans[j];
      if n > 0 && tagSerial != [] {
        assert IsSegment(p.tag, p.nodes, p.paths, tagSerial[0], 0);
        LastTag(plans, serialItems);
        var k :| 0 <= k < |plans| && plans[k].tag == serialItems[n - 1].binary.tag;
        assert all[k].tag != all[|plans|].tag;
      }
      hide InPhase;
      hide TaskFrom;
      hide IsSegment;
      hide DistinctTags;
      forall k | 0 < k < |joined|
        ensures joined[k - 1].binary != joined[k].binary
      {
        if k > n {
          assert tagSerial[k - n - 1].binary.key != tagSerial[k - n].binary.key;
        }
      }
    }
  }

  lemma LastTag(plans: seq<TagPlan>, items: seq<WorkItem>)
    requires InPhase(items, Serial) && items != []
    requires forall t :: t in Tasks(items) ==> TaskFrom(plans, t, true)
    ensures exists k :: 0 <= k < |plans| && plans[k].tag == items[|items| - 1].binary.tag
  {
    TasksHave(items, |items| - 1, 0);
    var t := ItemTasks(items[|items| - 1])[0];
    hide Tasks;
    assert TaskFrom(plans, t, true);
    var p :| p in plans && PlanTask(p, t, true);
    var n :| n in p.nodes && NodeTask(p, n, t, true);
    var k :| 0 <= k < |plans| && plans[k] == p;
    assert plans[k].tag == items[|items| - 1].binary.tag;
  }

  lemma KeysNoRepeats(p: TagPlan)
    requires PlanValid(p)
    ensures NoRepeats(KeysOf(p.tag, p.nodes))
  {}

  lemma Extend(plans: seq<TagPlan>, parallelItems: seq<WorkItem>, serialItems: seq<WorkItem>, seen: set<NodeKey>,
        owner: seq<nat>,
               p: TagPlan, tagParallel: seq<WorkItem>, tagSerial: seq<WorkItem>, seen': set<NodeKey>)
    requires Built(plans, parallelItems, serialItems, seen, owner) && Classified(p, tagParallel, tagSerial)
    requires forall key :: key in KeysOf(p.tag, p.nodes) ==> key !in seen
    requires seen' == seen + set key | key in KeysOf(p.tag, p.nodes)
    ensures Built(plans + [p], parallelItems + tagParallel, serialItems + tagSerial, seen', owner + Owners(|plans|, |tagParallel|))
  {
    hide Flat;
    hide PlanKeys;
    hide KeysOf;
    hide AllRespect;
    hide NoRepeats;
    hide DistinctTags;
    hide ParallelItems;
    hide SerialItems;
    hide UniqueIds;
    hide EdgesKnown;
    hide PathsKnown;
    hide TasksExact;
    hide Groups;
    hide Tasks;
    hide SerialTasks;
    hide RunsMaximal;
    ExtendRespect(plans, parallelItems, serialItems, seen, p, tagParallel, tagSerial);
    ClassifiedPhases(p, tagParallel, tagSerial);
    ExtendKeys(plans, parallelItems, serialItems, seen, p, tagParallel, tagSerial, seen');
    ExtendTasks(plans, parallelItems, serialItems, p, tagParallel, tagSerial);
    ExtendSerialTasks(plans, serialItems, p, tagParallel, tagSerial);
    ExtendGroups(plans, parallelItems, owner, p, tagParallel, tagSerial);
    SerialFrom(plans, parallelItems, serialItems);
    ExtendRuns(plans, serialItems, p, tagParallel, tagSerial);
  }

  lemma SerialFrom(plans: seq<TagPlan>, parallelItems: seq<WorkItem>, serialItems: seq<WorkItem>)
    requires TasksExact(plans, parallelItems, serialItems)
    ensures forall t :: t in Tasks(serialItems) ==> TaskFrom(plans, t, true)
  {
    hide TaskFrom;
  }

  lemma ExtendKeys(plans: seq<TagPlan>, parallelItems: seq<WorkItem>, serialItems: seq<WorkItem>, seen: set<NodeKey>,
                   p: TagPlan, tagParallel: seq<WorkItem>, tagSerial: seq<WorkItem>, seen': set<NodeKey>)
    requires NoRepeats(Flat(parallelItems) + Flat(serialItems)) && NoRepeats(PlanKeys(plans))
    requires forall key :: key in seen <==> key in Flat(parallelItems) || key in Flat(serialItems)
    requires forall key :: key in seen <==> key in PlanKeys(plans)
    requires Classified(p, tagParallel, tagSerial) && forall key :: key in KeysOf(p.tag, p.nodes) ==> key !in seen
    requires seen' == seen + set key | key in KeysOf(p.tag, p.nodes)
    ensures NoRepeats(Flat(parallelItems + tagParallel) + Flat(serialItems + tagSerial))
    ensures NoRepeats(PlanKeys(plans + [p]))
    ensures forall key :: key in seen' <==> key in Flat(parallelItems + tagParallel) || key in Flat(serialItems + tagSerial)
    ensures forall key :: key in seen' <==> key in PlanKeys(plans + [p])
  {
    hide Flat;
    hide PlanKeys;
    hide KeysOf;
    hide NoRepeats;
    hide ParallelItems;
    hide SerialItems;
    TagNoRepeats(p.tag, p.nodes, p.edges, p.paths, tagParallel, tagSerial);
    FlatConcat(parallelItems, tagParallel);
    FlatConcat(serialItems, tagSerial);
    forall key ensures key in Flat(tagParallel) || key in Flat(tagSerial) <==> key in KeysOf(p.tag, p.nodes) {
      ClassifiedKeys(p, tagParallel, tagSerial, key);
    }
    assert Apart(Flat(parallelItems) + Flat(serialItems), Flat(tagParallel) + Flat(tagSerial));
    ExtendNoRepeats(Flat(parallelItems), Flat(serialItems), Flat(tagParallel), Flat(tagSerial));
    PlanKeysOne(plans, p);
    KeysNoRepeats(p);
    assert Apart(PlanKeys(plans), KeysOf(p.tag, p.nodes));
    NoRepeatsConcat(PlanKeys(plans), KeysOf(p.tag, p.nodes));
  }

  method CheckBinaries(items: seq<WorkItem>) returns (ok: bool)
    ensures ok <==> DistinctBinaries(items)
  {
    var seen: set<Binary> := {};
    for i := 0 to |items|
      invariant seen == set j | 0 <= j < i :: items[j].binary
      invariant DistinctBinaries(items[..i])
    {
      if items[i].binary in seen {
        return false;
      }
      seen := seen + {items[i].binary};
    }
    assert items[..|items|] == items;
    ok := true;
  }

  /** Every node of an item is a node of some plan, on the item's binary, and in the right phase. */
  ghost predicate Owned(plans: seq<TagPlan>, items: seq<WorkItem>, serial: bool) {
    forall t :: t in Tasks(items) ==> TaskFrom(plans, t, serial)
  }

  /** What a schedule of the whole batch promises. */
  ghost predicate ScheduleFor(plans: seq<TagPlan>, schedule: Schedule) {
    && Numbered(schedule.parallelItems, Parallel) && InPhase(schedule.parallelItems, Parallel)
    && Numbered(schedule.serialItems, Serial) && InPhase(schedule.serialItems, Serial)
    && DistinctBinaries(schedule.parallelItems)
    && AllRespect(plans, schedule.parallelItems, schedule.serialItems)
    && NoRepeats(Flat(schedule.parallelItems) + Flat(schedule.serialItems))
    && Owned(plans, schedule.parallelItems, false) && Owned(plans, schedule.serialItems, true)
  }

  /** Every node of every plan is scheduled, in the phase that its plan's serial set says. */
  ghost predicate Covers(plans: seq<TagPlan>, schedule: Schedule) {
    && (forall key :: key in PlanKeys(plans) <==> key in Flat(schedule.parallelItems) || key in Flat(schedule.serialItems))
    && TasksExact(plans, schedule.parallelItems, schedule.serialItems)
  }

  /** The schedule in full, up to the item ids: the parallel items plan by plan and binary by binary, the serial nodes plan
      by plan, cut where the binary changes. */
  ghost predicate InPlanOrder(plans: seq<TagPlan>, schedule: Schedule)
    requires AllValid(plans)
  {
    && (exists owner :: Groups(plans, schedule.parallelItems, owner))
    && Tasks(schedule.serialItems) == SerialTasks(plans)
    && (DistinctTags(plans) ==> RunsMaximal(schedule.serialItems))
  }

  lemma NothingBuilt()
    ensures Built([], [], [], {}, [])
  {
    hide SerialSet;
    hide HasGroup;
    hide PlanTask;
    hide Respects;
  }

  method BuildBatchSchedule(plans: seq<TagPlan>) returns (result: Result<Schedule, PlanError>)
    ensures result.Ok? <==> AllValid(plans) && NoRepeats(PlanKeys(plans)) && !SharedBinary(plans)
    ensures result.Ok? ==> ScheduleFor(plans, result.value) && Covers(plans, result.value) && InPlanOrder(plans, result.value)
    ensures DistinctTags(plans) && AllValid(plans) ==> result.Ok?
  {
    NothingBuilt();
    hide Flat;
    hide PlanKeys;
    hide KeysOf;
    hide NoRepeats;
    hide DistinctBinaries;
    hide SharedBinary;
    hide ScheduleFor;
    hide Covers;
    hide InPlanOrder;
    hide ParallelItems;
    hide SerialItems;
    hide UniqueIds;
    hide EdgesKnown;
    hide PathsKnown;
    hide Built;
    var parallelItems: seq<WorkItem> := [];
    var serialItems: seq<WorkItem> := [];
    var seen: set<NodeKey> := {};
    ghost var owner: seq<nat> := [];
    DistinctTagsSuffice(plans);
    assert plans[..0] == [];
    for i := 0 to |plans|
      invariant Built(plans[..i], parallelItems, serialItems, seen, owner)
    {
      var p := plans[i];
      var classified := ClassifyTagPlan(p.tag, p.nodes, p.edges, p.paths);
      if classified.Err? {
        return Err(classified.error);
      }
      var (tagParallel, tagSerial) := classified.value;
      var ok, now := AddPlan(seen, p, tagParallel, tagSerial);
      if !ok {
        RepeatedKey(plans, i, parallelItems, serialItems, seen, owner);
        return Err(NodeInSeveralItems(p.tag));
      }
      Extend(plans[..i], parallelItems, serialItems, seen, owner, p, tagParallel, tagSerial, now);
      PrefixOne(plans, i);
      seen := now;
      parallelItems := parallelItems + tagParallel;
      serialItems := serialItems + tagSerial;
      owner := owner + Owners(i, |tagParallel|);
    }
    WholePrefix(plans);
    BuiltDecides(plans, parallelItems, serialItems, seen, owner);
    var distinct := CheckBinaries(parallelItems);
    if !distinct {
      return Err(OverlappingBinary);
    }
    var numberedParallel := Renumber(parallelItems, Parallel);
    var numberedSerial := Renumber(serialItems, Serial);
    RenumberedSchedule(plans, parallelItems, serialItems, seen, owner, numberedParallel, numberedSerial);
    return Ok(Schedule(numberedParallel, numberedSerial));
  }

  lemma BuiltDecides(plans: seq<TagPlan>, parallelItems: seq<WorkItem>, serialItems: seq<WorkItem>,
        seen: set<NodeKey>, owner: seq<nat>)
    requires Built(plans, parallelItems, serialItems, seen, owner)
    ensures AllValid(plans) && NoRepeats(PlanKeys(plans)) && (DistinctBinaries(parallelItems) <==> !SharedBinary(plans))
    ensures InPhase(parallelItems, Parallel) && InPhase(serialItems, Serial)
  {
    OverlapExactly(plans, parallelItems, owner);
  }

  method AddPlan(seen0: set<NodeKey>, p: TagPlan, tagParallel: seq<WorkItem>, tagSerial: seq<WorkItem>)
    returns (ok: bool, seen: set<NodeKey>)
    requires Classified(p, tagParallel, tagSerial)
    ensures ok <==> forall key :: key in KeysOf(p.tag, p.nodes) ==> key !in seen0
    ensures ok ==> seen == seen0 + set key | key in KeysOf(p.tag, p.nodes)
  {
    var keys := Flat(tagParallel) + Flat(tagSerial);
    ok, seen := AddKeys(seen0, keys);
    TagNoRepeats(p.tag, p.nodes, p.edges, p.paths, tagParallel, tagSerial);
    forall key ensures key in keys <==> key in KeysOf(p.tag, p.nodes) {
      ClassifiedKeys(p, tagParallel, tagSerial, key);
    }
  }

  lemma {:induction false} PlanKeysPrefix(plans: seq<TagPlan>, i: nat)
    requires i <= |plans| && NoRepeats(PlanKeys(plans))
    ensures NoRepeats(PlanKeys(plans[..i]))
    decreases |plans|
  {
    if i == |plans| {
      WholePrefix(plans);
    } else {
      var n := |plans| - 1;
      NoRepeatsConcat(PlanKeys(plans[..n]), KeysOf(plans[n].tag, plans[n].nodes));
      hide PlanKeys;
      hide NoRepeats;
      PlanKeysPrefix(plans[..n], i);
      assert plans[..n][..i] == plans[..i];
    }
  }

  /** A key that was seen before is repeated. */
  lemma RepeatedKey(plans: seq<TagPlan>, i: nat, parallelItems: seq<WorkItem>, serialItems: seq<WorkItem>,
        seen: set<NodeKey>,
                    owner: seq<nat>)
    requires i < |plans| && Built(plans[..i], parallelItems, serialItems, seen, owner)
    requires exists key :: key in KeysOf(plans[i].tag, plans[i].nodes) && key in seen
    ensures !NoRepeats(PlanKeys(plans))
  {
    var key :| key in KeysOf(plans[i].tag, plans[i].nodes) && key in seen;
    assert key in PlanKeys(plans[..i]);
    hide Built;
    hide PlanKeys;
    hide KeysOf;
    if NoRepeats(PlanKeys(plans)) {
      PlanKeysPrefix(plans, i + 1);
      hide NoRepeats;
      PrefixOne(plans, i);
      PlanKeysOne(plans[..i], plans[i]);
      NoRepeatsConcat(PlanKeys(plans[..i]), KeysOf(plans[i].tag, plans[i].nodes));
      assert false;
    }
  }

  /** Valid plans of distinct tags repeat no key and share no binary. */
  lemma {:induction false} DistinctTagsSuffice(plans: seq<TagPlan>)
    ensures DistinctTags(plans) && AllValid(plans) ==> NoRepeats(PlanKeys(plans)) && !SharedBinary(plans)
  {
    if DistinctTags(plans) && AllValid(plans) {
      DistinctTagsKeys(plans);
      hide NoRepeats;
    }
  }

  lemma {:induction false} DistinctTagsKeys(plans: seq<TagPlan>)
    requires DistinctTags(plans) && AllValid(plans)
    ensures NoRepeats(PlanKeys(plans))
  {
    if plans != [] {
      var n := |plans| - 1;
      var init, last := plans[..n], plans[n];
      assert forall i, j :: 0 <= i < j < n ==> init[i] == plans[i] && init[j] == plans[j];
      DistinctTagsKeys(init);
      KeysNoRepeats(last);
      hide NoRepeats;
      forall key | key in PlanKeys(init)
        ensures key !in KeysOf(last.tag, last.nodes)
      {
        PlanKeysTag(init, key);
        KeysOfHas(last.tag, last.nodes, key);
        var q :| q in init && q.tag == key.tag;
        var k :| 0 <= k < n && init[k] == q;
        assert plans[k].tag != plans[n].tag;
      }
      NoRepeatsConcat(PlanKeys(init), KeysOf(last.tag, last.nodes));
    }
  }

  lemma {:induction false} SameTasks(a: seq<WorkItem>, b: seq<WorkItem>)
    requires SameWork(a, b)
    ensures Tasks(a) == Tasks(b)
  {
    if a != [] {
      SameTasks(a[..|a| - 1], b[..|b| - 1]);
      assert ItemTasks(a[|a| - 1]) == ItemTasks(b[|b| - 1]);
    }
  }

  lemma SameGroups(plans: seq<TagPlan>, a: seq<WorkItem>, b: seq<WorkItem>, owner: seq<nat>)
    requires SameWork(a, b) && Groups(plans, a, owner)
    ensures Groups(plans, b, owner)
  {
    hide HasGroup;
    hide StartsBefore;
    hide SerialSet;
    hide Select;
    forall x | 0 <= x < |b|
      ensures GroupOf(plans[owner[x]], b[x])
    {
      assert ItemKeys(a[x]) == ItemKeys(b[x]);
    }
    hide GroupOf;
    forall x, y | 0 <= x < y < |b|
      ensures owner[x] < owner[y] || SamePlanInOrder(plans, b, owner, x, y)
    {
      assert owner[x] < owner[y] || SamePlanInOrder(plans, a, owner, x, y);
    }
    forall i: nat, key | i < |plans| && HasGroup(plans[i], key)
      ensures HasItem(b, owner, i, key)
    {
      assert HasItem(a, owner, i, key);
      var x :| 0 <= x < |a| && owner[x] == i && a[x].binary.key == key;
      assert b[x].binary.key == key;
    }
  }

  lemma SameAllRespect(plans: seq<TagPlan>, a: seq<WorkItem>, b: seq<WorkItem>, c: seq<WorkItem>, d: seq<WorkItem>)
    requires SameWork(a, b) && SameWork(c, d) && AllRespect(plans, a, c)
    ensures AllRespect(plans, b, d)
  {
    hide Respects;
    hide SameWork;
    forall i, e | 0 <= i < |plans| && e in plans[i].edges && PlanOrdered(plans[i].nodes, plans[i].edges)
      ensures Respects(b, d, Keyed(plans[i].tag, e))
    {
      SameRespect(a, b, c, d, Keyed(plans[i].tag, e));
    }
  }

  lemma RenumberedSchedule(plans: seq<TagPlan>, a: seq<WorkItem>, c: seq<WorkItem>, seen: set<NodeKey>, owner: seq<nat>,
                           b: seq<WorkItem>, d: seq<WorkItem>)
    requires Built(plans, a, c, seen, owner) && DistinctBinaries(a)
    requires SameWork(a, b) && SameWork(c, d) && Numbered(b, Parallel) && Numbered(d, Serial)
    ensures AllValid(plans)
    ensures ScheduleFor(plans, Schedule(b, d)) && Covers(plans, Schedule(b, d)) && InPlanOrder(plans, Schedule(b, d))
  {
    hide AllRespect;
    hide Groups;
    hide Flat;
    hide Tasks;
    hide TaskFrom;
    hide SerialTasks;
    hide NoRepeats;
    hide PlanKeys;
    hide DistinctTags;
    SameFlat(a, b);
    SameFlat(c, d);
    SameTasks(a, b);
    SameTasks(c, d);
    SameGroups(plans, a, b, owner);
    SameAllRespect(plans, a, b, c, d);
  }
}
