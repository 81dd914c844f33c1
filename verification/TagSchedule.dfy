/** The schedule of one tag: what its classification promises about dependencies, nodes and binaries. */
module TagSchedule {
  import opened PlanTypes
  import opened BatchTypes
  import opened Sequences
  import opened Classification

  // ---------------------------------------------------------------------------------------------
  // Dependency order of a schedule.

  ghost predicate At(items: seq<WorkItem>, i: nat, a: nat, key: NodeKey) {
    i < |items| && a < |items[i].nodeIds| && ItemKeys(items[i])[a] == key
  }

  /** Both ends in parallel items: the same item, source first. */
  ghost predicate ItemsRespect(items: seq<WorkItem>, e: KeyEdge) {
    forall i, a, j, b :: At(items, i, a, e.source) && At(items, j, b, e.target) ==> i == j && a < b
  }

  ghost predicate ListRespects(keys: seq<NodeKey>, e: KeyEdge) {
    forall x, y :: 0 <= x < |keys| && 0 <= y < |keys| && keys[x] == e.source && keys[y] == e.target ==> x < y
  }

  /** A scheduled source comes before its scheduled target, whichever phases they are in. */
  ghost predicate Respects(parallelItems: seq<WorkItem>, serialItems: seq<WorkItem>, e: KeyEdge) {
    && ItemsRespect(parallelItems, e)
    && (e.target in Flat(parallelItems) ==> e.source !in Flat(serialItems))
    && ListRespects(Flat(serialItems), e)
  }

  /** The plan lists every source before its targets. */
  ghost predicate PlanOrdered(nodes: seq<Node>, edges: seq<Edge>) {
    forall i, j :: 0 <= i < |nodes| && 0 <= j < |nodes| && Edge(nodes[i].id, nodes[j].id) in edges ==> i < j
  }

  function Keyed(tag: string, e: Edge): KeyEdge {
    KeyEdge(NodeKey(tag, e.source), NodeKey(tag, e.target))
  }

  lemma FlatHas(items: seq<WorkItem>, key: NodeKey) returns (i: nat, a: nat)
    requires key in Flat(items)
    ensures At(items, i, a, key)
  {
    var x :| 0 <= x < |Flat(items)| && Flat(items)[x] == key;
    i, a := FlatMember(items, x);
  }

  lemma AtFlat(items: seq<WorkItem>, i: nat, a: nat, key: NodeKey)
    requires At(items, i, a, key)
    ensures key in Flat(items)
  {
    FlatAt(items, i, a);
  }

  /** A selection from an ordered plan is ordered. */
  lemma SelectedOrder(nodes: seq<Node>, edges: seq<Edge>, keep: Node -> bool, e: Edge, x: nat, y: nat)
    requires PlanOrdered(nodes, edges) && e in edges
    requires x < |Select(nodes, keep)| && y < |Select(nodes, keep)|
    requires Select(nodes, keep)[x].id == e.source && Select(nodes, keep)[y].id == e.target
    ensures x < y
  {
    if y <= x {
      var i, j := SelectEmbeds(nodes, keep, y, x);
      NotBackwards(nodes, edges, i, j);
    }
  }

  lemma NotBackwards(nodes: seq<Node>, edges: seq<Edge>, i: nat, j: nat)
    requires PlanOrdered(nodes, edges) && i <= j < |nodes|
    ensures Edge(nodes[j].id, nodes[i].id) !in edges
  {}

  /** Which node stands at a place of a parallel item. */
  lemma GroupNode(tag: string, nodes: seq<Node>, serial: set<NodeId>, paths: map<BinaryKey, string>,
                  items: seq<WorkItem>, i: nat, a: nat, key: NodeKey) returns (n: Node)
    requires ParallelItems(tag, nodes, serial, paths, items) && At(items, i, a, key)
    ensures n in nodes && n.id !in serial && n.binary == items[i].binary.key && key == NodeKey(tag, n.id)
    ensures a < |Select(nodes, InGroup(serial, items[i].binary.key))|
    ensures n == Select(nodes, InGroup(serial, items[i].binary.key))[a]
  {
    assert IsGroup(tag, nodes, serial, paths, items[i], i);
    var chosen := Select(nodes, InGroup(serial, items[i].binary.key));
    n := chosen[a];
    assert n in chosen;
  }

  lemma TagItemsRespect(tag: string, nodes: seq<Node>, edges: seq<Edge>, paths: map<BinaryKey, string>,
                        items: seq<WorkItem>, e: Edge)
    requires EdgesKnown(nodes, edges) && PlanOrdered(nodes, edges) && e in edges
    requires ParallelItems(tag, nodes, SerialSet(nodes, edges), paths, items)
    ensures ItemsRespect(items, Keyed(tag, e))
  {
    var serial := SerialSet(nodes, edges);
    forall i, a, j, b | At(items, i, a, NodeKey(tag, e.source)) && At(items, j, b, NodeKey(tag, e.target))
      ensures i == j && a < b
    {
      var s := GroupNode(tag, nodes, serial, paths, items, i, a, NodeKey(tag, e.source));
      var t := GroupNode(tag, nodes, serial, paths, items, j, b, NodeKey(tag, e.target));
      SerialSetClosed(nodes, edges);
      assert s.binary == t.binary;
      SelectedOrder(nodes, edges, InGroup(serial, s.binary), e, a, b);
    }
  }

  /** Which node stands at a place of the serial queue. */
  lemma QueueNode(tag: string, nodes: seq<Node>, serial: set<NodeId>, paths: map<BinaryKey, string>,
                  items: seq<WorkItem>, x: nat) returns (n: Node)
    requires SerialItems(tag, nodes, serial, paths, items) && x < |Flat(items)|
    ensures n in nodes && n.id in serial && Flat(items)[x] == NodeKey(tag, n.id)
    ensures x < |Select(nodes, InSerial(serial))| && n == Select(nodes, InSerial(serial))[x]
  {
    n := Select(nodes, InSerial(serial))[x];
    assert n in Select(nodes, InSerial(serial));
  }

  lemma TagSerialRespects(tag: string, nodes: seq<Node>, edges: seq<Edge>, paths: map<BinaryKey, string>,
                          items: seq<WorkItem>, e: Edge)
    requires EdgesKnown(nodes, edges) && PlanOrdered(nodes, edges) && e in edges
    requires SerialItems(tag, nodes, SerialSet(nodes, edges), paths, items)
    ensures ListRespects(Flat(items), Keyed(tag, e))
  {
    var serial := SerialSet(nodes, edges);
    forall x, y | 0 <= x < |Flat(items)| && 0 <= y < |Flat(items)| && Flat(items)[x] == Keyed(tag, e).source
                  && Flat(items)[y] == Keyed(tag, e).target
      ensures x < y
    {
      var s := QueueNode(tag, nodes, serial, paths, items, x);
      var t := QueueNode(tag, nodes, serial, paths, items, y);
      SelectedOrder(nodes, edges, InSerial(serial), e, x, y);
    }
  }

  lemma TagRespects(tag: string, nodes: seq<Node>, edges: seq<Edge>, paths: map<BinaryKey, string>,
                    parallelItems: seq<WorkItem>, serialItems: seq<WorkItem>, e: Edge)
    requires EdgesKnown(nodes, edges) && PlanOrdered(nodes, edges) && e in edges
    requires ParallelItems(tag, nodes, SerialSet(nodes, edges), paths, parallelItems)
    requires SerialItems(tag, nodes, SerialSet(nodes, edges), paths, serialItems)
    ensures Respects(parallelItems, serialItems, Keyed(tag, e))
  {
    TagItemsRespect(tag, nodes, edges, paths, parallelItems, e);
    TagSerialRespects(tag, nodes, edges, paths, serialItems, e);
    ParallelKeys(tag, nodes, SerialSet(nodes, edges), paths, parallelItems, Keyed(tag, e).target);
    SerialKeys(tag, nodes, SerialSet(nodes, edges), paths, serialItems, Keyed(tag, e).source);
    SerialSetClosed(nodes, edges);
  }

  // ---------------------------------------------------------------------------------------------
  // The items of one tag partition its nodes.

  ghost predicate NoRepeats(keys: seq<NodeKey>) {
    forall x, y :: 0 <= x < y < |keys| ==> keys[x] != keys[y]
  }

  /** The keys of the parallel items are the nodes outside the serial set. */
  lemma ParallelKeys(tag: string, nodes: seq<Node>, serial: set<NodeId>, paths: map<BinaryKey, string>,
                     items: seq<WorkItem>, key: NodeKey)
    requires ParallelItems(tag, nodes, serial, paths, items)
    ensures key in Flat(items) <==> key.tag == tag && key.id in Ids(nodes) && key.id !in serial
  {
    if key in Flat(items) {
      var i, a := FlatHas(items, key);
      var n := GroupNode(tag, nodes, serial, paths, items, i, a, key);
    }
    if key.tag == tag && key.id in Ids(nodes) && key.id !in serial {
      var n :| n in nodes && n.id == key.id;
      var i :| 0 <= i < |items| && items[i].binary.key == n.binary;
      assert IsGroup(tag, nodes, serial, paths, items[i], i);
      var group := Select(nodes, InGroup(serial, n.binary));
      assert n in group;
      var a :| 0 <= a < |group| && group[a] == n;
      assert KeysOf(tag, group)[a] == key;
      AtFlat(items, i, a, key);
    }
  }

  /** The keys of the serial items are the nodes of the serial set. */
  lemma SerialKeys(tag: string, nodes: seq<Node>, serial: set<NodeId>, paths: map<BinaryKey, string>,
                   items: seq<WorkItem>, key: NodeKey)
    requires SerialItems(tag, nodes, serial, paths, items)
    ensures key in Flat(items) <==> key.tag == tag && key.id in Ids(nodes) && key.id in serial
  {
    if key in Flat(items) {
      var x :| 0 <= x < |Flat(items)| && Flat(items)[x] == key;
      var n := QueueNode(tag, nodes, serial, paths, items, x);
    }
    if key.tag == tag && key.id in Ids(nodes) && key.id in serial {
      var n :| n in nodes && n.id == key.id;
      var chosen := Select(nodes, InSerial(serial));
      assert n in chosen;
      var x :| 0 <= x < |chosen| && chosen[x] == n;
      assert KeysOf(tag, chosen)[x] == key;
    }
  }

  lemma TagNoRepeats(tag: string, nodes: seq<Node>, edges: seq<Edge>, paths: map<BinaryKey, string>,
                     parallelItems: seq<WorkItem>, serialItems: seq<WorkItem>)
    requires UniqueIds(nodes)
    requires ParallelItems(tag, nodes, SerialSet(nodes, edges), paths, parallelItems)
    requires SerialItems(tag, nodes, SerialSet(nodes, edges), paths, serialItems)
    ensures NoRepeats(Flat(parallelItems) + Flat(serialItems))
  {
    var serial := SerialSet(nodes, edges);
    forall x, y | 0 <= x < y < |Flat(parallelItems)| ensures Flat(parallelItems)[x] != Flat(parallelItems)[y] {
      ParallelNoRepeat(tag, nodes, serial, paths, parallelItems, x, y);
    }
    forall x, y | 0 <= x < y < |Flat(serialItems)| ensures Flat(serialItems)[x] != Flat(serialItems)[y] {
      SerialNoRepeat(tag, nodes, serial, paths, serialItems, x, y);
    }
    forall key | key in Flat(parallelItems) ensures key !in Flat(serialItems) {
      ParallelKeys(tag, nodes, serial, paths, parallelItems, key);
      SerialKeys(tag, nodes, serial, paths, serialItems, key);
    }
    NoRepeatsConcat(Flat(parallelItems), Flat(serialItems));
  }

  ghost predicate Apart(a: seq<NodeKey>, b: seq<NodeKey>) {
    forall key :: key in a ==> key !in b
  }

  lemma NoRepeatsConcat(a: seq<NodeKey>, b: seq<NodeKey>)
    ensures NoRepeats(a + b) <==> NoRepeats(a) && NoRepeats(b) && Apart(a, b)
  {
    var all := a + b;
    if NoRepeats(all) {
      forall x, y | 0 <= x < y < |a| ensures a[x] != a[y] {
        assert all[x] != all[y];
      }
      forall x, y | 0 <= x < y < |b| ensures b[x] != b[y] {
        assert all[|a| + x] != all[|a| + y];
      }
      forall key | key in a ensures key !in b {
        var x :| 0 <= x < |a| && a[x] == key;
        forall y | 0 <= y < |b| ensures b[y] != key {
          assert all[x] != all[|a| + y];
        }
      }
    }
    if NoRepeats(a) && NoRepeats(b) && Apart(a, b) {
      forall x, y | 0 <= x < y < |all| ensures all[x] != all[y] {
        if x < |a| <= y {
          assert all[x] in a && all[y] == b[y - |a|] && all[y] in b;
        }
      }
    }
  }

  lemma ParallelNoRepeat(tag: string, nodes: seq<Node>, serial: set<NodeId>, paths: map<BinaryKey, string>,
                         items: seq<WorkItem>, x: nat, y: nat)
    requires UniqueIds(nodes) && ParallelItems(tag, nodes, serial, paths, items) && x < y < |Flat(items)|
    ensures Flat(items)[x] != Flat(items)[y]
  {
    var i, a := FlatMember(items, x);
    var j, b := FlatMember(items, y);
    var m := GroupNode(tag, nodes, serial, paths, items, i, a, Flat(items)[x]);
    var n := GroupNode(tag, nodes, serial, paths, items, j, b, Flat(items)[y]);
    if m.id == n.id {
      assert m == n && i == j;
      SelectDistinct(nodes, InGroup(serial, m.binary));
    }
  }

  lemma SerialNoRepeat(tag: string, nodes: seq<Node>, serial: set<NodeId>, paths: map<BinaryKey, string>,
                       items: seq<WorkItem>, x: nat, y: nat)
    requires UniqueIds(nodes) && SerialItems(tag, nodes, serial, paths, items) && x < y < |Flat(items)|
    ensures Flat(items)[x] != Flat(items)[y]
  {
    var m := QueueNode(tag, nodes, serial, paths, items, x);
    var n := QueueNode(tag, nodes, serial, paths, items, y);
    SelectDistinct(nodes, InSerial(serial));
  }

  // ---------------------------------------------------------------------------------------------
  // The plan of one tag, and the binary that each node is analysed on.

  datatype TagPlan = TagPlan(tag: string, nodes: seq<Node>, edges: seq<Edge>, paths: map<BinaryKey, string>)

  ghost predicate PlanValid(p: TagPlan) {
    UniqueIds(p.nodes) && EdgesKnown(p.nodes, p.edges) && PathsKnown(p.nodes, p.paths)
  }

  function TaskOf(p: TagPlan, n: Node): Task
    requires n.binary in p.paths
  {
    Task(NodeKey(p.tag, n.id), Binary(p.tag, n.binary, p.paths[n.binary]))
  }

  function TasksOf(p: TagPlan, nodes: seq<Node>): (tasks: seq<Task>)
    requires PathsKnown(nodes, p.paths)
    ensures |tasks| == |nodes|
  {
    seq(|nodes|, i requires 0 <= i < |nodes| => assert nodes[i] in nodes; TaskOf(p, nodes[i]))
  }

  /** `t` is the task of a node of the plan, inside the plan's serial set or outside of it. */
  ghost predicate PlanTask(p: TagPlan, t: Task, serial: bool) {
    exists n :: n in p.nodes && NodeTask(p, n, t, serial)
  }

  ghost predicate NodeTask(p: TagPlan, n: Node, t: Task, serial: bool) {
    n.binary in p.paths && t == TaskOf(p, n) && (n.id in SerialSet(p.nodes, p.edges) <==> serial)
  }

  ghost function SerialPart(p: TagPlan): seq<Node> {
    Select(p.nodes, InSerial(SerialSet(p.nodes, p.edges)))
  }

  lemma SerialPartKnown(p: TagPlan)
    requires PlanValid(p)
    ensures PathsKnown(SerialPart(p), p.paths)
  {
    hide SerialSet;
  }

  /** The tasks of the plan's serial nodes, in plan order. */
  ghost function PlanSerialTasks(p: TagPlan): seq<Task>
    requires PlanValid(p)
  {
    SerialPartKnown(p);
    TasksOf(p, SerialPart(p))
  }

  /** The item holds exactly the plan's parallel nodes on its binary, in plan order. */
  ghost predicate GroupOf(p: TagPlan, item: WorkItem) {
    var key := item.binary.key;
    && key in p.paths && item.binary == Binary(p.tag, key, p.paths[key]) && item.nodeIds != []
    && ItemKeys(item) == KeysOf(p.tag, Select(p.nodes, InGroup(SerialSet(p.nodes, p.edges), key)))
  }

  ghost predicate HasGroup(p: TagPlan, key: BinaryKey) {
    exists n :: n in p.nodes && n.id !in SerialSet(p.nodes, p.edges) && n.binary == key
  }

  ghost predicate DistinctBinaries(items: seq<WorkItem>) {
    forall i, j :: 0 <= i < j < |items| ==> items[i].binary != items[j].binary
  }

  ghost predicate InPhase(items: seq<WorkItem>, phase: Phase) {
    forall i :: 0 <= i < |items| ==> items[i].phase == phase && items[i].nodeIds != []
  }

  ghost predicate RunsMaximal(items: seq<WorkItem>) {
    forall k :: 0 < k < |items| ==> items[k - 1].binary != items[k].binary
  }

  /** The classification of one plan. */
  ghost predicate Classified(p: TagPlan, parallelItems: seq<WorkItem>, serialItems: seq<WorkItem>) {
    && PlanValid(p)
    && ParallelItems(p.tag, p.nodes, SerialSet(p.nodes, p.edges), p.paths, parallelItems)
    && SerialItems(p.tag, p.nodes, SerialSet(p.nodes, p.edges), p.paths, serialItems)
  }

  lemma ClassifiedPhases(p: TagPlan, parallelItems: seq<WorkItem>, serialItems: seq<WorkItem>)
    requires Classified(p, parallelItems, serialItems)
    ensures InPhase(parallelItems, Parallel) && InPhase(serialItems, Serial)
    ensures forall i :: 0 <= i < |parallelItems| ==> parallelItems[i].binary.tag == p.tag
    ensures DistinctBinaries(parallelItems)
  {
    forall i | 0 <= i < |parallelItems|
      ensures parallelItems[i].phase == Parallel && parallelItems[i].nodeIds != [] && parallelItems[i].binary.tag == p.tag
    {
      assert IsGroup(p.tag, p.nodes, SerialSet(p.nodes, p.edges), p.paths, parallelItems[i], i);
    }
    forall i | 0 <= i < |serialItems| ensures serialItems[i].phase == Serial && serialItems[i].nodeIds != [] {
      assert IsSegment(p.tag, p.nodes, p.paths, serialItems[i], i);
    }
  }

  lemma ClassifiedKeys(p: TagPlan, parallelItems: seq<WorkItem>, serialItems: seq<WorkItem>, key: NodeKey)
    requires Classified(p, parallelItems, serialItems)
    ensures key in Flat(parallelItems) || key in Flat(serialItems) <==> key in KeysOf(p.tag, p.nodes)
    ensures key in KeysOf(p.tag, p.nodes) <==> key.tag == p.tag && key.id in Ids(p.nodes)
  {
    ParallelKeys(p.tag, p.nodes, SerialSet(p.nodes, p.edges), p.paths, parallelItems, key);
    SerialKeys(p.tag, p.nodes, SerialSet(p.nodes, p.edges), p.paths, serialItems, key);
    KeysOfHas(p.tag, p.nodes, key);
  }

  lemma KeysOfHas(tag: string, nodes: seq<Node>, key: NodeKey)
    ensures key in KeysOf(tag, nodes) <==> key.tag == tag && key.id in Ids(nodes)
  {
    if key.tag == tag && key.id in Ids(nodes) {
      var n :| n in nodes && n.id == key.id;
      var k :| 0 <= k < |nodes| && nodes[k] == n;
      assert KeysOf(tag, nodes)[k] == key;
    }
  }

  lemma ParallelTaskHasNode(p: TagPlan, parallelItems: seq<WorkItem>, serialItems: seq<WorkItem>, t: Task)
    requires Classified(p, parallelItems, serialItems) && t in Tasks(parallelItems)
    ensures PlanTask(p, t, false)
  {
    var serial := SerialSet(p.nodes, p.edges);
    hide SerialSet;
    hide SerialItems;
    hide Select;
    hide Flat;
    var x :| 0 <= x < |Tasks(parallelItems)| && Tasks(parallelItems)[x] == t;
    var i, a := TaskMember(parallelItems, x);
    hide Tasks;
    var n := GroupNode(p.tag, p.nodes, serial, p.paths, parallelItems, i, a, ItemKeys(parallelItems[i])[a]);
    assert IsGroup(p.tag, p.nodes, serial, p.paths, parallelItems[i], i);
    assert NodeTask(p, n, t, false);
  }

  lemma NodeHasParallelTask(p: TagPlan, parallelItems: seq<WorkItem>, serialItems: seq<WorkItem>, n: Node, t: Task)
    requires Classified(p, parallelItems, serialItems) && n in p.nodes && NodeTask(p, n, t, false)
    ensures t in Tasks(parallelItems)
  {
    var serial := SerialSet(p.nodes, p.edges);
    hide SerialSet;
    hide SerialItems;
    hide Tasks;
    var i :| 0 <= i < |parallelItems| && parallelItems[i].binary.key == n.binary;
    assert IsGroup(p.tag, p.nodes, serial, p.paths, parallelItems[i], i);
    var group := Select(p.nodes, InGroup(serial, n.binary));
    assert n in group;
    hide Select;
    var a :| 0 <= a < |group| && group[a] == n;
    assert ItemKeys(parallelItems[i])[a] == KeysOf(p.tag, group)[a];
    TasksHave(parallelItems, i, a);
  }

  /** The tasks of one plan's parallel items. */
  lemma ClassifiedParallelTasks(p: TagPlan, parallelItems: seq<WorkItem>, serialItems: seq<WorkItem>, t: Task)
    requires Classified(p, parallelItems, serialItems)
    ensures t in Tasks(parallelItems) <==> PlanTask(p, t, false)
  {
    hide Classified;
    hide NodeTask;
    if t in Tasks(parallelItems) {
      ParallelTaskHasNode(p, parallelItems, serialItems, t);
    }
    if PlanTask(p, t, false) {
      var n :| n in p.nodes && NodeTask(p, n, t, false);
      NodeHasParallelTask(p, parallelItems, serialItems, n, t);
    }
  }

  /** The tasks of one plan's serial items, in order. */
  lemma ClassifiedSerialTasks(p: TagPlan, parallelItems: seq<WorkItem>, serialItems: seq<WorkItem>)
    requires Classified(p, parallelItems, serialItems)
    ensures Tasks(serialItems) == PlanSerialTasks(p)
  {
    var chosen := SerialPart(p);
    SerialPartKnown(p);
    hide SerialSet;
    TasksFlat(serialItems);
    forall x | 0 <= x < |chosen|
      ensures Tasks(serialItems)[x] == TasksOf(p, chosen)[x]
    {
      var i, a := TaskMember(serialItems, x);
      assert IsSegment(p.tag, p.nodes, p.paths, serialItems[i], i);
      assert Flat(serialItems)[x] == KeysOf(p.tag, chosen)[x] == NodeKey(p.tag, chosen[x].id);
      assert serialItems[i].nodeIds[a] in serialItems[i].nodeIds;
      var n :| n in p.nodes && n.id == serialItems[i].nodeIds[a] && n.binary == serialItems[i].binary.key;
      assert chosen[x] in chosen;
      SameNode(p.nodes, n, chosen[x]);
    }
  }

  lemma SameNode(nodes: seq<Node>, m: Node, n: Node)
    requires UniqueIds(nodes) && m in nodes && n in nodes && m.id == n.id
    ensures m == n
  {
    var i :| 0 <= i < |nodes| && nodes[i] == m;
    var j :| 0 <= j < |nodes| && nodes[j] == n;
  }

  lemma SerialPartTasks(p: TagPlan, t: Task)
    requires PlanValid(p)
    ensures t in PlanSerialTasks(p) <==> PlanTask(p, t, true)
  {
    var chosen := SerialPart(p);
    SerialPartKnown(p);
    hide SerialSet;
    if t in TasksOf(p, chosen) {
      var x :| 0 <= x < |chosen| && TasksOf(p, chosen)[x] == t;
      assert chosen[x] in chosen;
      assert NodeTask(p, chosen[x], t, true);
    }
    if PlanTask(p, t, true) {
      var n :| n in p.nodes && NodeTask(p, n, t, true);
      assert n in chosen;
      var x :| 0 <= x < |chosen| && chosen[x] == n;
      assert TasksOf(p, chosen)[x] == t;
    }
  }

  lemma ClassifiedGroups(p: TagPlan, parallelItems: seq<WorkItem>, serialItems: seq<WorkItem>)
    requires Classified(p, parallelItems, serialItems)
    ensures forall x :: 0 <= x < |parallelItems| ==> GroupOf(p, parallelItems[x])
    ensures forall key :: HasGroup(p, key) ==> exists x :: 0 <= x < |parallelItems| && parallelItems[x].binary.key == key
  {
    var serial := SerialSet(p.nodes, p.edges);
    hide SerialSet;
    hide Select;
    forall x | 0 <= x < |parallelItems|
      ensures GroupOf(p, parallelItems[x])
    {
      assert IsGroup(p.tag, p.nodes, serial, p.paths, parallelItems[x], x);
    }
  }
}
