/** Work items and schedules of `analysis_batch.py`. */
module BatchTypes {
  import opened PlanTypes
  import opened Sequences

  datatype Phase = Parallel | Serial

  /** The source prints ids as `phase-0007`; the pair is what the text encodes. */
  datatype ItemId = ItemId(phase: Phase, index: nat)

  datatype Binary = Binary(tag: string, key: BinaryKey, path: string)

  datatype WorkItem = WorkItem(id: ItemId, phase: Phase, binary: Binary, nodeIds: seq<NodeId>)

  datatype Schedule = Schedule(parallelItems: seq<WorkItem>, serialItems: seq<WorkItem>) {
    function AllItems(): seq<WorkItem> {
      parallelItems + serialItems
    }
  }

  /** A node of the whole batch: node ids are unique within one tag. */
  datatype NodeKey = NodeKey(tag: string, id: NodeId)

  datatype KeyEdge = KeyEdge(source: NodeKey, target: NodeKey)

  function ItemKeys(item: WorkItem): (keys: seq<NodeKey>)
    ensures |keys| == |item.nodeIds|
  {
    seq(|item.nodeIds|, i requires 0 <= i < |item.nodeIds| => NodeKey(item.binary.tag, item.nodeIds[i]))
  }

  function KeysOf(tag: string, nodes: seq<Node>): (keys: seq<NodeKey>)
    ensures |keys| == |nodes|
  {
    seq(|nodes|, i requires 0 <= i < |nodes| => NodeKey(tag, nodes[i].id))
  }

  /** The nodes of the items, one item after the other. */
  function Flat(items: seq<WorkItem>): seq<NodeKey> {
    if items == [] then [] else Flat(items[..|items| - 1]) + ItemKeys(items[|items| - 1])
  }

  lemma FlatOne(items: seq<WorkItem>, item: WorkItem)
    ensures Flat(items + [item]) == Flat(items) + ItemKeys(item)
  {
    assert (items + [item])[..|items|] == items;
  }

  lemma {:induction false} FlatConcat(a: seq<WorkItem>, b: seq<WorkItem>)
    ensures Flat(a + b) == Flat(a) + Flat(b)
  {
    if b == [] {
      assert a + b == a;
    } else {
      var (init, last) := (b[..|b| - 1], b[|b| - 1]);
      FlatConcat(a, init);
      InitLast(b);
      Associative(a, init, [last]);
      FlatOne(a + init, last);
      Associative(Flat(a), Flat(init), ItemKeys(last));
    }
  }

  /** Where item `i` starts in the flattened list. */
  function Start(items: seq<WorkItem>, i: nat): nat
    requires i <= |items|
  {
    |Flat(items[..i])|
  }

  lemma {:induction false} FlatAt(items: seq<WorkItem>, i: nat, a: nat)
    requires i < |items| && a < |items[i].nodeIds|
    ensures Start(items, i) + a < |Flat(items)|
    ensures Flat(items)[Start(items, i) + a] == ItemKeys(items[i])[a]
  {
    var init := items[..|items| - 1];
    if i == |init| {
      assert items[..i] == init;
    } else {
      FlatAt(init, i, a);
      assert init[..i] == items[..i];
    }
  }

  lemma {:induction false} StartMonotone(items: seq<WorkItem>, i: nat, j: nat)
    requires i < j <= |items|
    ensures Start(items, i) + |items[i].nodeIds| <= Start(items, j)
  {
    var before := items[..j - 1];
    assert items[..j] == before + [items[j - 1]];
    FlatOne(before, items[j - 1]);
    if i < j - 1 {
      StartMonotone(items, i, j - 1);
    }
  }

  lemma {:induction false} FlatMember(items: seq<WorkItem>, x: nat) returns (i: nat, a: nat)
    requires x < |Flat(items)|
    ensures i < |items| && a < |items[i].nodeIds| && x == Start(items, i) + a
    ensures ItemKeys(items[i])[a] == Flat(items)[x]
  {
    var init := items[..|items| - 1];
    if x < |Flat(init)| {
      i, a := FlatMember(init, x);
      assert init[..i] == items[..i];
    } else {
      i, a := |init|, x - |Flat(init)|;
    }
  }

  /** A node together with the binary that it is analysed on. */
  datatype Task = Task(key: NodeKey, binary: Binary)

  function ItemTasks(item: WorkItem): (tasks: seq<Task>)
    ensures |tasks| == |item.nodeIds|
  {
    seq(|item.nodeIds|, i requires 0 <= i < |item.nodeIds| => Task(NodeKey(item.binary.tag, item.nodeIds[i]),
        item.binary))
  }

  /** The tasks of the items, one item after the other. */
  function Tasks(items: seq<WorkItem>): seq<Task> {
    if items == [] then [] else Tasks(items[..|items| - 1]) + ItemTasks(items[|items| - 1])
  }

  lemma TasksOne(items: seq<WorkItem>, item: WorkItem)
    ensures Tasks(items + [item]) == Tasks(items) + ItemTasks(item)
  {
    assert (items + [item])[..|items|] == items;
  }

  lemma {:induction false} TasksConcat(a: seq<WorkItem>, b: seq<WorkItem>)
    ensures Tasks(a + b) == Tasks(a) + Tasks(b)
  {
    if b == [] {
      assert a + b == a;
    } else {
      var (init, last) := (b[..|b| - 1], b[|b| - 1]);
      TasksConcat(a, init);
      InitLast(b);
      Associative(a, init, [last]);
      TasksOne(a + init, last);
      Associative(Tasks(a), Tasks(init), ItemTasks(last));
    }
  }

  /** The tasks list the same nodes as `Flat`. */
  lemma {:induction false} TasksFlat(items: seq<WorkItem>)
    ensures |Tasks(items)| == |Flat(items)|
    ensures forall x :: 0 <= x < |Tasks(items)| ==> Tasks(items)[x].key == Flat(items)[x]
  {
    if items != [] {
      TasksFlat(items[..|items| - 1]);
    }
  }

  /** The item that a task belongs to. */
  lemma {:induction false} TaskMember(items: seq<WorkItem>, x: nat) returns (i: nat, a: nat)
    requires x < |Tasks(items)|
    ensures i < |items| && a < |items[i].nodeIds| && ItemTasks(items[i])[a] == Tasks(items)[x]
  {
    var init := items[..|items| - 1];
    if x < |Tasks(init)| {
      i, a := TaskMember(init, x);
    } else {
      i, a := |init|, x - |Tasks(init)|;
    }
  }

  lemma {:induction false} TasksHave(items: seq<WorkItem>, i: nat, a: nat)
    requires i < |items| && a < |items[i].nodeIds|
    ensures ItemTasks(items[i])[a] in Tasks(items)
  {
    if i < |items| - 1 {
      TasksHave(items[..|items| - 1], i, a);
    }
  }
}
