/** `classify_tag_plan`: split one tag's plan into per-binary parallel items and a serial tail. */
module Classification {
  import opened Outcomes
  import opened PlanTypes
  import opened BatchTypes
  import opened Sequences

  datatype PlanError =
    | DuplicateNodes(tag: string)
    | UnknownEdge(tag: string)
    | MissingPath(tag: string)
    | NodeInSeveralItems(tag: string)
    | OverlappingBinary
    | UnknownSelection

  // ---------------------------------------------------------------------------------------------
  // The serial set.

  /** The edge joins two different binaries. */
  ghost predicate Crosses(nodes: seq<Node>, e: Edge) {
    exists s, t :: s in nodes && t in nodes && s.id == e.source && t.id == e.target && s.binary != t.binary
  }

  ghost predicate SerialPath(nodes: seq<Node>, edges: seq<Edge>, p: seq<NodeId>) {
    && |p| > 0 && IsWalk(edges, p)
    && exists e :: e in edges && Crosses(nodes, e) && e.target == p[0]
  }

  ghost predicate IsSerial(nodes: seq<Node>, edges: seq<Edge>, id: NodeId) {
    exists p :: SerialPath(nodes, edges, p) && p[|p| - 1] == id
  }

  /** The nodes downstream of an edge that joins two binaries. */
  ghost function SerialSet(nodes: seq<Node>, edges: seq<Edge>): set<NodeId> {
    set id | id in Ids(nodes) && IsSerial(nodes, edges, id)
  }

  ghost predicate HasCrossTargets(nodes: seq<Node>, edges: seq<Edge>, s: set<NodeId>) {
    forall e :: e in edges && Crosses(nodes, e) ==> e.target in s
  }

  ghost predicate Downward(edges: seq<Edge>, s: set<NodeId>) {
    forall e :: e in edges && e.source in s ==> e.target in s
  }

  /** `s` contains every cross-binary target and everything downstream of its members. */
  ghost predicate SerialClosed(nodes: seq<Node>, edges: seq<Edge>, s: set<NodeId>) {
    HasCrossTargets(nodes, edges, s) && Downward(edges, s)
  }

  lemma SerialStep(nodes: seq<Node>, edges: seq<Edge>, e: Edge)
    requires e in edges && (Crosses(nodes, e) || IsSerial(nodes, edges, e.source))
    ensures IsSerial(nodes, edges, e.target)
  {
    if Crosses(nodes, e) {
      assert SerialPath(nodes, edges, [e.target]);
    } else {
      var p :| SerialPath(nodes, edges, p) && p[|p| - 1] == e.source;
      var q := p + [e.target];
      forall i | 0 <= i < |q| - 1 ensures Follows(edges, q, i) {
        if i < |p| - 1 {
          assert Follows(edges, p, i);
        }
      }
      assert SerialPath(nodes, edges, q);
    }
  }

  lemma {:induction false} SerialWithin(nodes: seq<Node>, edges: seq<Edge>, s: set<NodeId>, p: seq<NodeId>)
    requires SerialClosed(nodes, edges, s) && SerialPath(nodes, edges, p)
    ensures p[|p| - 1] in s
  {
    if |p| > 1 {
      var q := p[..|p| - 1];
      forall i | 0 <= i < |q| - 1 ensures Follows(edges, q, i) {
        assert Follows(edges, p, i);
      }
      SerialWithin(nodes, edges, s, q);
      assert Follows(edges, p, |p| - 2);
    }
  }

  /** The serial set is closed. */
  lemma SerialSetClosed(nodes: seq<Node>, edges: seq<Edge>)
    requires EdgesKnown(nodes, edges)
    ensures SerialClosed(nodes, edges, SerialSet(nodes, edges))
  {
    forall e | e in edges && (Crosses(nodes, e) || e.source in SerialSet(nodes, edges))
      ensures e.target in SerialSet(nodes, edges)
    {
      SerialStep(nodes, edges, e);
    }
  }

  /** It is the least closed set. */
  lemma SerialSetLeast(nodes: seq<Node>, edges: seq<Edge>, s: set<NodeId>)
    requires SerialClosed(nodes, edges, s)
    ensures SerialSet(nodes, edges) <= s
  {
    forall id | id in SerialSet(nodes, edges) ensures id in s {
      var p :| SerialPath(nodes, edges, p) && p[|p| - 1] == id;
      SerialWithin(nodes, edges, s, p);
    }
  }

  /** The node with an id is on this binary. */
  ghost predicate OnItsBinary(nodes: seq<Node>, id: NodeId, key: BinaryKey) {
    exists n :: n in nodes && n.id == id && n.binary == key
  }

  /** Whatever leads to the node is on the binary `key`, the node itself included. */
  ghost predicate SelfContained(nodes: seq<Node>, edges: seq<Edge>, id: NodeId, key: BinaryKey) {
    forall p :: |p| > 0 && IsWalk(edges, p) && p[|p| - 1] == id ==> OnItsBinary(nodes, p[0], key)
  }

  /** A walk that starts on another binary than it ends on crosses over on the way. */
  lemma {:induction false} CrossesOnTheWay(nodes: seq<Node>, edges: seq<Edge>, p: seq<NodeId>, key: BinaryKey)
    requires UniqueIds(nodes) && EdgesKnown(nodes, edges)
    requires |p| > 0 && IsWalk(edges, p) && OnItsBinary(nodes, p[|p| - 1], key) && !OnItsBinary(nodes, p[0], key)
    ensures IsSerial(nodes, edges, p[|p| - 1])
  {
    if |p| > 1 {
      assert Follows(edges, p, 0);
      var e, rest := Edge(p[0], p[1]), p[1..];
      forall i | 0 <= i < |rest| - 1 ensures Follows(edges, rest, i) {
        assert Follows(edges, p, i + 1);
      }
      if OnItsBinary(nodes, p[1], key) {
        var s :| s in nodes && s.id == p[0];
        var t :| t in nodes && t.id == p[1] && t.binary == key;
        assert Crosses(nodes, e);
        assert SerialPath(nodes, edges, rest);
      } else {
        CrossesOnTheWay(nodes, edges, rest, key);
      }
    }
  }

  lemma Prepended(edges: seq<Edge>, e: Edge, p: seq<NodeId>)
    requires IsWalk(edges, p) && |p| > 0 && e in edges && e.target == p[0]
    ensures IsWalk(edges, [e.source] + p)
  {
    var q := [e.source] + p;
    forall i | 0 <= i < |q| - 1 ensures Follows(edges, q, i) {
      if i > 0 {
        assert Follows(edges, p, i - 1);
      }
    }
  }

  /** Not both ends of an edge that crosses are on one binary. */
  lemma CrossingEnds(nodes: seq<Node>, e: Edge, key: BinaryKey)
    requires UniqueIds(nodes) && Crosses(nodes, e)
    ensures !OnItsBinary(nodes, e.source, key) || !OnItsBinary(nodes, e.target, key)
  {}

  lemma SerialIsFed(nodes: seq<Node>, edges: seq<Edge>, id: NodeId, key: BinaryKey)
    requires UniqueIds(nodes) && IsSerial(nodes, edges, id)
    ensures !SelfContained(nodes, edges, id, key)
  {
    hide Crosses;
    hide OnItsBinary;
    hide IsWalk;
    var p :| SerialPath(nodes, edges, p) && p[|p| - 1] == id;
    var e :| e in edges && Crosses(nodes, e) && e.target == p[0];
    CrossingEnds(nodes, e, key);
    Prepended(edges, e, p);
    var q := [e.source] + p;
    assert q[0] == e.source && q[|q| - 1] == id;
  }

  /** The serial set, without speaking of edges that cross: a node is outside exactly if nothing on another binary leads
      to it. */
  lemma ParallelExactly(nodes: seq<Node>, edges: seq<Edge>, n: Node)
    requires UniqueIds(nodes) && EdgesKnown(nodes, edges) && n in nodes
    ensures n.id !in SerialSet(nodes, edges) <==> SelfContained(nodes, edges, n.id, n.binary)
  {
    hide IsSerial;
    hide IsWalk;
    assert OnItsBinary(nodes, n.id, n.binary);
    hide OnItsBinary;
    if !SelfContained(nodes, edges, n.id, n.binary) {
      var p :| |p| > 0 && IsWalk(edges, p) && p[|p| - 1] == n.id && !OnItsBinary(nodes, p[0], n.binary);
      CrossesOnTheWay(nodes, edges, p, n.binary);
    }
    hide SelfContained;
    if n.id in SerialSet(nodes, edges) {
      SerialIsFed(nodes, edges, n.id, n.binary);
    }
  }

  /** The targets of the edges that join two binaries. */
  method CrossTargets(nodes: seq<Node>, edges: seq<Edge>, byId: map<NodeId, Node>) returns (serial: set<NodeId>)
    requires UniqueIds(nodes) && EdgesKnown(nodes, edges) && Indexed(nodes, byId)
    ensures serial <= SerialSet(nodes, edges) && HasCrossTargets(nodes, edges, serial)
  {
    serial := {};
    for i := 0 to |edges|
      invariant serial <= SerialSet(nodes, edges)
      invariant HasCrossTargets(nodes, edges[..i], serial)
    {
      var e := edges[i];
      assert edges[..i + 1] == edges[..i] + [e];
      CrossesById(nodes, byId, e);
      if byId[e.source].binary != byId[e.target].binary {
        SerialStep(nodes, edges, e);
        serial := serial + {e.target};
      }
    }
    assert edges[..|edges|] == edges;
  }

  method SerialNodes(nodes: seq<Node>, edges: seq<Edge>, byId: map<NodeId, Node>) returns (serial: set<NodeId>)
    requires UniqueIds(nodes) && EdgesKnown(nodes, edges) && Indexed(nodes, byId)
    ensures serial == SerialSet(nodes, edges)
  {
    hide Indexed;
    hide SerialSet;
    hide Crosses;
    hide Downward;
    serial := CrossTargets(nodes, edges, byId);
    SerialSetClosed(nodes, edges);
    var changed := true;
    while changed
      invariant serial <= SerialSet(nodes, edges)
      invariant HasCrossTargets(nodes, edges, serial)
      invariant !changed ==> Downward(edges, serial)
      decreases SerialSet(nodes, edges) - serial, changed
    {
      var before := serial;
      serial := DownstreamPass(edges, before, SerialSet(nodes, edges));
      changed := serial != before;
    }
    SerialSetLeast(nodes, edges, serial);
  }

  /** One pass over the downstream lists of the current serial nodes; it stays inside every closed set. */
  method DownstreamPass(edges: seq<Edge>, before: set<NodeId>, ghost closed: set<NodeId>) returns (serial: set<NodeId>)
    requires Downward(edges, closed) && before <= closed
    ensures before <= serial <= closed
    ensures serial == before ==> Downward(edges, serial)
  {
    serial := before;
    var sources := before;
    ghost var done: set<NodeId> := {};
    while sources != {}
      invariant before <= serial <= closed
      invariant before == done + sources
      invariant Follow(edges, done, serial)
    {
      var source :| source in sources;
      FollowOne(edges, done, serial, source, closed);
      sources := sources - {source};
      done := done + {source};
      serial := serial + Targets(edges, source);
    }
  }

  /** Every edge that leaves `sources` ends in `s`. */
  ghost predicate Follow(edges: seq<Edge>, sources: set<NodeId>, s: set<NodeId>) {
    forall e :: e in edges && e.source in sources ==> e.target in s
  }

  lemma FollowOne(edges: seq<Edge>, done: set<NodeId>, serial: set<NodeId>, source: NodeId, closed: set<NodeId>)
    requires Downward(edges, closed) && source in closed && Follow(edges, done, serial)
    ensures Targets(edges, source) <= closed
    ensures Follow(edges, done + {source}, serial + Targets(edges, source))
  {
    forall target | target in Targets(edges, source) ensures target in closed {
      var e := Edge(source, target);
      assert e in edges && e.source in closed;
    }
    forall e | e in edges && e.source in done + {source} ensures e.target in serial + Targets(edges, source) {
      assert e == Edge(e.source, e.target);
    }
  }

  lemma CrossesById(nodes: seq<Node>, byId: map<NodeId, Node>, e: Edge)
    requires UniqueIds(nodes) && Indexed(nodes, byId) && e.source in byId && e.target in byId
    ensures Crosses(nodes, e) <==> byId[e.source].binary != byId[e.target].binary
  {
    forall n | n in nodes ensures byId[n.id] == n {}
  }

  // ---------------------------------------------------------------------------------------------
  // The items.

  function InGroup(serial: set<NodeId>, key: BinaryKey): Node -> bool {
    (n: Node) => n.id !in serial && n.binary == key
  }

  function InSerial(serial: set<NodeId>): Node -> bool {
    (n: Node) => n.id in serial
  }

  ghost predicate DistinctKeys(items: seq<WorkItem>) {
    forall i, j :: 0 <= i < j < |items| ==> items[i].binary.key != items[j].binary.key
  }

  /** A parallel node on `key` comes before every parallel node on `other`. */
  ghost predicate StartsBefore(nodes: seq<Node>, serial: set<NodeId>, key: BinaryKey, other: BinaryKey) {
    exists x :: 0 <= x < |nodes| && InGroup(serial, key)(nodes[x]) && NoneUpTo(nodes, serial, other, x)
  }

  ghost predicate NoneUpTo(nodes: seq<Node>, serial: set<NodeId>, key: BinaryKey, x: int)
    requires x < |nodes|
  {
    forall y :: 0 <= y <= x ==> !InGroup(serial, key)(nodes[y])
  }

  ghost predicate KeysByFirstNode(nodes: seq<Node>, serial: set<NodeId>, keys: seq<BinaryKey>) {
    forall i, j :: 0 <= i < j < |keys| ==> StartsBefore(nodes, serial, keys[i], keys[j])
  }

  ghost predicate ByFirstNode(nodes: seq<Node>, serial: set<NodeId>, items: seq<WorkItem>) {
    forall i, j :: 0 <= i < j < |items| ==> StartsBefore(nodes, serial, items[i].binary.key, items[j].binary.key)
  }

  /** One parallel item for each binary with parallel nodes, holding them in plan order; items in order of their first node. */
  ghost predicate ParallelItems(tag: string, nodes: seq<Node>, serial: set<NodeId>, paths: map<BinaryKey, string>,
                                items: seq<WorkItem>)
  {
    && DistinctKeys(items)
    && ByFirstNode(nodes, serial, items)
    && (forall i :: 0 <= i < |items| ==> IsGroup(tag, nodes, serial, paths, items[i], i))
    && (forall n :: n in nodes && n.id !in serial ==> exists i :: 0 <= i < |items| && items[i].binary.key == n.binary)
  }

  ghost predicate IsGroup(tag: string, nodes: seq<Node>, serial: set<NodeId>, paths: map<BinaryKey, string>,
                          item: WorkItem, i: nat)
  {
    var key := item.binary.key;
    && item.id == ItemId(Parallel, i) && item.phase == Parallel && key in paths
    && item.binary == Binary(tag, key, paths[key])
    && ItemKeys(item) == KeysOf(tag, Select(nodes, InGroup(serial, key))) && item.nodeIds != []
  }

  /** The serial nodes in plan order, cut exactly where the binary changes. */
  ghost predicate SerialItems(tag: string, nodes: seq<Node>, serial: set<NodeId>, paths: map<BinaryKey, string>,
                              items: seq<WorkItem>)
  {
    && Flat(items) == KeysOf(tag, Select(nodes, InSerial(serial)))
    && (forall i :: 0 <= i < |items| ==> IsSegment(tag, nodes, paths, items[i], i))
    && (forall i :: 0 < i < |items| ==> items[i - 1].binary.key != items[i].binary.key)
  }

  ghost predicate IsSegment(tag: string, nodes: seq<Node>, paths: map<BinaryKey, string>, item: WorkItem, i: nat) {
    var key := item.binary.key;
    && item.id == ItemId(Serial, i) && item.phase == Serial && key in paths
    && item.binary == Binary(tag, key, paths[key])
    && item.nodeIds != [] && OnBinary(nodes, item.nodeIds, key)
  }

  ghost predicate OnBinary(nodes: seq<Node>, ids: seq<NodeId>, key: BinaryKey) {
    forall id :: id in ids ==> exists n :: n in nodes && n.id == id && n.binary == key
  }

  ghost predicate PathsKnown(nodes: seq<Node>, paths: map<BinaryKey, string>) {
    forall n :: n in nodes ==> n.binary in paths
  }

  /** The dictionary of groups and the order in which its keys were added. */
  ghost predicate Grouped(nodes: seq<Node>, serial: set<NodeId>, keys: seq<BinaryKey>,
                          groups: map<BinaryKey, seq<Node>>) {
    && (forall i, j :: 0 <= i < j < |keys| ==> keys[i] != keys[j])
    && (forall k :: k in groups <==> k in keys)
    && (forall k :: k in groups ==> groups[k] != [])
    && (forall k :: Select(nodes, InGroup(serial, k)) == if k in groups then groups[k] else [])
    && (forall n :: n in nodes && n.id !in serial ==> n.binary in groups)
  }

  /** What one more node adds to each group. */
  lemma GroupMember(nodes: seq<Node>, serial: set<NodeId>, n: Node, k: BinaryKey)
    ensures Select(nodes + [n], InGroup(serial, k))
         == Select(nodes, InGroup(serial, k)) + if n.id !in serial && n.binary == k then [n] else []
  {
    SelectOne(nodes, n, InGroup(serial, k));
  }

  ghost function WithNode(groups: map<BinaryKey, seq<Node>>, serial: set<NodeId>, n: Node): map<BinaryKey, seq<Node>> {
    if n.id in serial then groups
    else groups[n.binary := (if n.binary in groups then groups[n.binary] else []) + [n]]
  }

  lemma GroupStep(nodes: seq<Node>, serial: set<NodeId>, keys: seq<BinaryKey>, groups: map<BinaryKey, seq<Node>>, n: Node)
    requires Grouped(nodes, serial, keys, groups)
    ensures n.id in serial || n.binary in groups ==> Grouped(nodes + [n], serial, keys, WithNode(groups, serial, n))
    ensures n.id !in serial && n.binary !in groups ==>
              Grouped(nodes + [n], serial, keys + [n.binary], WithNode(groups, serial, n))
  {
    hide Select;
    hide InGroup;
    hide WithNode;
    GroupContents(nodes, serial, groups, n);
    GroupKeys(serial, keys, groups, n);
  }

  /** What every binary's group holds. */
  lemma GroupContents(nodes: seq<Node>, serial: set<NodeId>, groups: map<BinaryKey, seq<Node>>, n: Node)
    requires forall k :: k in groups ==> groups[k] != []
    requires forall k :: Select(nodes, InGroup(serial, k)) == if k in groups then groups[k] else []
    requires forall m :: m in nodes && m.id !in serial ==> m.binary in groups
    ensures var added := WithNode(groups, serial, n);
            && (forall k :: k in added ==> added[k] != [])
            && (forall k :: Select(nodes + [n], InGroup(serial, k)) == if k in added then added[k] else [])
            && (forall m :: m in nodes + [n] && m.id !in serial ==> m.binary in added)
  {
    hide Select;
    hide InGroup;
    var added := WithNode(groups, serial, n);
    forall k ensures Select(nodes + [n], InGroup(serial, k)) == if k in added then added[k] else [] {
      GroupMember(nodes, serial, n, k);
    }
    forall m | m in nodes + [n] && m.id !in serial ensures m.binary in added {
      assert m in nodes || m == n;
    }
  }

  /** The keys in order of their first node, and their dictionary. */
  lemma GroupKeys(serial: set<NodeId>, keys: seq<BinaryKey>, groups: map<BinaryKey, seq<Node>>, n: Node)
    requires forall i, j :: 0 <= i < j < |keys| ==> keys[i] != keys[j]
    requires forall k :: k in groups <==> k in keys
    ensures var longer := if n.id in serial || n.binary in groups then keys else keys + [n.binary];
            && (forall i, j :: 0 <= i < j < |longer| ==> longer[i] != longer[j])
            && (forall k :: k in WithNode(groups, serial, n) <==> k in longer)
  {
    if n.id !in serial && n.binary !in groups {
      assert n.binary !in keys;
    }
  }

  lemma StillStartsBefore(nodes: seq<Node>, n: Node, serial: set<NodeId>, key: BinaryKey, other: BinaryKey)
    requires StartsBefore(nodes, serial, key, other)
    ensures StartsBefore(nodes + [n], serial, key, other)
  {
    hide InGroup;
    var x :| 0 <= x < |nodes| && InGroup(serial, key)(nodes[x]) && NoneUpTo(nodes, serial, other, x);
    assert (nodes + [n])[x] == nodes[x];
    forall y | 0 <= y <= x
      ensures !InGroup(serial, other)((nodes + [n])[y])
    {
      assert (nodes + [n])[y] == nodes[y];
    }
    assert NoneUpTo(nodes + [n], serial, other, x);
  }

  /** A binary that has a group starts before one that has none yet. */
  lemma StartsBeforeNew(nodes: seq<Node>, serial: set<NodeId>, keys: seq<BinaryKey>, groups: map<BinaryKey, seq<Node>>,
                        key: BinaryKey, other: BinaryKey)
    requires Grouped(nodes, serial, keys, groups) && key in groups && other !in groups
    ensures StartsBefore(nodes, serial, key, other)
  {
    var group := Select(nodes, InGroup(serial, key));
    assert group == groups[key] && group[0] in group;
    hide Select;
    var x :| 0 <= x < |nodes| && nodes[x] == group[0];
    forall y | 0 <= y <= x
      ensures !InGroup(serial, other)(nodes[y])
    {
      assert nodes[y] in nodes;
    }
    assert NoneUpTo(nodes, serial, other, x);
  }

  lemma OrderStep(nodes: seq<Node>, serial: set<NodeId>, keys: seq<BinaryKey>, groups: map<BinaryKey, seq<Node>>, n: Node)
    requires Grouped(nodes, serial, keys, groups) && KeysByFirstNode(nodes, serial, keys)
    ensures KeysByFirstNode(nodes + [n], serial, keys)
    ensures n.binary !in groups ==> KeysByFirstNode(nodes + [n], serial, keys + [n.binary])
  {
    hide StartsBefore;
    hide Select;
    forall i, j | 0 <= i < j < |keys|
      ensures StartsBefore(nodes + [n], serial, keys[i], keys[j])
    {
      StillStartsBefore(nodes, n, serial, keys[i], keys[j]);
    }
    if n.binary !in groups {
      forall i | 0 <= i < |keys|
        ensures StartsBefore(nodes + [n], serial, keys[i], n.binary)
      {
        assert keys[i] in groups;
        StartsBeforeNew(nodes, serial, keys, groups, keys[i], n.binary);
        StillStartsBefore(nodes, n, serial, keys[i], n.binary);
      }
    }
  }

  lemma NothingGrouped(serial: set<NodeId>)
    ensures Grouped([], serial, [], map[]) && KeysByFirstNode([], serial, [])
  {}

  /** Parallel nodes grouped by binary, groups in order of their first node. */
  method GroupParallel(nodes: seq<Node>, serial: set<NodeId>)
    returns (keys: seq<BinaryKey>, groups: map<BinaryKey, seq<Node>>)
    ensures Grouped(nodes, serial, keys, groups) && KeysByFirstNode(nodes, serial, keys)
  {
    hide Grouped;
    hide KeysByFirstNode;
    NothingGrouped(serial);
    keys, groups := [], map[];
    assert nodes[..0] == [];
    for i := 0 to |nodes|
      invariant Grouped(nodes[..i], serial, keys, groups) && KeysByFirstNode(nodes[..i], serial, keys)
    {
      var n := nodes[i];
      PrefixOne(nodes, i);
      GroupStep(nodes[..i], serial, keys, groups, n);
      OrderStep(nodes[..i], serial, keys, groups, n);
      ghost var before := groups;
      if n.id !in serial {
        if n.binary !in groups {
          keys := keys + [n.binary];
          groups := groups[n.binary := []];
        }
        groups := groups[n.binary := groups[n.binary] + [n]];
        assert groups == WithNode(before, serial, n) by { assert [] + [n] == [n]; }
      }
    }
    WholePrefix(nodes);
  }

  function IdList(nodes: seq<Node>): (ids: seq<NodeId>)
    ensures |ids| == |nodes|
  {
    seq(|nodes|, i requires 0 <= i < |nodes| => nodes[i].id)
  }

  function GroupItem(tag: string, paths: map<BinaryKey, string>, key: BinaryKey, group: seq<Node>, i: nat): WorkItem
    requires key in paths
  {
    WorkItem(ItemId(Parallel, i), Parallel, Binary(tag, key, paths[key]), IdList(group))
  }

  lemma GroupItemOk(tag: string, nodes: seq<Node>, serial: set<NodeId>, paths: map<BinaryKey, string>,
        keys: seq<BinaryKey>,
                    groups: map<BinaryKey, seq<Node>>, i: nat)
    requires Grouped(nodes, serial, keys, groups) && PathsKnown(nodes, paths) && i < |keys|
    ensures keys[i] in groups && groups[keys[i]] != [] && groups[keys[i]][0] in nodes && keys[i] in paths
    ensures IsGroup(tag, nodes, serial, paths, GroupItem(tag, paths, keys[i], groups[keys[i]], i), i)
  {
    var key := keys[i];
    assert key in groups;
    var group := groups[key];
    assert group == Select(nodes, InGroup(serial, key));
    assert group[0] in group;
    hide Select;
    var item := GroupItem(tag, paths, key, group, i);
    assert ItemKeys(item) == KeysOf(tag, group);
  }

  /** Every parallel node's binary has a group, and groups have distinct binaries. */
  lemma GroupsCover(nodes: seq<Node>, serial: set<NodeId>, keys: seq<BinaryKey>, groups: map<BinaryKey, seq<Node>>,
                    items: seq<WorkItem>)
    requires Grouped(nodes, serial, keys, groups)
    requires |items| == |keys| && forall j :: 0 <= j < |keys| ==> items[j].binary.key == keys[j]
    ensures DistinctKeys(items)
    ensures forall n :: n in nodes && n.id !in serial ==> exists i :: 0 <= i < |items| && items[i].binary.key == n.binary
  {
    hide Select;
    hide InGroup;
    forall n | n in nodes && n.id !in serial ensures exists i :: 0 <= i < |items| && items[i].binary.key == n.binary {
      assert n.binary in groups;
      var i :| 0 <= i < |keys| && keys[i] == n.binary;
      assert items[i].binary.key == n.binary;
    }
  }

  method MakeParallel(tag: string, nodes: seq<Node>, serial: set<NodeId>, paths: map<BinaryKey, string>)
    returns (items: seq<WorkItem>)
    requires PathsKnown(nodes, paths)
    ensures ParallelItems(tag, nodes, serial, paths, items)
  {
    var keys, groups := GroupParallel(nodes, serial);
    hide StartsBefore;
    hide Grouped;
    hide IsGroup;
    hide PathsKnown;
    items := [];
    for i := 0 to |keys|
      invariant |items| == i
      invariant forall j :: 0 <= j < i ==> items[j].binary.key == keys[j]
      invariant forall j :: 0 <= j < i ==> IsGroup(tag, nodes, serial, paths, items[j], j)
    {
      GroupItemOk(tag, nodes, serial, paths, keys, groups, i);
      items := items + [GroupItem(tag, paths, keys[i], groups[keys[i]], i)];
    }
    GroupsCover(nodes, serial, keys, groups, items);
  }

  /** The serial queue while it is built: finished items and the open segment. */
  ghost predicate Queue(tag: string, nodes: seq<Node>, paths: map<BinaryKey, string>, items: seq<WorkItem>,
                        segment: seq<NodeId>, binary: BinaryKey, keys: seq<NodeKey>)
  {
    && keys == Flat(items) + SegmentKeys(tag, segment)
    && (forall i :: 0 <= i < |items| ==> IsSegment(tag, nodes, paths, items[i], i))
    && (forall i :: 0 < i < |items| ==> items[i - 1].binary.key != items[i].binary.key)
    && (segment == [] ==> items == [])
    && (segment != [] ==> binary in paths && OnBinary(nodes, segment, binary))
    && (segment != [] && items != [] ==> items[|items| - 1].binary.key != binary)
  }

  function SegmentKeys(tag: string, segment: seq<NodeId>): (keys: seq<NodeKey>)
    ensures |keys| == |segment|
  {
    seq(|segment|, i requires 0 <= i < |segment| => NodeKey(tag, segment[i]))
  }

  function SegmentItem(tag: string, paths: map<BinaryKey, string>, segment: seq<NodeId>, binary: BinaryKey,
        i: nat): WorkItem
    requires binary in paths
  {
    WorkItem(ItemId(Serial, i), Serial, Binary(tag, binary, paths[binary]), segment)
  }

  /** Closing the open segment. */
  lemma Flush(tag: string, nodes: seq<Node>, paths: map<BinaryKey, string>, items: seq<WorkItem>,
              segment: seq<NodeId>, binary: BinaryKey, keys: seq<NodeKey>)
    requires Queue(tag, nodes, paths, items, segment, binary, keys) && segment != []
    ensures var flushed := items + [SegmentItem(tag, paths, segment, binary, |items|)];
            && keys == Flat(flushed)
            && (forall i :: 0 <= i < |flushed| ==> IsSegment(tag, nodes, paths, flushed[i], i))
            && (forall i :: 0 < i < |flushed| ==> flushed[i - 1].binary.key != flushed[i].binary.key)
  {
    var item := SegmentItem(tag, paths, segment, binary, |items|);
    FlatOne(items, item);
    assert ItemKeys(item) == SegmentKeys(tag, segment);
  }

  lemma QueueKeys(tag: string, items: seq<WorkItem>, segment: seq<NodeId>, chosen: seq<Node>, n: Node)
    requires KeysOf(tag, chosen) == Flat(items) + SegmentKeys(tag, segment)
    ensures KeysOf(tag, chosen + [n]) == Flat(items) + SegmentKeys(tag, segment + [n.id])
    ensures KeysOf(tag, chosen + [n]) == KeysOf(tag, chosen) + SegmentKeys(tag, [n.id])
  {
    hide Flat;
    var next := [NodeKey(tag, n.id)];
    assert KeysOf(tag, chosen + [n]) == KeysOf(tag, chosen) + next;
    assert SegmentKeys(tag, segment + [n.id]) == SegmentKeys(tag, segment) + next;
    assert SegmentKeys(tag, [n.id]) == next;
    Associative(Flat(items), SegmentKeys(tag, segment), next);
  }

  lemma QueueAppend(tag: string, nodes: seq<Node>, paths: map<BinaryKey, string>, items: seq<WorkItem>,
                    segment: seq<NodeId>, binary: BinaryKey, chosen: seq<Node>, n: Node)
    requires Queue(tag, nodes, paths, items, segment, binary, KeysOf(tag, chosen))
    requires n in nodes && n.binary in paths
    ensures segment == [] || n.binary == binary ==>
              Queue(tag, nodes, paths, items, segment + [n.id], n.binary, KeysOf(tag, chosen + [n]))
    ensures segment != [] && n.binary != binary ==>
              Queue(tag, nodes, paths, items + [SegmentItem(tag, paths, segment, binary, |items|)], [n.id], n.binary,
                    KeysOf(tag, chosen + [n]))
  {
    hide Flat;
    hide KeysOf;
    hide SegmentKeys;
    QueueKeys(tag, items, segment, chosen, n);
    if segment != [] {
      Flush(tag, nodes, paths, items, segment, binary, KeysOf(tag, chosen));
    }
    hide IsSegment;
    if segment != [] && n.binary != binary {
      assert OnBinary(nodes, [n.id], n.binary);
    } else {
      assert OnBinary(nodes, segment + [n.id], n.binary);
    }
  }

  lemma SerialOne(nodes: seq<Node>, serial: set<NodeId>, i: nat)
    requires i < |nodes|
    ensures Select(nodes[..i + 1], InSerial(serial))
         == Select(nodes[..i], InSerial(serial)) + if nodes[i].id in serial then [nodes[i]] else []
  {
    PrefixOne(nodes, i);
    SelectOne(nodes[..i], nodes[i], InSerial(serial));
  }

  lemma NothingQueued(tag: string, nodes: seq<Node>, serial: set<NodeId>, paths: map<BinaryKey, string>,
        binary: BinaryKey)
    ensures Queue(tag, nodes, paths, [], [], binary, KeysOf(tag, Select(nodes[..0], InSerial(serial))))
  {
    assert nodes[..0] == [];
  }

  method MakeSerial(tag: string, nodes: seq<Node>, serial: set<NodeId>, paths: map<BinaryKey, string>)
    returns (items: seq<WorkItem>)
    requires PathsKnown(nodes, paths)
    ensures SerialItems(tag, nodes, serial, paths, items)
  {
    items := [];
    var segment: seq<NodeId> := [];
    var binary := BinaryKey("", "");
    NothingQueued(tag, nodes, serial, paths, binary);
    for i := 0 to |nodes|
      invariant Queue(tag, nodes, paths, items, segment, binary, KeysOf(tag, Select(nodes[..i], InSerial(serial))))
    {
      hide Queue;
      hide Select;
      hide KeysOf;
      hide InSerial;
      var n := nodes[i];
      SerialOne(nodes, serial, i);
      if n.id !in serial {
        continue;
      }
      QueueAppend(tag, nodes, paths, items, segment, binary, Select(nodes[..i], InSerial(serial)), n);
      if segment != [] && n.binary != binary {
        items := items + [SegmentItem(tag, paths, segment, binary, |items|)];
        segment := [];
      }
      assert [] + [n.id] == [n.id];
      binary := n.binary;
      segment := segment + [n.id];
    }
    WholePrefix(nodes);
    hide Queue;
    QueueDone(tag, nodes, serial, paths, items, segment, binary);
    if segment != [] {
      items := items + [SegmentItem(tag, paths, segment, binary, |items|)];
    }
  }

  lemma QueueDone(tag: string, nodes: seq<Node>, serial: set<NodeId>, paths: map<BinaryKey, string>, items: seq<WorkItem>,
                  segment: seq<NodeId>, binary: BinaryKey)
    requires Queue(tag, nodes, paths, items, segment, binary, KeysOf(tag, Select(nodes, InSerial(serial))))
    ensures segment == [] ==> SerialItems(tag, nodes, serial, paths, items)
    ensures segment != [] ==>
              SerialItems(tag, nodes, serial, paths, items + [SegmentItem(tag, paths, segment, binary, |items|)])
  {
    if segment != [] {
      Flush(tag, nodes, paths, items, segment, binary, KeysOf(tag, Select(nodes, InSerial(serial))));
    }
  }

  predicate EdgesIndexed(edges: seq<Edge>, byId: map<NodeId, Node>) {
    forall e :: e in edges ==> e.source in byId && e.target in byId
  }

  lemma EdgesKnownById(nodes: seq<Node>, edges: seq<Edge>, byId: map<NodeId, Node>)
    requires byId.Keys == Ids(nodes)
    ensures EdgesIndexed(edges, byId) <==> EdgesKnown(nodes, edges)
  {}

  method ClassifyTagPlan(tag: string, nodes: seq<Node>, edges: seq<Edge>, paths: map<BinaryKey, string>)
    returns (result: Result<(seq<WorkItem>, seq<WorkItem>), PlanError>)
    ensures result.Ok? <==> UniqueIds(nodes) && EdgesKnown(nodes, edges) && PathsKnown(nodes, paths)
    ensures result.Ok? ==> ParallelItems(tag, nodes, SerialSet(nodes, edges), paths, result.value.0)
    ensures result.Ok? ==> SerialItems(tag, nodes, SerialSet(nodes, edges), paths, result.value.1)
    ensures result == Err(DuplicateNodes(tag)) <==> !UniqueIds(nodes)
    ensures result == Err(UnknownEdge(tag)) <==> UniqueIds(nodes) && !EdgesKnown(nodes, edges)
  {
    var byId := IndexById(nodes);
    CountIds(nodes);
    if |byId.Keys| != |nodes| {
      return Err(DuplicateNodes(tag));
    }
    EdgesKnownById(nodes, edges, byId);
    if !EdgesIndexed(edges, byId) {
      return Err(UnknownEdge(tag));
    }
    var serial := SerialNodes(nodes, edges, byId);
    // The two consistency errors of the source cannot happen: no edge leaves the serial set, and
    // the parallel and serial nodes together are all the nodes.
    SerialSetClosed(nodes, edges);
    assert Downward(edges, serial);
    if exists n :: n in nodes && n.binary !in paths {
      return Err(MissingPath(tag));
    }
    var parallelItems := MakeParallel(tag, nodes, serial, paths);
    var serialItems := MakeSerial(tag, nodes, serial, paths);
    return Ok((parallelItems, serialItems));
  }

  lemma {:induction false} CountIds(nodes: seq<Node>)
    ensures |Ids(nodes)| <= |nodes|
    ensures |Ids(nodes)| == |nodes| <==> UniqueIds(nodes)
  {
    if nodes == [] {
      assert Ids(nodes) == {};
    } else {
      var init, last := nodes[..|nodes| - 1], nodes[|nodes| - 1];
      CountIds(init);
      InitLast(nodes);
      assert forall n :: n in nodes <==> n in init || n == last;
      assert Ids(nodes) == Ids(init) + {last.id};
    }
  }
}
