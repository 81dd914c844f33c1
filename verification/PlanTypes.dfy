/** The parts of an analysis plan that ordering and scheduling look at. */
module PlanTypes {
  /** The planner composes ids from module, platform and skill; here only their equality matters. */
  datatype NodeId = NodeId(text: string)

  /** The binary a node analyses, inside one tag. */
  datatype BinaryKey = BinaryKey(moduleName: string, platform: string)

  /** `order` is the node's place in declaration order. */
  datatype Node = Node(id: NodeId, binary: BinaryKey, order: nat)

  datatype Edge = Edge(source: NodeId, target: NodeId)

  ghost predicate UniqueIds(nodes: seq<Node>) {
    forall i, j :: 0 <= i < j < |nodes| ==> nodes[i].id != nodes[j].id
  }

  ghost predicate UniqueOrders(nodes: seq<Node>) {
    forall i, j :: 0 <= i < j < |nodes| ==> nodes[i].order != nodes[j].order
  }

  function Ids(nodes: seq<Node>): set<NodeId> {
    set n | n in nodes :: n.id
  }

  ghost predicate EdgesKnown(nodes: seq<Node>, edges: seq<Edge>) {
    forall e :: e in edges ==> e.source in Ids(nodes) && e.target in Ids(nodes)
  }

  function Sources(edges: seq<Edge>, target: NodeId): (s: set<NodeId>)
    ensures forall id :: id in s <==> Edge(id, target) in edges
  {
    set e | e in edges && e.target == target :: e.source
  }

  function Targets(edges: seq<Edge>, source: NodeId): (s: set<NodeId>)
    ensures forall id :: id in s <==> Edge(source, id) in edges
  {
    set e | e in edges && e.source == source :: e.target
  }

  /** `p` follows edges forwards. */
  ghost predicate IsWalk(edges: seq<Edge>, p: seq<NodeId>) {
    forall i :: 0 <= i < |p| - 1 ==> Follows(edges, p, i)
  }

  ghost predicate Follows(edges: seq<Edge>, p: seq<NodeId>, i: nat)
    requires i < |p| - 1
  {
    Edge(p[i], p[i + 1]) in edges
  }

  /** `byId` finds each node under its id. */
  ghost predicate Indexed(nodes: seq<Node>, byId: map<NodeId, Node>) {
    && byId.Keys == Ids(nodes)
    && forall id :: id in byId ==> byId[id] in nodes && byId[id].id == id
  }

  method IndexById(nodes: seq<Node>) returns (byId: map<NodeId, Node>)
    ensures Indexed(nodes, byId)
  {
    byId := map[];
    for i := 0 to |nodes|
      invariant byId.Keys == Ids(nodes[..i])
      invariant forall id :: id in byId ==> byId[id] in nodes && byId[id].id == id
    {
      assert nodes[..i + 1] == nodes[..i] + [nodes[i]];
      byId := byId[nodes[i].id := nodes[i]];
    }
    assert nodes[..|nodes|] == nodes;
  }
}
