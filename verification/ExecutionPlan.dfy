/** From declared skills to runs: the planner's result, and what it means for every run of the scheduler. */
module ExecutionPlan {
  import opened Outcomes
  import opened PlanTypes
  import opened PlanEdges
  import opened BatchTypes
  import opened TagSchedule
  import opened BatchSchedule
  import opened RunHistory
  import TopologicalOrder

  datatype Plan = Plan(nodes: seq<Node>, edges: seq<PlanEdge>)

  datatype PlanningError = Unplannable(reason: EdgeError) | Cyclic(blocked: set<NodeId>)

  function Nodes(declared: seq<PlanNode>): (nodes: seq<Node>)
    ensures |nodes| == |declared|
  {
    seq(|declared|, i requires 0 <= i < |declared| => declared[i].node)
  }

  function Plain(edges: seq<PlanEdge>): (plain: seq<Edge>)
    ensures |plain| == |edges|
  {
    seq(|edges|, i requires 0 <= i < |edges| => edges[i].edge)
  }

  lemma PlainHas(edges: seq<PlanEdge>, e: Edge)
    ensures e in Plain(edges) <==> exists x :: x in edges && x.edge == e
  {
    if e in Plain(edges) {
      var i :| 0 <= i < |edges| && Plain(edges)[i] == e;
      assert edges[i] in edges;
    }
    if x :| x in edges && x.edge == e {
      var i :| 0 <= i < |edges| && edges[i] == x;
      assert Plain(edges)[i] == e;
    }
  }

  /** The declared skills have distinct ids and places, and a binary declares each skill once. */
  ghost predicate WellDeclared(declared: seq<PlanNode>) {
    UniqueIds(Nodes(declared)) && UniqueOrders(Nodes(declared)) && SkillsDistinct(declared)
  }

  /** The plan orders the declared nodes, and its edges are exactly the declared dependencies. */
  ghost predicate PlanFor(declared: seq<PlanNode>, w: World, nodes: seq<Node>, edges: seq<Edge>) {
    && multiset(nodes) == multiset(Nodes(declared))
    && PlanOrdered(nodes, edges)
    && forall e :: e in edges <==> Needed(declared, w, e)
  }

  /** Some declared artifact or prerequisite makes `e.source` come before `e.target`. */
  ghost predicate Needed(declared: seq<PlanNode>, w: World, e: Edge) {
    exists x :: Reasoned(declared, w, declared, x) && x.edge == e
  }

  lemma NeededIsPlain(declared: seq<PlanNode>, w: World, edges: seq<PlanEdge>, e: Edge)
    requires forall x :: x in edges <==> Reasoned(declared, w, declared, x)
    ensures e in Plain(edges) <==> Needed(declared, w, e)
  {
    hide Reasoned;
    PlainHas(edges, e);
    if x :| x in edges && x.edge == e {
      assert Reasoned(declared, w, declared, x);
    }
  }

  lemma EndsKnown(declared: seq<PlanNode>, w: World, x: PlanEdge)
    requires Reasoned(declared, w, declared, x)
    ensures x.edge.source in Ids(Nodes(declared)) && x.edge.target in Ids(Nodes(declared))
  {
    hide Reasoned;
    EdgesStayOnPlatform(declared, w, x);
    var p, n :| p in declared && n in declared && p.node.id == x.edge.source && n.node.id == x.edge.target;
    NodeKnown(declared, p);
    NodeKnown(declared, n);
  }

  lemma NodeKnown(declared: seq<PlanNode>, p: PlanNode)
    requires p in declared
    ensures p.node in Nodes(declared) && p.node.id in Ids(Nodes(declared))
  {
    var i :| 0 <= i < |declared| && declared[i] == p;
    assert Nodes(declared)[i] == p.node;
  }

  /** Dependencies that lead from a node back to itself. */
  ghost predicate Circle(declared: seq<PlanNode>, w: World, p: seq<NodeId>) {
    |p| > 1 && p[0] == p[|p| - 1] && forall i :: 0 <= i < |p| - 1 ==> NeededAt(declared, w, p, i)
  }

  ghost predicate NeededAt(declared: seq<PlanNode>, w: World, p: seq<NodeId>, i: nat)
    requires i < |p| - 1
  {
    Needed(declared, w, Edge(p[i], p[i + 1]))
  }

  /** A plan exists exactly when nothing is missing or doubly produced and no dependencies go in a circle. */
  method BuildExecutionPlan(declared: seq<PlanNode>, w: World) returns (r: Result<Plan, PlanningError>)
    requires WellDeclared(declared)
    ensures r.Ok? ==> PlanFor(declared, w, r.value.nodes, Plain(r.value.edges))
    ensures r.Err? && r.error.Unplannable? <==>
      !(OneProducerEach(AllOutputs(declared), w) && forall n :: n in declared ==> Satisfied(declared, w, n))
    ensures r.Err? && r.error.Cyclic? ==> exists p :: Circle(declared, w, p)
    ensures r.Ok? ==> !exists p :: Circle(declared, w, p)
  {
    hide OneProducerEach;
    hide Satisfied;
    hide Reasoned;
    var edges := BuildEdges(declared, w);
    if edges.Err? {
      return Err(Unplannable(edges.error));
    }
    var plain := Plain(edges.value);
    forall e
      ensures e in plain <==> Needed(declared, w, e)
    {
      NeededIsPlain(declared, w, edges.value, e);
    }
    forall e | e in plain
      ensures e.source in Ids(Nodes(declared)) && e.target in Ids(Nodes(declared))
    {
      var x :| Reasoned(declared, w, declared, x) && x.edge == e;
      EndsKnown(declared, w, x);
    }
    hide Needed;
    var ordered := TopologicalOrder.OrderNodes(Nodes(declared), plain);
    forall p
      ensures TopologicalOrder.IsCycle(plain, p) <==> Circle(declared, w, p)
    {
      CycleIsCircle(declared, w, plain, p);
    }
    hide Circle;
    hide TopologicalOrder.IsCycle;
    if ordered.Err? {
      return Err(Cyclic(ordered.error));
    }
    return Ok(Plan(ordered.value, edges.value));
  }

  lemma CycleIsCircle(declared: seq<PlanNode>, w: World, edges: seq<Edge>, p: seq<NodeId>)
    requires forall e :: e in edges <==> Needed(declared, w, e)
    ensures TopologicalOrder.IsCycle(edges, p) <==> Circle(declared, w, p)
  {
    hide Needed;
    if TopologicalOrder.IsCycle(edges, p) {
      forall i: nat | i < |p| - 1
        ensures NeededAt(declared, w, p, i)
      {
        assert Follows(edges, p, i);
      }
    }
    if Circle(declared, w, p) {
      forall i: nat | i < |p| - 1
        ensures Follows(edges, p, i)
      {
        assert NeededAt(declared, w, p, i);
      }
    }
  }

  /** In every run of a planned batch: when a worker starts, whoever produces an artifact that one of its nodes reads,
      if scheduled at all, is earlier in the same item or in an item that has already succeeded. */
  lemma ProducersRunFirst(plans: seq<TagPlan>, schedule: Schedule, limit: nat, h: seq<Action>, j: nat, b: nat,
                          p: nat, declared: seq<PlanNode>, w: World, n: PlanNode, path: string, source: NodeId)
    requires ScheduleFor(plans, schedule) && HistoryOk(schedule, limit, h)
    requires p < |plans| && PlanFor(declared, w, plans[p].nodes, plans[p].edges)
    requires n in declared && (path in n.requiredInputs || path in n.optionalInputs) && Feeds(declared, w, source, n, path)
    requires j < |h| && h[j].Launched? && b < |h[j].item.nodeIds|
    requires ItemKeys(h[j].item)[b] == NodeKey(plans[p].tag, n.node.id)
    requires var key := NodeKey(plans[p].tag, source);
             key in Flat(schedule.parallelItems) || key in Flat(schedule.serialItems)
    ensures DoneBefore(h, j, h[j].item, b, NodeKey(plans[p].tag, source))
  {
    var e := Edge(source, n.node.id);
    var x := PlanEdge(e, if path in n.requiredInputs then Artifact else OptionalInput, path);
    assert Reason(declared, w, n, x);
    assert Reasoned(declared, w, declared, x);
    hide Reasoned;
    assert Needed(declared, w, e);
    hide Needed;
    hide Feeds;
    hide ScheduleFor;
    hide HistoryOk;
    hide PlanOrdered;
    EveryLaunchInOrder(plans, schedule, limit, h, j, p, e, b);
  }

  /** The same for declared prerequisites. */
  lemma PrerequisitesRunFirst(plans: seq<TagPlan>, schedule: Schedule, limit: nat, h: seq<Action>, j: nat, b: nat,
                              p: nat, declared: seq<PlanNode>, w: World, n: PlanNode, skill: string, source: NodeId)
    requires ScheduleFor(plans, schedule) && HistoryOk(schedule, limit, h)
    requires p < |plans| && PlanFor(declared, w, plans[p].nodes, plans[p].edges)
    requires n in declared && skill in n.prerequisites && Declares(declared, n, skill, source)
    requires j < |h| && h[j].Launched? && b < |h[j].item.nodeIds|
    requires ItemKeys(h[j].item)[b] == NodeKey(plans[p].tag, n.node.id)
    requires var key := NodeKey(plans[p].tag, source);
             key in Flat(schedule.parallelItems) || key in Flat(schedule.serialItems)
    ensures DoneBefore(h, j, h[j].item, b, NodeKey(plans[p].tag, source))
  {
    var e := Edge(source, n.node.id);
    var x := PlanEdge(e, Prerequisite, skill);
    assert Reason(declared, w, n, x);
    assert Reasoned(declared, w, declared, x);
    hide Reasoned;
    assert Needed(declared, w, e);
    hide Needed;
    hide Declares;
    hide ScheduleFor;
    hide HistoryOk;
    hide PlanOrdered;
    EveryLaunchInOrder(plans, schedule, limit, h, j, p, e, b);
  }
}
