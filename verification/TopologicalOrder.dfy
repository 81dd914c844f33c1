/** `_topological_order` of `analysis_planner.py`: a stable order of the analysis nodes, or a cycle. */
module TopologicalOrder {
  import opened Outcomes
  import opened PlanTypes

  // ---------------------------------------------------------------------------------------------
  // What the result means.

  /** `order` lists all nodes once, every edge pointing forwards. */
  ghost predicate IsTopological(nodes: seq<Node>, edges: seq<Edge>, order: seq<Node>) {
    && multiset(order) == multiset(nodes)
    && forall i, j :: 0 <= i < |order| && 0 <= j < |order| && Edge(order[i].id, order[j].id) in edges ==> i < j
  }

  /** Some node is reached from itself along one or more edges. */
  ghost predicate HasCycle(edges: seq<Edge>) {
    exists p :: IsCycle(edges, p)
  }

  ghost predicate IsCycle(edges: seq<Edge>, p: seq<NodeId>) {
    && |p| > 1 && p[0] == p[|p| - 1]
    && IsWalk(edges, p)
  }

  /** `a` is at most `b` in the lexicographic order of their `order` fields. */
  ghost predicate LexLeq(a: seq<Node>, b: seq<Node>)
  {
    a == b || exists k :: 0 <= k < |a| && k < |b| && a[..k] == b[..k] && a[k].order < b[k].order
  }

  // ---------------------------------------------------------------------------------------------
  // Cycles.

  /** Every node of `s` has a predecessor in `s`. */
  ghost predicate SelfSustained(edges: seq<Edge>, s: set<NodeId>) {
    forall n {:trigger HasSource(edges, s, n)} :: n in s ==> HasSource(edges, s, n)
  }

  ghost predicate HasSource(edges: seq<Edge>, s: set<NodeId>, n: NodeId) {
    exists m :: m in s && Edge(m, n) in edges
  }

  lemma {:induction false} Pigeonhole(p: seq<NodeId>, s: set<NodeId>)
    requires forall i :: 0 <= i < |p| ==> p[i] in s
    requires |p| > |s|
    ensures exists i, j :: 0 <= i < j < |p| && p[i] == p[j]
  {
    var last := p[|p| - 1];
    if forall i :: 0 <= i < |p| - 1 ==> p[i] != last {
      Pigeonhole(p[..|p| - 1], s - {last});
    }
  }

  lemma {:induction false} BackwardWalk(edges: seq<Edge>, s: set<NodeId>, length: nat) returns (p: seq<NodeId>)
    requires s != {} && SelfSustained(edges, s) && length > 0
    ensures |p| == length && IsWalk(edges, p) && forall i :: 0 <= i < |p| ==> p[i] in s
  {
    if length == 1 {
      var n :| n in s;
      p := [n];
    } else {
      var q := BackwardWalk(edges, s, length - 1);
      var first := q[0];
      assert HasSource(edges, s, first);
      var m :| m in s && Edge(m, first) in edges;
      p := [m] + q;
      forall i | 0 <= i < |p| - 1 ensures Follows(edges, p, i) {
        if i > 0 {
          assert Follows(edges, q, i - 1);
        }
      }
    }
  }

  lemma SelfSustainedHasCycle(edges: seq<Edge>, s: set<NodeId>)
    requires s != {} && SelfSustained(edges, s)
    ensures HasCycle(edges)
  {
    var p := BackwardWalk(edges, s, |s| + 1);
    Pigeonhole(p, s);
    var i, j :| 0 <= i < j < |p| && p[i] == p[j];
    var q := p[i..j + 1];
    forall k | 0 <= k < |q| - 1 ensures Follows(edges, q, k) {
      assert Follows(edges, p, i + k);
    }
    assert IsCycle(edges, q);
  }

  lemma SameIds(nodes: seq<Node>, edges: seq<Edge>, order: seq<Node>)
    requires IsTopological(nodes, edges, order)
    ensures Ids(order) == Ids(nodes)
  {
    forall n ensures n in order <==> n in nodes {
      assert n in order <==> n in multiset(order);
    }
  }

  lemma OrderedMeansAcyclic(nodes: seq<Node>, edges: seq<Edge>, order: seq<Node>)
    requires EdgesKnown(nodes, edges) && IsTopological(nodes, edges, order)
    ensures !HasCycle(edges)
  {
    SameIds(nodes, edges, order);
    if HasCycle(edges) {
      var p :| IsCycle(edges, p);
      assert Follows(edges, p, 0);
      var first: nat :| first < |order| && order[first].id == p[0];
      var i, here := 0, first;
      while i < |p| - 1
        invariant 0 <= i < |p|
        invariant 0 <= here < |order| && order[here].id == p[i] && first <= here
        invariant i > 0 ==> forall x :: 0 <= x < |order| && order[x].id == p[i] ==> first < x
      {
        assert Follows(edges, p, i);
        var next: nat :| next < |order| && order[next].id == p[i + 1];
        i, here := i + 1, next;
      }
      assert false;
    }
  }

  // ---------------------------------------------------------------------------------------------
  // The greedy order.

  ghost predicate Distinct(order: seq<Node>) {
    forall i, j :: 0 <= i < j < |order| ==> order[i] != order[j]
  }

  /** `n` may come next after `before`. */
  ghost predicate Ready(nodes: seq<Node>, edges: seq<Edge>, before: seq<Node>, n: Node) {
    n in nodes && n !in before && Sources(edges, n.id) <= Ids(before)
  }

  /** At each place stands the ready node that was declared first. */
  ghost predicate Greedy(nodes: seq<Node>, edges: seq<Edge>, order: seq<Node>) {
    forall i :: 0 <= i < |order| ==>
                  && Ready(nodes, edges, order[..i], order[i])
                  && forall n :: Ready(nodes, edges, order[..i], n) ==> order[i].order <= n.order
  }

  lemma GreedyDistinct(nodes: seq<Node>, edges: seq<Edge>, order: seq<Node>)
    requires Greedy(nodes, edges, order)
    ensures Distinct(order)
  {
    forall i, j | 0 <= i < j < |order| ensures order[i] != order[j] {
      assert Ready(nodes, edges, order[..j], order[j]);
      assert order[..j][i] == order[i];
    }
  }

  /** Distinct sequences with the same elements are permutations of each other. */
  lemma {:induction false} SamePermutation(a: seq<Node>, b: seq<Node>)
    requires Distinct(a) && Distinct(b)
    requires forall n :: n in a <==> n in b
    ensures multiset(a) == multiset(b)
  {
    DistinctCounts(a);
    DistinctCounts(b);
  }

  lemma {:induction false} DistinctCounts(a: seq<Node>)
    requires Distinct(a)
    ensures forall n :: multiset(a)[n] == if n in a then 1 else 0
  {
    if a != [] {
      var rest, last := a[..|a| - 1], a[|a| - 1];
      DistinctCounts(rest);
      assert a == rest + [last];
      assert last !in rest;
    }
  }

  /** A greedy order of all the nodes is topological. */
  lemma GreedyIsTopological(nodes: seq<Node>, edges: seq<Edge>, order: seq<Node>)
    requires UniqueIds(nodes)
    requires Greedy(nodes, edges, order) && forall n :: n in nodes ==> n in order
    ensures IsTopological(nodes, edges, order)
  {
    GreedyDistinct(nodes, edges, order);
    forall n | n in order ensures n in nodes {
      var i :| 0 <= i < |order| && order[i] == n;
      assert Ready(nodes, edges, order[..i], order[i]);
    }
    SamePermutation(order, nodes);
    forall i, j | 0 <= i < |order| && 0 <= j < |order| && Edge(order[i].id, order[j].id) in edges ensures i < j {
      assert Ready(nodes, edges, order[..j], order[j]);
      assert order[i].id in Sources(edges, order[j].id);
      var m :| m in order[..j] && m.id == order[i].id;
      var k :| 0 <= k < j && order[k] == m;
      assert m == order[i] by {
        var x, y := m, order[i];
        assert x in nodes && y in nodes && x.id == y.id;
      }
      assert k == i;
    }
  }

  /** It is the least of all topological orders. */
  lemma GreedyIsLeast(nodes: seq<Node>, edges: seq<Edge>, order: seq<Node>, other: seq<Node>)
    requires UniqueIds(nodes) && UniqueOrders(nodes) && EdgesKnown(nodes, edges)
    requires Greedy(nodes, edges, order) && forall n :: n in nodes ==> n in order
    requires IsTopological(nodes, edges, other)
    ensures LexLeq(order, other)
  {
    GreedyIsTopological(nodes, edges, order);
    assert |order| == |multiset(order)| == |multiset(other)| == |other|;
    if order != other {
      var k := FirstDifference(order, other);
      NextIsReady(nodes, edges, other, k);
      assert Ready(nodes, edges, order[..k], order[k]);
      assert Ready(nodes, edges, order[..k], other[k]);
      assert order[k].order != other[k].order by {
        var x, y := order[k], other[k];
        assert x in nodes && y in nodes && x != y;
      }
    }
  }

  lemma {:induction false} FirstDifference(a: seq<Node>, b: seq<Node>) returns (k: nat)
    requires |a| == |b| && a != b
    ensures k < |a| && a[..k] == b[..k] && a[k] != b[k]
  {
    var n := |a| - 1;
    if a[..n] == b[..n] {
      assert a == a[..n] + [a[n]] && b == b[..n] + [b[n]];
      k := n;
    } else {
      k := FirstDifference(a[..n], b[..n]);
      assert a[..k] == a[..n][..k] && b[..k] == b[..n][..k];
    }
  }

  /** In a topological order every node is ready at its place. */
  lemma NextIsReady(nodes: seq<Node>, edges: seq<Edge>, other: seq<Node>, k: nat)
    requires UniqueIds(nodes) && EdgesKnown(nodes, edges) && IsTopological(nodes, edges, other) && k < |other|
    ensures Ready(nodes, edges, other[..k], other[k])
  {
    SameIds(nodes, edges, other);
    var n := other[k];
    assert n in multiset(other);
    assert n in multiset(nodes);
    forall id | id in Sources(edges, n.id) ensures id in Ids(other[..k]) {
      assert Edge(id, n.id) in edges;
      var i :| 0 <= i < |other| && other[i].id == id;
      assert i < k;
      assert other[..k][i] == other[i];
    }
    NoRepeats(nodes, other);
    assert n !in other[..k];
  }

  lemma NoRepeats(nodes: seq<Node>, other: seq<Node>)
    requires UniqueIds(nodes) && multiset(nodes) == multiset(other)
    ensures Distinct(other)
  {
    DistinctCounts(nodes);
    CountsDistinct(other);
  }

  lemma CountsDistinct(a: seq<Node>)
    requires forall n :: multiset(a)[n] <= 1
    ensures Distinct(a)
  {
    forall i, j | 0 <= i < j < |a| ensures a[i] != a[j] {
      assert a == a[..j] + [a[j]] + a[j + 1..];
      assert multiset(a) == multiset(a[..j]) + multiset{a[j]} + multiset(a[j + 1..]);
      assert a[i] == a[..j][i];
      assert a[i] in multiset(a[..j]);
      assert multiset(a)[a[j]] == multiset(a[..j])[a[j]] + 1 + multiset(a[j + 1..])[a[j]];
    }
  }

  /** A node that comes before its turn has been listed before. */
  lemma ListedBefore(nodes: seq<Node>, order: seq<Node>, k: nat) returns (m: nat)
    requires multiset(order) == multiset(nodes)
    requires forall i, j :: 0 <= i < j < |nodes| ==> nodes[i].order < nodes[j].order
    requires k < |order| && k < |nodes| && order[..k] == nodes[..k] && order[k].order < nodes[k].order
    ensures m < k && order[m] == order[k]
  {
    var n := order[k];
    assert n in multiset(order);
    assert n in multiset(nodes);
    m :| 0 <= m < |nodes| && nodes[m] == n;
    if m < k {
      assert order[..k][m] == nodes[..k][m];
    }
  }

  /** A declaration order that already fits all edges is kept. */
  lemma DeclarationOrderKept(nodes: seq<Node>, edges: seq<Edge>, order: seq<Node>)
    requires UniqueIds(nodes) && IsTopological(nodes, edges, nodes) && IsTopological(nodes, edges, order)
    requires forall i, j :: 0 <= i < j < |nodes| ==> nodes[i].order < nodes[j].order
    requires LexLeq(order, nodes)
    ensures order == nodes
  {
    assert multiset(order) == multiset(nodes);
    hide IsTopological;
    if order != nodes {
      var k :| 0 <= k < |order| && k < |nodes| && order[..k] == nodes[..k] && order[k].order < nodes[k].order;
      var m := ListedBefore(nodes, order, k);
      NoRepeats(nodes, order);
    }
  }

  // ---------------------------------------------------------------------------------------------
  // The code.

  ghost predicate IncomingOf(nodes: seq<Node>, edges: seq<Edge>, incoming: map<NodeId, set<NodeId>>) {
    incoming.Keys == Ids(nodes) && forall id :: id in incoming ==> incoming[id] == Sources(edges, id)
  }

  ghost predicate OutgoingOf(nodes: seq<Node>, edges: seq<Edge>, outgoing: map<NodeId, set<NodeId>>) {
    outgoing.Keys == Ids(nodes) && forall id :: id in outgoing ==> outgoing[id] == Targets(edges, id)
  }

  lemma AddIncoming(nodes: seq<Node>, edges: seq<Edge>, e: Edge, incoming: map<NodeId, set<NodeId>>)
    requires IncomingOf(nodes, edges, incoming) && e.target in incoming
    ensures IncomingOf(nodes, edges + [e], incoming[e.target := incoming[e.target] + {e.source}])
  {}

  lemma AddOutgoing(nodes: seq<Node>, edges: seq<Edge>, e: Edge, outgoing: map<NodeId, set<NodeId>>)
    requires OutgoingOf(nodes, edges, outgoing) && e.source in outgoing
    ensures OutgoingOf(nodes, edges + [e], outgoing[e.source := outgoing[e.source] + {e.target}])
  {}

  /** The dictionaries of incoming and outgoing neighbours. */
  method Neighbours(nodes: seq<Node>, edges: seq<Edge>)
    returns (incoming: map<NodeId, set<NodeId>>, outgoing: map<NodeId, set<NodeId>>)
    requires EdgesKnown(nodes, edges)
    ensures IncomingOf(nodes, edges, incoming) && OutgoingOf(nodes, edges, outgoing)
  {
    incoming := map id | id in Ids(nodes) :: {};
    outgoing := map id | id in Ids(nodes) :: {};
    for i := 0 to |edges|
      invariant IncomingOf(nodes, edges[..i], incoming) && OutgoingOf(nodes, edges[..i], outgoing)
    {
      var e := edges[i];
      assert edges[..i + 1] == edges[..i] + [e];
      assert e in edges;
      AddIncoming(nodes, edges[..i], e, incoming);
      AddOutgoing(nodes, edges[..i], e, outgoing);
      incoming := incoming[e.target := incoming[e.target] + {e.source}];
      outgoing := outgoing[e.source := outgoing[e.source] + {e.target}];
    }
    assert edges[..|edges|] == edges;
  }

  ghost predicate NoDuplicates(ids: seq<NodeId>) {
    forall i, j :: 0 <= i < j < |ids| ==> ids[i] != ids[j]
  }

  ghost predicate SortedByOrder(byId: map<NodeId, Node>, ids: seq<NodeId>)
    requires forall id :: id in ids ==> id in byId
  {
    forall i, j :: 0 <= i < j < |ids| ==> byId[ids[i]].order <= byId[ids[j]].order
  }

  /** The library sort of distinct ids, keyed by declaration order. */
  method Sort(byId: map<NodeId, Node>, ids: set<NodeId>) returns (sorted: seq<NodeId>)
    requires forall id :: id in ids ==> id in byId
    ensures forall id :: id in sorted <==> id in ids
    ensures SortedByOrder(byId, sorted) && NoDuplicates(sorted)
  {
    sorted := [];
    var rest := ids;
    while rest != {}
      invariant rest <= ids
      invariant forall id :: id in sorted <==> id in ids && id !in rest
      invariant forall i, id :: 0 <= i < |sorted| && id in rest ==> byId[sorted[i]].order <= byId[id].order
      invariant SortedByOrder(byId, sorted) && NoDuplicates(sorted)
    {
      LeastExists(byId, rest);
      var least :| least in rest && forall id :: id in rest ==> byId[least].order <= byId[id].order;
      sorted := sorted + [least];
      rest := rest - {least};
    }
  }

  lemma {:induction false} LeastExists(byId: map<NodeId, Node>, ids: set<NodeId>)
    requires ids != {} && forall id :: id in ids ==> id in byId
    ensures exists least :: least in ids && forall id :: id in ids ==> byId[least].order <= byId[id].order
  {
    var some :| some in ids;
    if ids != {some} {
      LeastExists(byId, ids - {some});
      var least :| least in ids - {some} && forall id :: id in ids - {some} ==> byId[least].order <= byId[id].order;
      var best := if byId[some].order <= byId[least].order then some else least;
      assert best in ids && forall id :: id in ids ==> byId[best].order <= byId[id].order by {
        forall id | id in ids ensures byId[best].order <= byId[id].order {
          assert id == some || id in ids - {some};
        }
      }
    }
  }

  /** `incoming` holds what each node still waits for, and `ready` lists the nodes that wait for nothing. */
  ghost predicate Waiting(nodes: seq<Node>, edges: seq<Edge>, done: set<NodeId>, incoming: map<NodeId, set<NodeId>>,
                          ready: seq<NodeId>)
  {
    && NoDuplicates(ready)
    && incoming.Keys == Ids(nodes)
    && (forall id :: id in incoming ==> incoming[id] == Sources(edges, id) - done)
    && (forall id :: id in ready <==> id in incoming && id !in done && incoming[id] == {})
  }

  /** The head of the sorted ready list is the greedy choice. */
  lemma GreedyStep(nodes: seq<Node>, edges: seq<Edge>, byId: map<NodeId, Node>, ordered: seq<Node>,
                   incoming: map<NodeId, set<NodeId>>, ready: seq<NodeId>)
    requires UniqueIds(nodes) && Indexed(nodes, byId) && ready != []
    requires Greedy(nodes, edges, ordered) && Waiting(nodes, edges, Ids(ordered), incoming, ready)
    requires SortedByOrder(byId, ready)
    ensures Greedy(nodes, edges, ordered + [byId[ready[0]]])
  {
    var next := byId[ready[0]];
    assert ready[0] in ready;
    GreedyInside(nodes, edges, ordered);
    forall id | id in Sources(edges, next.id) ensures id in Ids(ordered) {
      assert id !in Sources(edges, next.id) - Ids(ordered);
    }
    assert Ready(nodes, edges, ordered, next);
    forall n | Ready(nodes, edges, ordered, n) ensures next.order <= n.order {
      assert n.id !in Ids(ordered);
      assert n.id in ready;
      var k :| 0 <= k < |ready| && ready[k] == n.id;
      assert byId[n.id] == n;
    }
    var longer := ordered + [next];
    assert longer[..|ordered|] == ordered;
    forall i | 0 <= i < |longer|
      ensures Ready(nodes, edges, longer[..i], longer[i])
      ensures forall n :: Ready(nodes, edges, longer[..i], n) ==> longer[i].order <= n.order
    {
      if i < |ordered| {
        assert longer[..i] == ordered[..i];
        assert Ready(nodes, edges, ordered[..i], ordered[i]);
      }
    }
  }

  lemma IdsAppend(order: seq<Node>, n: Node)
    ensures Ids(order + [n]) == Ids(order) + {n.id}
  {
    assert forall m :: m in order + [n] <==> m in order || m == n;
  }

  lemma GreedyInside(nodes: seq<Node>, edges: seq<Edge>, order: seq<Node>)
    requires Greedy(nodes, edges, order)
    ensures forall n :: n in order ==> n in nodes
  {
    forall n | n in order ensures n in nodes {
      var i :| 0 <= i < |order| && order[i] == n;
      assert Ready(nodes, edges, order[..i], order[i]);
    }
  }

  lemma Complete(nodes: seq<Node>, edges: seq<Edge>, ordered: seq<Node>)
    requires UniqueIds(nodes) && UniqueOrders(nodes) && EdgesKnown(nodes, edges)
    requires Greedy(nodes, edges, ordered) && |ordered| == |nodes|
    ensures IsTopological(nodes, edges, ordered) && !HasCycle(edges)
    ensures forall other :: IsTopological(nodes, edges, other) ==> LexLeq(ordered, other)
  {
    GreedyCovers(nodes, edges, ordered);
    GreedyIsTopological(nodes, edges, ordered);
    OrderedMeansAcyclic(nodes, edges, ordered);
    forall other | IsTopological(nodes, edges, other) ensures LexLeq(ordered, other) {
      GreedyIsLeast(nodes, edges, ordered, other);
    }
  }

  /** A greedy order has all the nodes exactly when it has as many. */
  lemma GreedyCovers(nodes: seq<Node>, edges: seq<Edge>, ordered: seq<Node>)
    requires UniqueIds(nodes) && Greedy(nodes, edges, ordered)
    ensures |ordered| == |nodes| <==> forall n :: n in nodes ==> n in ordered
  {
    GreedyInside(nodes, edges, ordered);
    GreedyDistinct(nodes, edges, ordered);
    DistinctCounts(ordered);
    DistinctCounts(nodes);
    assert multiset(ordered) <= multiset(nodes);
    var missing := multiset(nodes) - multiset(ordered);
    assert multiset(nodes) == multiset(ordered) + missing;
    assert |nodes| == |ordered| + |missing|;
    if forall n :: n in nodes ==> n in ordered {
      assert missing == multiset{};
    }
    forall n | n in nodes && |missing| == 0 ensures n in ordered {
      assert n in multiset(nodes);
    }
  }

  /** No set that sustains itself contains an ordered node. */
  lemma {:induction false} OrderedOutside(nodes: seq<Node>, edges: seq<Edge>, ordered: seq<Node>, s: set<NodeId>, i: nat)
    requires Greedy(nodes, edges, ordered) && SelfSustained(edges, s) && i < |ordered|
    ensures ordered[i].id !in s
  {
    if ordered[i].id in s {
      assert HasSource(edges, s, ordered[i].id);
      var m :| m in s && Edge(m, ordered[i].id) in edges;
      assert Ready(nodes, edges, ordered[..i], ordered[i]);
      assert m in Sources(edges, ordered[i].id);
      var n :| n in ordered[..i] && n.id == m;
      var j :| 0 <= j < i && ordered[j] == n;
      OrderedOutside(nodes, edges, ordered, s, j);
    }
  }

  /** When nothing is ready any more, the waiting nodes sustain each other. */
  lemma WaitingSustained(nodes: seq<Node>, edges: seq<Edge>, ordered: seq<Node>, incoming: map<NodeId, set<NodeId>>,
                         blocked: set<NodeId>)
    requires EdgesKnown(nodes, edges) && Waiting(nodes, edges, Ids(ordered), incoming, [])
    requires blocked == set id | id in incoming && incoming[id] != {}
    ensures SelfSustained(edges, blocked)
  {
    forall n | n in blocked ensures HasSource(edges, blocked, n) {
      var m :| m in incoming[n];
      assert m in Sources(edges, n) && Edge(m, n) in edges;
      assert m in blocked;
    }
  }

  /** They are the greatest set that does. */
  lemma WaitingGreatest(nodes: seq<Node>, edges: seq<Edge>, ordered: seq<Node>, incoming: map<NodeId, set<NodeId>>,
                        blocked: set<NodeId>, s: set<NodeId>)
    requires EdgesKnown(nodes, edges) && Waiting(nodes, edges, Ids(ordered), incoming, [])
    requires Greedy(nodes, edges, ordered) && SelfSustained(edges, s)
    requires blocked == set id | id in incoming && incoming[id] != {}
    ensures s <= blocked
  {
    forall id | id in s ensures id in blocked {
      assert HasSource(edges, s, id);
      var m :| m in s && Edge(m, id) in edges;
      assert id in Ids(nodes);
      if id in Ids(ordered) {
        var n :| n in ordered && n.id == id;
        var i :| 0 <= i < |ordered| && ordered[i] == n;
        OrderedOutside(nodes, edges, ordered, s, i);
      }
    }
  }

  lemma Stuck(nodes: seq<Node>, edges: seq<Edge>, ordered: seq<Node>, incoming: map<NodeId, set<NodeId>>,
              blocked: set<NodeId>)
    requires UniqueIds(nodes) && EdgesKnown(nodes, edges) && Greedy(nodes, edges, ordered)
    requires Waiting(nodes, edges, Ids(ordered), incoming, []) && |ordered| != |nodes|
    requires blocked == set id | id in incoming && incoming[id] != {}
    ensures SelfSustained(edges, blocked) && HasCycle(edges)
    ensures forall s :: SelfSustained(edges, s) ==> s <= blocked
  {
    WaitingSustained(nodes, edges, ordered, incoming, blocked);
    forall s | SelfSustained(edges, s) ensures s <= blocked {
      WaitingGreatest(nodes, edges, ordered, incoming, blocked, s);
    }
    GreedyCovers(nodes, edges, ordered);
    GreedyInside(nodes, edges, ordered);
    var n :| n in nodes && n !in ordered;
    forall m | m in ordered ensures m.id != n.id {
      assert m in nodes;
    }
    assert n.id in blocked;
    SelfSustainedHasCycle(edges, blocked);
  }

  method OrderNodes(nodes: seq<Node>, edges: seq<Edge>) returns (result: Result<seq<Node>, set<NodeId>>)
    requires UniqueIds(nodes) && UniqueOrders(nodes) && EdgesKnown(nodes, edges)
    ensures result.Err? <==> HasCycle(edges)
    ensures result.Ok? ==> IsTopological(nodes, edges, result.value)
    ensures result.Ok? ==> forall other :: IsTopological(nodes, edges, other) ==> LexLeq(result.value, other)
    ensures result.Err? ==> SelfSustained(edges, result.error)
    ensures result.Err? ==> forall s :: SelfSustained(edges, s) ==> s <= result.error
  {
    var byId := IndexById(nodes);
    var incoming, outgoing := Neighbours(nodes, edges);
    var ready := Sort(byId, set id | id in incoming && incoming[id] == {});
    var ordered: seq<Node> := [];
    while ready != []
      invariant Greedy(nodes, edges, ordered)
      invariant Waiting(nodes, edges, Ids(ordered), incoming, ready)
      invariant SortedByOrder(byId, ready)
      decreases Ids(nodes) - Ids(ordered)
    {
      var current := ready[0];
      GreedyStep(nodes, edges, byId, ordered, incoming, ready);
      var done := Ids(ordered);
      IdsAppend(ordered, byId[current]);
      HeadAndTail(ready);
      ready := ready[1..];
      ordered := ordered + [byId[current]];
      incoming, ready := Settle(nodes, edges, done, byId, incoming, outgoing[current], ready, current);
      ready := Sort(byId, set id | id in ready);
    }
    if |ordered| != |nodes| {
      var blocked := set id | id in incoming && incoming[id] != {};
      Stuck(nodes, edges, ordered, incoming, blocked);
      result := Err(blocked);
    } else {
      Complete(nodes, edges, ordered);
      result := Ok(ordered);
    }
  }

  lemma HeadAndTail(ids: seq<NodeId>)
    requires ids != []
    ensures ids == [ids[0]] + ids[1..]
  {}

  /** While the targets of `current` are being updated: those in `handled` no longer wait for it. */
  ghost predicate Settling(nodes: seq<Node>, edges: seq<Edge>, done: set<NodeId>, current: NodeId, handled: seq<NodeId>,
                           incoming: map<NodeId, set<NodeId>>, ready: seq<NodeId>)
  {
    && incoming.Keys == Ids(nodes)
    && (forall id :: id in incoming ==>
          incoming[id] == Sources(edges, id) - done - (if id in handled then {current} else {}))
    && (forall id :: id in ready <==> id in incoming && id !in done && id != current && incoming[id] == {})
    && NoDuplicates(ready)
  }

  lemma SettleStart(nodes: seq<Node>, edges: seq<Edge>, done: set<NodeId>, incoming: map<NodeId, set<NodeId>>,
                    ready: seq<NodeId>, current: NodeId)
    requires Waiting(nodes, edges, done, incoming, [current] + ready)
    ensures Settling(nodes, edges, done, current, [], incoming, ready)
  {
    assert current in [current] + ready && ready == ([current] + ready)[1..];
    assert current !in ready;
    hide Sources;
  }

  lemma SettleStep(nodes: seq<Node>, edges: seq<Edge>, done: set<NodeId>, current: NodeId, handled: seq<NodeId>,
                   incoming: map<NodeId, set<NodeId>>, ready: seq<NodeId>, target: NodeId)
    requires Settling(nodes, edges, done, current, handled, incoming, ready) && target in incoming
    ensures var later := incoming[target := incoming[target] - {current}];
            var now := if later[target] == {} && target !in done + {current} && target !in ready then ready + [target] else ready;
            Settling(nodes, edges, done, current, handled + [target], later, now)
  {
    hide Ids;
    hide Sources;
    var later := incoming[target := incoming[target] - {current}];
    assert later.Keys == incoming.Keys;
    forall id | id in later
      ensures later[id] == Sources(edges, id) - done - (if id in handled + [target] then {current} else {})
    {
      assert id in handled + [target] <==> id in handled || id == target;
    }
  }

  lemma SettleEnd(nodes: seq<Node>, edges: seq<Edge>, done: set<NodeId>, current: NodeId, targets: seq<NodeId>,
                  incoming: map<NodeId, set<NodeId>>, ready: seq<NodeId>)
    requires Settling(nodes, edges, done, current, targets, incoming, ready)
    requires forall id :: id in targets <==> id in Targets(edges, current)
    ensures Waiting(nodes, edges, done + {current}, incoming, ready)
  {
    forall id | id in incoming ensures incoming[id] == Sources(edges, id) - (done + {current}) {
      assert id in targets <==> current in Sources(edges, id);
    }
  }

  /** Removes `current` from what its targets wait for. */
  method Settle(nodes: seq<Node>, edges: seq<Edge>, done: set<NodeId>, byId: map<NodeId, Node>,
                incoming0: map<NodeId, set<NodeId>>, outgoing: set<NodeId>, ready0: seq<NodeId>, current: NodeId)
    returns (incoming: map<NodeId, set<NodeId>>, ready: seq<NodeId>)
    requires Indexed(nodes, byId) && EdgesKnown(nodes, edges)
    requires Waiting(nodes, edges, done, incoming0, [current] + ready0)
    requires outgoing == Targets(edges, current)
    ensures Waiting(nodes, edges, done + {current}, incoming, ready)
  {
    hide Waiting;
    hide Settling;
    hide Indexed;
    incoming, ready := incoming0, ready0;
    SettleStart(nodes, edges, done, incoming, ready, current);
    WaitingKeys(nodes, edges, done, incoming, [current] + ready);
    KnownTargets(nodes, edges, byId, current);
    var targets := Sort(byId, outgoing);
    hide EdgesKnown;
    hide Ids;
    hide Targets;
    assert targets[..0] == [];
    for k := 0 to |targets|
      invariant incoming.Keys == Ids(nodes)
      invariant Settling(nodes, edges, done, current, targets[..k], incoming, ready)
    {
      var target := targets[k];
      assert target in targets;
      assert targets[..k + 1] == targets[..k] + [target];
      SettleStep(nodes, edges, done, current, targets[..k], incoming, ready, target);
      incoming := incoming[target := incoming[target] - {current}];
      if incoming[target] == {} && target !in done + {current} && target !in ready {
        ready := ready + [target];
      }
    }
    assert targets[..|targets|] == targets;
    SettleEnd(nodes, edges, done, current, targets, incoming, ready);
  }

  lemma WaitingKeys(nodes: seq<Node>, edges: seq<Edge>, done: set<NodeId>, incoming: map<NodeId, set<NodeId>>,
                    ready: seq<NodeId>)
    requires Waiting(nodes, edges, done, incoming, ready)
    ensures incoming.Keys == Ids(nodes)
  {}

  lemma KnownTargets(nodes: seq<Node>, edges: seq<Edge>, byId: map<NodeId, Node>, current: NodeId)
    requires Indexed(nodes, byId) && EdgesKnown(nodes, edges)
    ensures Targets(edges, current) <= byId.Keys == Ids(nodes)
  {
    forall id | id in Targets(edges, current) ensures id in Ids(nodes) {
      assert Edge(current, id) in edges;
    }
  }
}
