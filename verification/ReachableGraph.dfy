/** `reachable_address_graph`: drop the blocks that no path from the entry block reaches. */
module ReachableGraph {
  import opened AddressFlow

  ghost predicate FlowEdge(g: Graph, b: BlockId, c: BlockId) {
    c in g && b in g[c].preds
  }

  /** `p` follows control flow forwards from `entry` inside the graph. */
  ghost predicate FlowPath(g: Graph, entry: BlockId, p: seq<BlockId>) {
    && |p| > 0
    && p[0] == entry && entry in g
    && forall i :: 0 < i < |p| ==> FlowEdge(g, p[i - 1], p[i])
  }

  ghost predicate Reaches(g: Graph, entry: BlockId, b: BlockId) {
    exists p :: FlowPath(g, entry, p) && p[|p| - 1] == b
  }

  lemma ReachesEntry(g: Graph, entry: BlockId)
    requires entry in g
    ensures Reaches(g, entry, entry)
  {
    assert FlowPath(g, entry, [entry]);
  }

  lemma ReachesNext(g: Graph, entry: BlockId, b: BlockId, c: BlockId)
    requires Reaches(g, entry, b) && FlowEdge(g, b, c)
    ensures Reaches(g, entry, c)
  {
    var p :| FlowPath(g, entry, p) && p[|p| - 1] == b;
    assert FlowPath(g, entry, p + [c]);
  }

  lemma {:induction false} ReachesWithin(g: Graph, entry: BlockId, s: set<BlockId>, p: seq<BlockId>)
    requires FlowPath(g, entry, p)
    requires entry in s
    requires forall b, c :: b in s && FlowEdge(g, b, c) ==> c in s
    ensures p[|p| - 1] in s && p[|p| - 1] in g
  {
    if |p| > 1 {
      var q := p[..|p| - 1];
      assert FlowPath(g, entry, q);
      ReachesWithin(g, entry, s, q);
      assert FlowEdge(g, q[|q| - 1], p[|p| - 1]);
    }
  }

  ghost function ReachableSet(g: Graph, entry: BlockId): set<BlockId> {
    set b | b in g && Reaches(g, entry, b)
  }

  /** The predecessors of one block that are in `keep`, in their order. */
  function Kept(preds: seq<BlockId>, keep: set<BlockId>): (kept: seq<BlockId>)
    ensures forall b :: b in kept <==> b in preds && b in keep
  {
    if preds == [] then []
    else if preds[0] in keep then [preds[0]] + Kept(preds[1..], keep)
    else Kept(preds[1..], keep)
  }

  lemma {:induction false} KeptNothing(preds: seq<BlockId>, keep: set<BlockId>)
    requires forall b :: b in preds ==> b !in keep
    ensures Kept(preds, keep) == []
  {
    if preds != [] {
      var first := preds[0];
      assert first in preds && first !in keep;
      KeptNothing(preds[1..], keep);
    }
  }

  function Restricted(g: Graph, keep: set<BlockId>): Graph {
    map b | b in g && b in keep :: Block(Kept(g[b].preds, keep), g[b].writes)
  }

  ghost function Pruned(g: Graph, entry: BlockId): Graph {
    Restricted(g, ReachableSet(g, entry))
  }

  method ReachableAddressGraph(g: Graph, entry: BlockId) returns (pruned: Graph)
    ensures pruned == Pruned(g, entry)
  {
    var reachable: set<BlockId> := if entry in g then {entry} else {};
    if entry in g {
      ReachesEntry(g, entry);
    }
    while true
      invariant entry in g ==> entry in reachable
      invariant reachable <= ReachableSet(g, entry)
      decreases g.Keys - reachable
    {
      var expanded := reachable + set b | b in g && exists parent :: parent in g[b].preds && parent in reachable;
      forall b | b in expanded ensures b in ReachableSet(g, entry) {
        if b !in reachable {
          var parent :| parent in g[b].preds && parent in reachable;
          ReachesNext(g, entry, parent, b);
        }
      }
      if expanded == reachable {
        break;
      }
      reachable := expanded;
    }
    forall b | Reaches(g, entry, b) ensures b in reachable {
      var p :| FlowPath(g, entry, p) && p[|p| - 1] == b;
      ReachesWithin(g, entry, reachable, p);
    }
    assert reachable == ReachableSet(g, entry);
    pruned := Restricted(g, reachable);
  }
}
