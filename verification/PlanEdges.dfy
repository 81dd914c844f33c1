/** How the planner derives dependency edges from declared artifacts and prerequisites. */
module PlanEdges {
  import opened Outcomes
  import opened PlanTypes

  /** A declared skill on one binary; outputs and inputs are artifact paths. */
  datatype PlanNode = PlanNode(
    node: Node,
    skill: string,
    requiredInputs: seq<string>,
    optionalInputs: seq<string>,
    outputs: seq<string>,
    prerequisites: seq<string>)

  datatype EdgeKind = Artifact | OptionalInput | Prerequisite

  datatype PlanEdge = PlanEdge(edge: Edge, kind: EdgeKind, path: string)

  datatype EdgeError =
    | CaseCollision(first: string, second: string)
    | DuplicateProducer(path: string)
    | MissingArtifact(id: NodeId, path: string)
    | MissingPrerequisite(id: NodeId, skill: string)

  /** Case folding of paths, and which artifact files exist already; both come from outside the planner. */
  datatype World = World(fold: string -> string, present: string -> bool, validate: bool)

  // Producers

  datatype Output = Output(node: Node, path: string)

  function OutputsOf(n: PlanNode): (r: seq<Output>)
    ensures |r| == |n.outputs|
  {
    seq(|n.outputs|, k requires 0 <= k < |n.outputs| => Output(n.node, n.outputs[k]))
  }

  function AllOutputs(nodes: seq<PlanNode>): seq<Output> {
    if nodes == [] then [] else AllOutputs(nodes[..|nodes| - 1]) + OutputsOf(nodes[|nodes| - 1])
  }

  /** No two outputs have paths that fold to the same text, on whatever platforms. */
  ghost predicate OneProducerEach(outputs: seq<Output>, w: World) {
    forall i, j :: 0 <= i < j < |outputs| ==> w.fold(outputs[i].path) != w.fold(outputs[j].path)
  }

  type Key = (string, string)

  function KeyOf(o: Output, w: World): Key {
    (o.node.binary.platform, w.fold(o.path))
  }

  ghost predicate Produces(outputs: seq<Output>, w: World, key: Key, id: NodeId) {
    exists k :: 0 <= k < |outputs| && KeyOf(outputs[k], w) == key && outputs[k].node.id == id
  }

  /** The indices hold exactly the outputs. */
  ghost predicate Registered(outputs: seq<Output>, w: World, producers: map<Key, NodeId>, spellings: map<string, string>) {
    && OneProducerEach(outputs, w)
    && (forall key, id :: Produces(outputs, w, key, id) <==> key in producers && producers[key] == id)
    && (forall k :: 0 <= k < |outputs| ==> w.fold(outputs[k].path) in spellings)
    && (forall f :: f in spellings ==> exists k :: 0 <= k < |outputs| && w.fold(outputs[k].path) == f)
  }

  /** The index answers who produces what. */
  ghost predicate Indexed(nodes: seq<PlanNode>, w: World, producers: map<Key, NodeId>) {
    forall key, id :: Produces(AllOutputs(nodes), w, key, id) <==> key in producers && producers[key] == id
  }

  lemma RegisterOne(outputs: seq<Output>, o: Output, w: World, producers: map<Key, NodeId>, spellings: map<string, string>)
    requires Registered(outputs, w, producers, spellings) && w.fold(o.path) !in spellings
    ensures Registered(outputs + [o], w, producers[KeyOf(o, w) := o.node.id], spellings[w.fold(o.path) := o.path])
  {
    var more, p, s := outputs + [o], producers[KeyOf(o, w) := o.node.id], spellings[w.fold(o.path) := o.path];
    forall key, id
      ensures Produces(more, w, key, id) <==> key in p && p[key] == id
    {
      if Produces(outputs, w, key, id) {
        var k :| 0 <= k < |outputs| && KeyOf(outputs[k], w) == key && outputs[k].node.id == id;
        assert more[k] == outputs[k];
      }
      if key == KeyOf(o, w) {
        assert more[|outputs|] == o;
      }
    }
    forall f | f in s
      ensures exists k :: 0 <= k < |more| && w.fold(more[k].path) == f
    {
      if f == w.fold(o.path) {
        assert more[|outputs|] == o;
      } else {
        var k :| 0 <= k < |outputs| && w.fold(outputs[k].path) == f;
        assert more[k] == outputs[k];
      }
    }
  }

  lemma SecondProducer(outputs: seq<Output>, i: nat, j: nat, w: World)
    requires i < j < |outputs| && w.fold(outputs[i].path) == w.fold(outputs[j].path)
    ensures !OneProducerEach(outputs, w)
  {}

  lemma {:induction false} AllOutputsPrefix(nodes: seq<PlanNode>, i: nat, j: nat)
    requires i < |nodes| && j < |nodes[i].outputs|
    ensures |AllOutputs(nodes[..i])| + j < |AllOutputs(nodes)|
    ensures AllOutputs(nodes)[|AllOutputs(nodes[..i])| + j] == Output(nodes[i].node, nodes[i].outputs[j])
    ensures AllOutputs(nodes[..i]) <= AllOutputs(nodes)
  {
    var front := nodes[..|nodes| - 1];
    if i < |front| {
      AllOutputsPrefix(front, i, j);
      assert front[..i] == nodes[..i];
    }
  }

  lemma OutputsSoFar(nodes: seq<PlanNode>, i: nat)
    requires i < |nodes|
    ensures AllOutputs(nodes[..i + 1]) == AllOutputs(nodes[..i]) + OutputsOf(nodes[i])
  {
    assert nodes[..i + 1][..i] == nodes[..i];
  }

  /** The collision of output `j` of node `i` with an earlier one is a collision among all outputs. */
  lemma Collides(nodes: seq<PlanNode>, i: nat, j: nat, w: World, k: nat)
    requires i < |nodes| && j < |nodes[i].outputs|
    requires var seen := AllOutputs(nodes[..i]) + OutputsOf(nodes[i])[..j];
             k < |seen| && w.fold(seen[k].path) == w.fold(nodes[i].outputs[j])
    ensures !OneProducerEach(AllOutputs(nodes), w)
  {
    var before := |AllOutputs(nodes[..i])|;
    AllOutputsPrefix(nodes, i, j);
    if k >= before {
      AllOutputsPrefix(nodes, i, k - before);
    }
    SecondProducer(AllOutputs(nodes), k, before + j, w);
  }

  lemma NothingRegistered(w: World)
    ensures Registered([], w, map[], map[])
  {}

  method IndexProducers(nodes: seq<PlanNode>, w: World) returns (r: Result<map<Key, NodeId>, EdgeError>)
    ensures r.Ok? <==> OneProducerEach(AllOutputs(nodes), w)
    ensures r.Ok? ==> Indexed(nodes, w, r.value)
  {
    hide OneProducerEach;
    hide Produces;
    var producers: map<Key, NodeId>, spellings: map<string, string> := map[], map[];
    NothingRegistered(w);
    assert AllOutputs(nodes[..0]) == [];
    for i := 0 to |nodes|
      invariant Registered(AllOutputs(nodes[..i]), w, producers, spellings)
    {
      hide Registered;
      hide AllOutputs;
      ghost var before, own := AllOutputs(nodes[..i]), OutputsOf(nodes[i]);
      assert before + own[..0] == before;
      for j := 0 to |nodes[i].outputs|
        invariant Registered(before + own[..j], w, producers, spellings)
      {
        var path := nodes[i].outputs[j];
        var folded := w.fold(path);
        if folded in spellings {
          ghost var k := AlreadyThere(before + own[..j], w, producers, spellings, folded);
          Collides(nodes, i, j, w, k);
          if spellings[folded] != path {
            return Err(CaseCollision(spellings[folded], path));
          }
          return Err(DuplicateProducer(path));
        }
        RegisterOne(before + own[..j], Output(nodes[i].node, path), w, producers, spellings);
        OneMoreOutput(before, own, j);
        spellings := spellings[folded := path];
        producers := producers[(nodes[i].node.binary.platform, folded) := nodes[i].node.id];
      }
      assert own[..|nodes[i].outputs|] == own;
      OutputsSoFar(nodes, i);
    }
    assert nodes[..|nodes|] == nodes;
    return Ok(producers);
  }

  lemma OneMoreOutput(before: seq<Output>, own: seq<Output>, j: nat)
    requires j < |own|
    ensures before + own[..j] + [own[j]] == before + own[..j + 1]
  {}

  lemma AlreadyThere(outputs: seq<Output>, w: World, producers: map<Key, NodeId>, spellings: map<string, string>, folded: string)
    returns (k: nat)
    requires Registered(outputs, w, producers, spellings) && folded in spellings
    ensures k < |outputs| && w.fold(outputs[k].path) == folded
  {
    k :| k < |outputs| && w.fold(outputs[k].path) == folded;
  }

  // Edges

  /** `p` writes an artifact that `n` reads, on the same platform. */
  ghost predicate Feeds(nodes: seq<PlanNode>, w: World, source: NodeId, n: PlanNode, path: string) {
    Produces(AllOutputs(nodes), w, (n.node.binary.platform, w.fold(path)), source)
  }

  ghost predicate IsSkill(p: PlanNode, n: PlanNode, skill: string) {
    p.node.binary == n.node.binary && p.skill == skill
  }

  /** The binary of `n` declares the skill under this id. */
  ghost predicate Declares(nodes: seq<PlanNode>, n: PlanNode, skill: string, id: NodeId) {
    exists p :: p in nodes && IsSkill(p, n, skill) && p.node.id == id
  }

  /** The planner's reasons for an edge into `n`. */
  ghost predicate Reason(nodes: seq<PlanNode>, w: World, n: PlanNode, e: PlanEdge) {
    && e.edge.target == n.node.id
    && match e.kind
       case Artifact => e.path in n.requiredInputs && Feeds(nodes, w, e.edge.source, n, e.path)
       case OptionalInput => e.path in n.optionalInputs && Feeds(nodes, w, e.edge.source, n, e.path)
       case Prerequisite => e.path in n.prerequisites && Declares(nodes, n, e.path, e.edge.source)
  }

  /** Every required input is produced, or is not checked, or its file exists. */
  ghost predicate InputsPresent(nodes: seq<PlanNode>, w: World, n: PlanNode) {
    forall path :: path in n.requiredInputs ==> (exists id :: Feeds(nodes, w, id, n, path)) || !w.validate || w.present(path)
  }

  ghost predicate Declared(nodes: seq<PlanNode>, n: PlanNode, skill: string) {
    exists id :: Declares(nodes, n, skill, id)
  }

  ghost predicate PrerequisitesDeclared(nodes: seq<PlanNode>, n: PlanNode) {
    forall skill :: skill in n.prerequisites ==> Declared(nodes, n, skill)
  }

  /** Nothing that the node needs is missing. */
  ghost predicate Satisfied(nodes: seq<PlanNode>, w: World, n: PlanNode) {
    InputsPresent(nodes, w, n) && PrerequisitesDeclared(nodes, n)
  }

  /** A binary declares each skill once, since ids are composed from both and are unique. */
  ghost predicate SkillsDistinct(nodes: seq<PlanNode>) {
    forall p, q :: p in nodes && q in nodes && IsSkill(p, q, q.skill) ==> p == q
  }

  /** Some node of `done` has a reason for the edge. */
  ghost predicate Reasoned(nodes: seq<PlanNode>, w: World, done: seq<PlanNode>, e: PlanEdge) {
    exists n :: n in done && Reason(nodes, w, n, e)
  }

  lemma ReasonedOne(nodes: seq<PlanNode>, w: World, done: seq<PlanNode>, n: PlanNode, e: PlanEdge)
    ensures Reasoned(nodes, w, done + [n], e) <==> Reasoned(nodes, w, done, e) || Reason(nodes, w, n, e)
  {
    hide Reason;
    if Reasoned(nodes, w, done, e) {
      var p :| p in done && Reason(nodes, w, p, e);
      assert p in done + [n];
    }
    assert n in done + [n];
  }

  method InputEdges(nodes: seq<PlanNode>, w: World, producers: map<Key, NodeId>, n: PlanNode, required: bool)
    returns (r: Result<seq<PlanEdge>, EdgeError>)
    requires Indexed(nodes, w, producers)
    ensures r.Ok? <==> (required ==> InputsPresent(nodes, w, n))
    ensures r.Ok? ==> forall e :: e in r.value <==>
              e.kind == (if required then Artifact else OptionalInput) && Reason(nodes, w, n, e)
  {
    var inputs := if required then n.requiredInputs else n.optionalInputs;
    var kind := if required then Artifact else OptionalInput;
    var edges: seq<PlanEdge> := [];
    for i := 0 to |inputs|
      invariant forall k :: 0 <= k < i && required ==>
                  (exists id :: Feeds(nodes, w, id, n, inputs[k])) || !w.validate || w.present(inputs[k])
      invariant forall e :: e in edges <==>
                  e.kind == kind && e.edge.target == n.node.id && e.path in inputs[..i] && Feeds(nodes, w, e.edge.source, n, e.path)
    {
      hide AllOutputs;
      hide Produces;
      var key := (n.node.binary.platform, w.fold(inputs[i]));
      assert inputs[..i + 1] == inputs[..i] + [inputs[i]];
      if key in producers {
        assert Produces(AllOutputs(nodes), w, key, producers[key]);
        assert Feeds(nodes, w, producers[key], n, inputs[i]);
        edges := edges + [PlanEdge(Edge(producers[key], n.node.id), kind, inputs[i])];
      } else {
        assert forall id :: !Feeds(nodes, w, id, n, inputs[i]);
        if required && w.validate && !w.present(inputs[i]) {
          assert inputs[i] in n.requiredInputs;
          return Err(MissingArtifact(n.node.id, inputs[i]));
        }
      }
    }
    assert inputs[..|inputs|] == inputs;
    return Ok(edges);
  }

  ghost predicate SkillIndex(nodes: seq<PlanNode>, n: PlanNode, skills: map<string, NodeId>) {
    forall skill, id :: Declares(nodes, n, skill, id) <==> skill in skills && skills[skill] == id
  }

  lemma SkillStep(nodes: seq<PlanNode>, p: PlanNode, n: PlanNode, skills: map<string, NodeId>)
    requires SkillIndex(nodes, n, skills)
    requires forall q :: q in nodes && IsSkill(q, n, p.skill) && p.node.binary == n.node.binary ==> q == p
    ensures SkillIndex(nodes + [p], n, if p.node.binary == n.node.binary then skills[p.skill := p.node.id] else skills)
  {
    var more := if p.node.binary == n.node.binary then skills[p.skill := p.node.id] else skills;
    forall skill, id
      ensures Declares(nodes + [p], n, skill, id) <==> skill in more && more[skill] == id
    {
      assert Declares(nodes + [p], n, skill, id) <==> Declares(nodes, n, skill, id) || (IsSkill(p, n, skill) && p.node.id == id) by {
        if Declares(nodes, n, skill, id) {
          var q :| q in nodes && IsSkill(q, n, skill) && q.node.id == id;
          assert q in nodes + [p];
        }
        assert p in nodes + [p];
      }
    }
  }

  /** The ids of a binary's skills. */
  method ModuleSkills(nodes: seq<PlanNode>, n: PlanNode) returns (skills: map<string, NodeId>)
    requires SkillsDistinct(nodes)
    ensures SkillIndex(nodes, n, skills)
  {
    skills := map[];
    for i := 0 to |nodes|
      invariant SkillIndex(nodes[..i], n, skills)
    {
      var p := nodes[i];
      assert nodes[..i + 1] == nodes[..i] + [p];
      forall q | q in nodes[..i] && IsSkill(q, n, p.skill) && p.node.binary == n.node.binary
        ensures q == p
      {
        assert q in nodes && p in nodes && IsSkill(q, p, p.skill);
      }
      SkillStep(nodes[..i], p, n, skills);
      if p.node.binary == n.node.binary {
        skills := skills[p.skill := p.node.id];
      }
    }
    assert nodes[..|nodes|] == nodes;
  }

  method PrerequisiteEdges(nodes: seq<PlanNode>, ghost w: World, n: PlanNode) returns (r: Result<seq<PlanEdge>, EdgeError>)
    requires SkillsDistinct(nodes)
    ensures r.Ok? <==> PrerequisitesDeclared(nodes, n)
    ensures r.Ok? ==> forall e :: e in r.value <==> e.kind == Prerequisite && Reason(nodes, w, n, e)
  {
    var skills := ModuleSkills(nodes, n);
    hide Declares;
    var edges: seq<PlanEdge> := [];
    for i := 0 to |n.prerequisites|
      invariant forall k :: 0 <= k < i ==> Declared(nodes, n, n.prerequisites[k])
      invariant forall e :: e in edges <==>
                  e.kind == Prerequisite && e.edge.target == n.node.id && e.path in n.prerequisites[..i]
                  && Declares(nodes, n, e.path, e.edge.source)
    {
      var skill := n.prerequisites[i];
      assert n.prerequisites[..i + 1] == n.prerequisites[..i] + [skill];
      if skill !in skills {
        assert !Declared(nodes, n, skill) && skill in n.prerequisites;
        return Err(MissingPrerequisite(n.node.id, skill));
      }
      assert Declares(nodes, n, skill, skills[skill]);
      edges := edges + [PlanEdge(Edge(skills[skill], n.node.id), Prerequisite, skill)];
    }
    assert n.prerequisites[..|n.prerequisites|] == n.prerequisites;
    return Ok(edges);
  }

  /** The edges are exactly those that some node has a reason for. */
  method BuildEdges(nodes: seq<PlanNode>, w: World) returns (r: Result<seq<PlanEdge>, EdgeError>)
    requires SkillsDistinct(nodes)
    ensures r.Ok? <==> OneProducerEach(AllOutputs(nodes), w) && forall n :: n in nodes ==> Satisfied(nodes, w, n)
    ensures r.Ok? ==> forall e :: e in r.value <==> Reasoned(nodes, w, nodes, e)
  {
    hide OneProducerEach;
    hide InputsPresent;
    hide PrerequisitesDeclared;
    hide SkillsDistinct;
    hide Reason;
    hide AllOutputs;
    hide Indexed;
    var producers := IndexProducers(nodes, w);
    if producers.Err? {
      return Err(producers.error);
    }
    var edges: seq<PlanEdge> := [];
    for i := 0 to |nodes|
      invariant forall k :: 0 <= k < i ==> Satisfied(nodes, w, nodes[k])
      invariant forall e :: e in edges <==> Reasoned(nodes, w, nodes[..i], e)
    {
      hide Reasoned;
      var n := nodes[i];
      var required := InputEdges(nodes, w, producers.value, n, true);
      if required.Err? {
        assert !Satisfied(nodes, w, n);
        return Err(required.error);
      }
      var optional := InputEdges(nodes, w, producers.value, n, false);
      var prerequisites := PrerequisiteEdges(nodes, w, n);
      if prerequisites.Err? {
        assert !Satisfied(nodes, w, n);
        return Err(prerequisites.error);
      }
      ghost var before := edges;
      edges := edges + required.value + optional.value + prerequisites.value;
      assert nodes[..i + 1] == nodes[..i] + [n];
      forall e
        ensures e in edges <==> Reasoned(nodes, w, nodes[..i + 1], e)
      {
        ReasonedOne(nodes, w, nodes[..i], n, e);
        assert e in edges <==> e in before || e in required.value || e in optional.value || e in prerequisites.value;
      }
    }
    assert nodes[..|nodes|] == nodes;
    return Ok(edges);
  }

  // Consequences for the schedule

  /** Every edge joins declared nodes of one platform; a prerequisite edge stays inside one binary. */
  lemma EdgesStayOnPlatform(nodes: seq<PlanNode>, w: World, e: PlanEdge)
    requires Reasoned(nodes, w, nodes, e)
    ensures exists p, n ::
      && p in nodes && n in nodes && p.node.id == e.edge.source && n.node.id == e.edge.target
      && p.node.binary.platform == n.node.binary.platform
      && (e.kind == Prerequisite ==> p.node.binary == n.node.binary)
  {
    var n :| n in nodes && Reason(nodes, w, n, e);
    if e.kind == Prerequisite {
      var p :| p in nodes && IsSkill(p, n, e.path) && p.node.id == e.edge.source;
    } else {
      var outputs := AllOutputs(nodes);
      var k :| 0 <= k < |outputs| && KeyOf(outputs[k], w) == (n.node.binary.platform, w.fold(e.path))
               && outputs[k].node.id == e.edge.source;
      var p := OutputOwner(nodes, k);
    }
  }

  lemma {:induction false} OutputOwner(nodes: seq<PlanNode>, k: nat) returns (p: PlanNode)
    requires k < |AllOutputs(nodes)|
    ensures p in nodes && p.node == AllOutputs(nodes)[k].node && AllOutputs(nodes)[k].path in p.outputs
  {
    var front := nodes[..|nodes| - 1];
    if k < |AllOutputs(front)| {
      p := OutputOwner(front, k);
    } else {
      p := nodes[|nodes| - 1];
    }
  }
}
