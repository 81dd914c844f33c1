/** What the resolver's answer does not depend on, and where it must answer. */
module AddressFlowProperties {
  import opened Outcomes
  import opened AddressFlow
  import opened ReachableGraph
  import opened AddressFlowSoundness

  // ---------------------------------------------------------------------------------------------
  // Budget.

  /** A smaller set of visited points never changes an answer and never loses one. */
  lemma {:induction false} MonotoneInBudget(g: Graph, block: BlockId, stop: nat, r: Register, small: set<Point>,
        large: set<Point>)
    requires InRange(g, block, stop) && small <= large
    requires Resolve(g, block, stop, r, large).Some?
    ensures Resolve(g, block, stop, r, small) == Resolve(g, block, stop, r, large)
    decreases VISITING_LIMIT - |large|
  {
    Subset(small, large);
    var p := Point(block, stop, r);
    var smaller, larger := small + {p}, large + {p};
    var i := LastWrite(g[block].writes, stop, r);
    if i >= 0 {
      match g[block].writes[i][r] {
        case Constant(_) =>
        case Copy(source) => MonotoneInBudget(g, block, i, source, smaller, larger);
        case Offset(_) => MonotoneInBudget(g, block, i, r, smaller, larger);
        case Address(base, _) => MonotoneInBudget(g, block, i, base, smaller, larger);
        case GotLoad(base, _, _) => MonotoneInBudget(g, block, i, base, smaller, larger);
      }
    } else {
      var v := Resolve(g, block, stop, r, large).value;
      var roots := g[block].preds;
      assert Agreed(g, roots, r, larger, v);
      forall b | InRegion(g, roots, r, b) && WritesRegister(g[b], r) ensures Supplied(g, b, r, smaller) == Some(v) {
        assert Supplied(g, b, r, larger) == Some(v);
        MonotoneInBudget(g, b, LastWrite(g[b].writes, |g[b].writes|, r) + 1, r, smaller, larger);
      }
      assert Agreed(g, roots, r, smaller, v);
      forall w: Word | Agreed(g, roots, r, smaller, w) ensures w == v {
        AgreedUnique(g, roots, r, smaller, v, w);
      }
    }
  }

  lemma Subset<T>(a: set<T>, b: set<T>)
    requires a <= b
    ensures |a| <= |b|
  {
    assert b == a + (b - a);
  }

  // ---------------------------------------------------------------------------------------------
  // Predecessor order.

  ghost predicate SamePredecessors(a: seq<BlockId>, b: seq<BlockId>) {
    forall c :: c in a <==> c in b
  }

  /** Equal graphs up to the order and repetition of predecessors. */
  ghost predicate SameUpToOrder(g: Graph, h: Graph) {
    && g.Keys == h.Keys
    && forall b :: b in g ==> g[b].writes == h[b].writes && SamePredecessors(g[b].preds, h[b].preds)
  }

  lemma SameRegion(g: Graph, h: Graph, rootsG: seq<BlockId>, rootsH: seq<BlockId>, r: Register, b: BlockId)
    requires SameUpToOrder(g, h) && SamePredecessors(rootsG, rootsH)
    requires InRegion(g, rootsG, r, b)
    ensures InRegion(h, rootsH, r, b)
  {
    var p :| RegionPath(g, rootsG, r, p) && p[|p| - 1] == b;
    var first := p[0];
    assert first in rootsH;
    forall i | 0 <= i < |p| - 1 ensures p[i] in h && !WritesRegister(h[p[i]], r) && p[i + 1] in h[p[i]].preds {
      var here, next := p[i], p[i + 1];
      assert here in g && next in g[here].preds;
      assert SamePredecessors(g[here].preds, h[here].preds);
    }
    assert RegionPath(h, rootsH, r, p);
  }

  lemma {:induction false} OrderIndependent(g: Graph, h: Graph, block: BlockId, stop: nat, r: Register,
        visiting: set<Point>)
    requires SameUpToOrder(g, h) && InRange(g, block, stop)
    ensures Resolve(g, block, stop, r, visiting) == Resolve(h, block, stop, r, visiting)
    decreases VISITING_LIMIT - |visiting|
  {
    hide Agreed;
    hide SamePredecessors;
    hide LastWrite;
    var p := Point(block, stop, r);
    if p !in visiting && |visiting| < VISITING_LIMIT && block in g {
      var inner := visiting + {p};
      var i := LastWrite(g[block].writes, stop, r);
      if i >= 0 {
        match g[block].writes[i][r] {
          case Unknown =>
          case Constant(_) =>
          case Copy(source) => OrderIndependent(g, h, block, i, source, inner);
          case Offset(_) => OrderIndependent(g, h, block, i, r, inner);
          case Address(base, _) => OrderIndependent(g, h, block, i, base, inner);
          case GotLoad(base, _, _) => OrderIndependent(g, h, block, i, base, inner);
          case Unrecognised =>
        }
      } else {
        forall b | b in g && WritesRegister(g[b], r) ensures Supplied(g, b, r, inner) == Supplied(h, b, r, inner) {
          OrderIndependent(g, h, b, LastWrite(g[b].writes, |g[b].writes|, r) + 1, r, inner);
        }
        SameAnswer(g, h, block, r, inner);
      }
    }
  }

  /** The choice of an agreed value comes out the same in both graphs. */
  lemma SameAnswer(g: Graph, h: Graph, block: BlockId, r: Register, visiting: set<Point>)
    requires SameUpToOrder(g, h) && block in g
    requires forall b :: b in g && WritesRegister(g[b], r) ==> Supplied(g, b, r, visiting) == Supplied(h, b, r, visiting)
    ensures forall v: Word, w: Word ::
              Agreed(g, g[block].preds, r, visiting, v) && Agreed(h, h[block].preds, r, visiting, w) ==> v == w
    ensures forall v: Word :: Agreed(g, g[block].preds, r, visiting, v) <==> Agreed(h, h[block].preds, r, visiting, v)
  {
    forall v: Word ensures Agreed(g, g[block].preds, r, visiting, v) <==> Agreed(h, h[block].preds, r, visiting, v) {
      if Agreed(g, g[block].preds, r, visiting, v) {
        SameAgreement(g, h, g[block].preds, h[block].preds, r, visiting, v);
      }
      if Agreed(h, h[block].preds, r, visiting, v) {
        SameAgreement(h, g, h[block].preds, g[block].preds, r, visiting, v);
      }
    }
    forall v: Word, w: Word | Agreed(g, g[block].preds, r, visiting, v) && Agreed(g, g[block].preds, r, visiting, w)
      ensures v == w
    {
      AgreedUnique(g, g[block].preds, r, visiting, v, w);
    }
  }

  lemma SameAgreement(g: Graph, h: Graph, rootsG: seq<BlockId>, rootsH: seq<BlockId>, r: Register,
        visiting: set<Point>, v: Word)
    requires SameUpToOrder(g, h) && SamePredecessors(rootsG, rootsH)
    requires forall b :: b in g && WritesRegister(g[b], r) ==> Supplied(g, b, r, visiting) == Supplied(h, b, r, visiting)
    requires Agreed(g, rootsG, r, visiting, v)
    ensures Agreed(h, rootsH, r, visiting, v)
  {
    forall b | InRegion(h, rootsH, r, b) ensures InRegion(g, rootsG, r, b) {
      SameRegion(h, g, rootsH, rootsG, r, b);
    }
    var end :| InRegion(g, rootsG, r, end) && end in g && WritesRegister(g[end], r);
    SameRegion(g, h, rootsG, rootsH, r, end);
    forall b | b in h && g[b].preds != [] ensures h[b].preds != [] {
      var c := g[b].preds[0];
      assert c in g[b].preds && SamePredecessors(g[b].preds, h[b].preds);
    }
  }

  // ---------------------------------------------------------------------------------------------
  // Where the resolver must answer.

  /** In `g` only the entry block writes `r`, and every other block has predecessors, all in the graph. */
  ghost predicate OnlyEntryWrites(g: Graph, entry: BlockId, r: Register) {
    && entry in g && WritesRegister(g[entry], r)
    && (forall b :: b in g && b != entry ==> !WritesRegister(g[b], r) && g[b].preds != [])
    && (forall b, c :: b in g && c in g[b].preds ==> c in g)
  }

  /** Walking back along a path from the entry stays in the region until the entry is met. */
  lemma EntryInRegion(g: Graph, entry: BlockId, r: Register, b: BlockId, p: seq<BlockId>)
    requires OnlyEntryWrites(g, entry, r)
    requires FlowPath(g, entry, p) && p[|p| - 1] == b && b != entry && b in g
    ensures InRegion(g, g[b].preds, r, entry)
  {
    var roots := g[b].preds;
    var i := |p| - 2;
    assert FlowEdge(g, p[i], p[i + 1]);
    var here := p[i];
    RegionRoot(g, roots, r, here);
    while here != entry
      invariant 0 <= i <= |p| - 2 && here == p[i]
      invariant here in g && InRegion(g, roots, r, here)
      decreases i
    {
      assert FlowEdge(g, p[i - 1], p[i]);
      var before := p[i - 1];
      RegionExtend(g, roots, r, here, before);
      i, here := i - 1, before;
    }
  }

  lemma ConstantReaches(g: Graph, entry: BlockId, r: Register, value: Word, b: BlockId)
    requires OnlyEntryWrites(g, entry, r)
    requires var w := g[entry].writes; w[LastWrite(w, |w|, r)][r] == Constant(value)
    requires b != entry && b in g && Reaches(g, entry, b)
    ensures Resolve(g, b, 0, r, {}) == Some(value)
  {
    var path :| FlowPath(g, entry, path) && path[|path| - 1] == b;
    var roots, inner := g[b].preds, {Point(b, 0, r)};
    EntryInRegion(g, entry, r, b, path);
    forall c | InRegion(g, roots, r, c) ensures c in g {
      var p :| RegionPath(g, roots, r, p) && p[|p| - 1] == c;
      RegionWithin(g, roots, r, g.Keys, p);
    }
    assert Supplied(g, entry, r, inner) == Some(value) by {
      var w := g[entry].writes;
      assert WriteValue(g, entry, LastWrite(w, |w|, r), r,
        inner + {Point(entry, LastWrite(w, |w|, r) + 1, r)}) == Some(value);
    }
    assert Agreed(g, roots, r, inner, value);
    forall w: Word | Agreed(g, roots, r, inner, w) ensures w == value {
      AgreedUnique(g, roots, r, inner, value, w);
    }
    assert {} + {Point(b, 0, r)} == inner;
  }

  /** A register that the entry block leaves at a constant and no other reachable block writes
      resolves to that constant at the top of every other reachable block, through any loops. */
  lemma ConstantSurvivesLoops(g: Graph, entry: BlockId, r: Register, value: Word, b: BlockId)
    requires entry in g && b != entry && Reaches(g, entry, b)
    requires WritesRegister(g[entry], r)
    requires var w := g[entry].writes; w[LastWrite(w, |w|, r)][r] == Constant(value)
    requires forall c :: c in g && c != entry && Reaches(g, entry, c) ==> !WritesRegister(g[c], r)
    ensures InRange(Pruned(g, entry), b, 0) && Resolve(Pruned(g, entry), b, 0, r, {}) == Some(value)
  {
    ReachesEntry(g, entry);
    var pruned := Pruned(g, entry);
    forall c | c in pruned && c != entry ensures pruned[c].preds != [] {
      var p :| FlowPath(g, entry, p) && p[|p| - 1] == c;
      PathReaches(g, entry, p, |p| - 2);
      assert FlowEdge(g, p[|p| - 2], p[|p| - 1]);
      var d := p[|p| - 2];
      assert d in pruned[c].preds;
    }
    var p :| FlowPath(g, entry, p) && p[|p| - 1] == b;
    PathInPruned(g, entry, p);
    ConstantReaches(pruned, entry, r, value, b);
  }

  lemma PathReaches(g: Graph, entry: BlockId, p: seq<BlockId>, i: nat)
    requires FlowPath(g, entry, p) && i < |p|
    ensures p[i] in g && Reaches(g, entry, p[i])
  {
    var q := p[..i + 1];
    assert FlowPath(g, entry, q) && q[|q| - 1] == p[i];
    if i > 0 {
      assert FlowEdge(g, p[i - 1], p[i]);
    }
  }

  lemma PathInPruned(g: Graph, entry: BlockId, p: seq<BlockId>)
    requires FlowPath(g, entry, p)
    ensures FlowPath(Pruned(g, entry), entry, p) && p[|p| - 1] in Pruned(g, entry)
  {
    ReachesEntry(g, entry);
    PathReaches(g, entry, p, |p| - 1);
    forall i | 0 < i < |p| ensures FlowEdge(Pruned(g, entry), p[i - 1], p[i]) {
      PathReaches(g, entry, p, i - 1);
      PathReaches(g, entry, p, i);
      assert FlowEdge(g, p[i - 1], p[i]);
    }
  }

  // ---------------------------------------------------------------------------------------------
  // Copy chains inside one block.

  /** The instruction that defines the value of `r` at `stop`, and the register it writes. */
  function ChainEnd(writes: seq<WriteMap>, stop: nat, r: Register): (end: Option<(nat, Register)>)
    requires stop <= |writes|
    ensures end.Some? ==> end.value.0 < stop && end.value.1 in writes[end.value.0]
    ensures end.Some? ==>
      var d := writes[end.value.0][end.value.1]; d.Constant? || d.Address? || d.GotLoad?
  {
    var i := LastWrite(writes, stop, r);
    if i < 0 then None
    else match writes[i][r]
      case Copy(source) => ChainEnd(writes, i, source)
      case Constant(_) => Some((i, r))
      case Address(_, _) => Some((i, r))
      case GotLoad(_, _, _) => Some((i, r))
      case Unknown => None
      case Offset(_) => None
      case Unrecognised => None
  }

  /** A way back through copies: each write is the last one in front of the one before, and all but the end copy. */
  ghost predicate Trail(writes: seq<WriteMap>, stop: nat, r: Register, at: seq<nat>, registers: seq<Register>) {
    && stop <= |writes| && |at| == |registers| > 0
    && registers[0] == r && LastAt(writes, stop, r, at[0])
    && (forall k :: 0 <= k < |at| - 1 ==> NextCopy(writes, at, registers, k))
    && var end := |at| - 1;
    && at[end] < |writes| && registers[end] in writes[at[end]]
    && var d := writes[at[end]][registers[end]];
       d.Constant? || d.Address? || d.GotLoad?
  }

  ghost predicate TrailTo(at: seq<nat>, registers: seq<Register>, i: nat, source: Register) {
    |at| == |registers| > 0 && at[|at| - 1] == i && registers[|at| - 1] == source
  }

  /** Instruction `i` is the last before `stop` that writes `r`. */
  ghost predicate LastAt(writes: seq<WriteMap>, stop: nat, r: Register, i: nat) {
    i < stop <= |writes| && r in writes[i] && forall j :: i < j < stop ==> r !in writes[j]
  }

  ghost predicate NextCopy(writes: seq<WriteMap>, at: seq<nat>, registers: seq<Register>, k: nat)
    requires k + 1 < |at| == |registers|
  {
    && at[k] < |writes| && registers[k] in writes[at[k]]
    && writes[at[k]][registers[k]] == Copy(registers[k + 1])
    && LastAt(writes, at[k], registers[k + 1], at[k + 1])
  }

  lemma LastIsLast(writes: seq<WriteMap>, stop: nat, r: Register, i: nat)
    requires stop <= |writes|
    ensures LastAt(writes, stop, r, i) <==> LastWrite(writes, stop, r) == i
  {}

  /** The end of the chain is where such a way back ends. */
  lemma {:induction false} TrailEnds(writes: seq<WriteMap>, stop: nat, r: Register, at: seq<nat>, registers: seq<Register>)
    requires Trail(writes, stop, r, at, registers)
    ensures ChainEnd(writes, stop, r) == Some((at[|at| - 1], registers[|at| - 1]))
    decreases |at|
  {
    LastIsLast(writes, stop, r, at[0]);
    if |at| > 1 {
      assert NextCopy(writes, at, registers, 0);
      var rest, names := at[1..], registers[1..];
      forall k | 0 <= k < |rest| - 1 ensures NextCopy(writes, rest, names, k) {
        assert NextCopy(writes, at, registers, k + 1);
      }
      TrailEnds(writes, at[0], registers[1], rest, names);
    }
  }

  lemma {:induction false} ChainHasTrail(writes: seq<WriteMap>, stop: nat, r: Register)
    returns (at: seq<nat>, registers: seq<Register>)
    requires stop <= |writes| && ChainEnd(writes, stop, r).Some?
    ensures Trail(writes, stop, r, at, registers)
    decreases stop
  {
    var i := LastWrite(writes, stop, r);
    LastIsLast(writes, stop, r, i);
    if writes[i][r].Copy? {
      var rest, names := ChainHasTrail(writes, i, writes[i][r].source);
      at, registers := [i] + rest, [r] + names;
      forall k | 0 <= k < |at| - 1 ensures NextCopy(writes, at, registers, k) {
        if k > 0 {
          assert NextCopy(writes, rest, names, k - 1);
        }
      }
    } else {
      at, registers := [i], [r];
    }
  }

  /** There is an end exactly if there is a way back. */
  lemma ChainEndExactly(writes: seq<WriteMap>, stop: nat, r: Register, i: nat, source: Register)
    requires stop <= |writes|
    ensures ChainEnd(writes, stop, r) == Some((i, source)) <==>
            exists at, registers :: Trail(writes, stop, r, at, registers) && TrailTo(at, registers, i, source)
  {
    if ChainEnd(writes, stop, r) == Some((i, source)) {
      var at, registers := ChainHasTrail(writes, stop, r);
      TrailEnds(writes, stop, r, at, registers);
    }
    if at, registers :| Trail(writes, stop, r, at, registers) && TrailTo(at, registers, i, source) {
      TrailEnds(writes, stop, r, at, registers);
    }
  }

  method LocalAddressDefinition(writes: seq<WriteMap>, stop: nat, r: Register) returns (result: Option<nat>)
    requires stop <= |writes|
    ensures result.Some? <==> ChainEnd(writes, stop, r).Some?
    ensures result.Some? ==> result.value == ChainEnd(writes, stop, r).value.0
  {
    var register := r;
    var index := stop;
    ghost var bound: nat := stop;
    while index > 0
      invariant 0 <= index <= bound <= stop
      invariant forall j :: index <= j < bound ==> register !in writes[j]
      invariant ChainEnd(writes, bound, register) == ChainEnd(writes, stop, r)
    {
      index := index - 1;
      if register !in writes[index] {
        continue;
      }
      assert index == LastWrite(writes, bound, register);
      match writes[index][register] {
        case Unknown => return None;
        case Copy(source) =>
          register := source;
          bound := index;
        case Constant(_) => return Some(index);
        case Address(_, _) => return Some(index);
        case GotLoad(_, _, _) => return Some(index);
        case Offset(_) => return None;
        case Unrecognised => return None;
      }
    }
    assert LastWrite(writes, bound, register) == -1;
    return None;
  }

  /** The value at `stop` is the one that the returned instruction wrote, carried through the copies. */
  lemma {:induction false} CopyChain(g: Graph, entry: BlockId, t: seq<Config>, n: nat, r: Register)
    requires Run(g, entry, t) && n < |t|
    requires t[n].block in g && t[n].index <= |g[t[n].block].writes|
    requires ChainEnd(g[t[n].block].writes, t[n].index, r).Some?
    ensures var (i, source) := ChainEnd(g[t[n].block].writes, t[n].index, r).value;
            var m := n - (t[n].index - (i + 1));
            && 0 < m <= n && t[m].block == t[n].block && t[m].index == i + 1
            && t[n].regs(r) == t[m].regs(source)
    decreases n
  {
    var writes, stop := g[t[n].block].writes, t[n].index;
    var i := LastWrite(writes, stop, r);
    var j := stop - (i + 1);
    SameBlock(g, entry, t, n, j);
    Untouched(g, entry, t, n, j, r);
    if writes[i][r].Copy? {
      var m := LastWriteStep(g, entry, t, n, r, i);
      SameBlock(g, entry, t, n, j + 1);
      CopyChainStep(g, entry, t, n, r, i);
      CopyChain(g, entry, t, n - (j + 1), writes[i][r].source);
    } else {
      assert n - j > 0 by { SameBlock(g, entry, t, n, j + 1); }
    }
  }

  lemma CopyChainStep(g: Graph, entry: BlockId, t: seq<Config>, n: nat, r: Register, i: nat)
    requires Run(g, entry, t) && n < |t|
    requires t[n].block in g && t[n].index <= |g[t[n].block].writes|
    requires i == LastWrite(g[t[n].block].writes, t[n].index, r)
    requires g[t[n].block].writes[i][r].Copy?
    requires t[n].index - i <= n
    ensures t[n].regs(r) == t[n - (t[n].index - i)].regs(g[t[n].block].writes[i][r].source)
  {
    var j := t[n].index - (i + 1);
    SameBlock(g, entry, t, n, j);
    Untouched(g, entry, t, n, j, r);
    SameBlock(g, entry, t, n, j + 1);
    var m := n - (j + 1);
    assert Moves(g, t[m], t[m + 1]);
    assert Executes(g[t[n].block].writes[i], t[m].regs, t[m + 1].regs);
  }

  /** When the resolver also answers, its answer is the value written at the returned instruction. */
  lemma {:induction false} ChainAgreesWithResolver(g: Graph, block: BlockId, stop: nat, r: Register, visiting: set<Point>)
    requires block in g && stop <= |g[block].writes|
    requires ChainEnd(g[block].writes, stop, r).Some?
    requires Resolve(g, block, stop, r, visiting).Some?
    ensures var (i, source) := ChainEnd(g[block].writes, stop, r).value;
            WriteValue(g, block, i, source, {}) == Resolve(g, block, stop, r, visiting)
    decreases stop
  {
    var writes := g[block].writes;
    var i := LastWrite(writes, stop, r);
    var inner := visiting + {Point(block, stop, r)};
    if writes[i][r].Copy? {
      ChainAgreesWithResolver(g, block, i, writes[i][r].source, inner);
    } else {
      match writes[i][r] {
        case Constant(_) =>
        case Address(base, _) => MonotoneInBudget(g, block, i, base, {}, inner);
        case GotLoad(base, _, _) => MonotoneInBudget(g, block, i, base, {}, inner);
      }
    }
  }
}
