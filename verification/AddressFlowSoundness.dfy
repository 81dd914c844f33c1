/** What an answer of the resolver means for the running program. A run starts at the top of the entry block with any
    register contents, executes the instructions of a block in order and then jumps to any block that lists it as a
    predecessor. An unknown write leaves any 32-bit value. */
module AddressFlowSoundness {
  import opened Outcomes
  import opened AddressFlow
  import opened ReachableGraph

  type Registers = Register -> Word

  datatype Config = Config(block: BlockId, index: nat, regs: Registers)

  /** The values a write may leave in `r` when it executes in state `before`. */
  ghost predicate MayWrite(d: Definition, r: Register, before: Registers, after: Word) {
    match d
    case Unknown => true
    case Constant(value) => after == value
    case Copy(source) => after == before(source)
    case Offset(delta) => after == Wrap(before(r) + delta)
    case Address(base, displacement) => after == Wrap(before(base) + displacement)
    case GotLoad(base, displacement, entries) =>
      var a := Wrap(before(base) + displacement);
      a in entries ==> after == entries[a]
    case Unrecognised => true
  }

  ghost predicate Executes(w: WriteMap, before: Registers, after: Registers) {
    forall r: Register :: if r in w then MayWrite(w[r], r, before, after(r)) else after(r) == before(r)
  }

  ghost predicate Moves(g: Graph, c: Config, d: Config) {
    && c.block in g
    && if c.index < |g[c.block].writes|
       then d.block == c.block && d.index == c.index + 1 && Executes(g[c.block].writes[c.index], c.regs, d.regs)
       else && c.index == |g[c.block].writes|
            && d.index == 0 && d.block in g && c.block in g[d.block].preds && d.regs == c.regs
  }

  ghost predicate Run(g: Graph, entry: BlockId, t: seq<Config>) {
    && |t| > 0
    && entry in g && t[0].block == entry && t[0].index == 0
    && forall i :: 0 <= i < |t| - 1 ==> Moves(g, t[i], t[i + 1])
  }

  /** Every configuration of a run is a real program point. */
  lemma {:induction false} RunInRange(g: Graph, entry: BlockId, t: seq<Config>, n: nat)
    requires Run(g, entry, t) && n < |t|
    ensures t[n].block in g && t[n].index <= |g[t[n].block].writes|
  {
    if n > 0 {
      RunInRange(g, entry, t, n - 1);
      assert Moves(g, t[n - 1], t[(n - 1) + 1]);
    }
  }

  /** Up to `t[n].index` steps back the run is still in the same block. */
  lemma {:induction false} SameBlock(g: Graph, entry: BlockId, t: seq<Config>, n: nat, j: nat)
    requires Run(g, entry, t) && n < |t| && j <= t[n].index
    ensures j <= n && t[n - j].block == t[n].block && t[n - j].index == t[n].index - j
  {
    if j > 0 {
      SameBlock(g, entry, t, n, j - 1);
      var m := n - (j - 1);
      assert m > 0;
      assert Moves(g, t[m - 1], t[(m - 1) + 1]);
    }
  }

  /** A register keeps its value across instructions that do not write it. */
  lemma {:induction false} Untouched(g: Graph, entry: BlockId, t: seq<Config>, n: nat, j: nat, r: Register)
    requires Run(g, entry, t) && n < |t| && j <= t[n].index && j <= n
    requires t[n].block in g && t[n].index <= |g[t[n].block].writes|
    requires forall k :: t[n].index - j <= k < t[n].index ==> r !in g[t[n].block].writes[k]
    ensures t[n - j].regs(r) == t[n].regs(r)
  {
    if j > 0 {
      Untouched(g, entry, t, n, j - 1, r);
      SameBlock(g, entry, t, n, j);
      var m := n - j;
      assert Moves(g, t[m], t[m + 1]);
      assert Executes(g[t[n].block].writes[t[m].index], t[m].regs, t[m + 1].regs);
    }
  }

  lemma AgreedHasRoots(g: Graph, roots: seq<BlockId>, r: Register, visiting: set<Point>, v: Word)
    requires Agreed(g, roots, r, visiting, v)
    ensures roots != []
  {
    var b :| InRegion(g, roots, r, b);
    var p :| RegionPath(g, roots, r, p) && p[|p| - 1] == b;
  }

  /** The step that last wrote `r`: from the configuration before it to the current value. */
  lemma LastWriteStep(g: Graph, entry: BlockId, t: seq<Config>, n: nat, r: Register, i: nat) returns (m: nat)
    requires Run(g, entry, t) && n < |t|
    requires t[n].block in g && t[n].index <= |g[t[n].block].writes|
    requires i == LastWrite(g[t[n].block].writes, t[n].index, r)
    ensures m < n && t[m].block == t[n].block && t[m].index == i
    ensures MayWrite(g[t[n].block].writes[i][r], r, t[m].regs, t[n].regs(r))
  {
    var j := t[n].index - (i + 1);
    SameBlock(g, entry, t, n, j);
    Untouched(g, entry, t, n, j, r);
    SameBlock(g, entry, t, n, j + 1);
    m := n - (j + 1);
    assert Moves(g, t[m], t[m + 1]);
    assert Executes(g[t[n].block].writes[i], t[m].regs, t[m + 1].regs);
  }

  /** Soundness on a graph whose entry block has no predecessor, at the n-th configuration of a run. */
  lemma {:induction false} SoundAt(g: Graph, entry: BlockId, t: seq<Config>, n: nat, r: Register,
        visiting: set<Point>, v: Word)
    requires Run(g, entry, t) && n < |t| && g[entry].preds == []
    requires InRange(g, t[n].block, t[n].index)
    requires Resolve(g, t[n].block, t[n].index, r, visiting) == Some(v)
    ensures t[n].regs(r) == v
    decreases n, 2
  {
    RunInRange(g, entry, t, n);
    var block, stop := t[n].block, t[n].index;
    var inner := visiting + {Point(block, stop, r)};
    var i := LastWrite(g[block].writes, stop, r);
    if i >= 0 {
      SoundWrite(g, entry, t, n, r, i, inner, v);
    } else {
      assert Agreed(g, g[block].preds, r, inner, v);
      AgreedHasRoots(g, g[block].preds, r, inner, v);
      SameBlock(g, entry, t, n, stop);
      Untouched(g, entry, t, n, stop, r);
      var m := n - stop;
      if m == 0 {
        assert false;
      } else {
        assert Moves(g, t[m - 1], t[(m - 1) + 1]);
        RegionRoot(g, g[block].preds, r, t[m - 1].block);
        SoundInRegion(g, entry, t, m - 1, r, g[block].preds, inner, v);
      }
    }
  }

  /** The value that the instruction at `i`, the last one to write `r`, leaves behind. */
  lemma {:induction false} SoundWrite(g: Graph, entry: BlockId, t: seq<Config>, n: nat, r: Register, i: nat,
                                      inner: set<Point>, v: Word)
    requires Run(g, entry, t) && n < |t| && g[entry].preds == []
    requires t[n].block in g && t[n].index <= |g[t[n].block].writes|
    requires i == LastWrite(g[t[n].block].writes, t[n].index, r)
    requires WriteValue(g, t[n].block, i, r, inner) == Some(v)
    ensures t[n].regs(r) == v
    decreases n, 0
  {
    var block := t[n].block;
    var m := LastWriteStep(g, entry, t, n, r, i);
    match g[block].writes[i][r] {
      case Constant(value) =>
      case Copy(source) => SoundAt(g, entry, t, m, source, inner, v);
      case Offset(delta) => SoundAt(g, entry, t, m, r, inner, Resolve(g, block, i, r, inner).value);
      case Address(base, _) => SoundAt(g, entry, t, m, base, inner, Resolve(g, block, i, base, inner).value);
      case GotLoad(base, _, _) => SoundAt(g, entry, t, m, base, inner, Resolve(g, block, i, base, inner).value);
    }
  }

  /** The same at the end of any block of the no-definition region. */
  lemma {:induction false} SoundInRegion(g: Graph, entry: BlockId, t: seq<Config>, n: nat, r: Register,
                                         roots: seq<BlockId>, visiting: set<Point>, v: Word)
    requires Run(g, entry, t) && n < |t| && g[entry].preds == []
    requires t[n].block in g && t[n].index == |g[t[n].block].writes|
    requires InRegion(g, roots, r, t[n].block) && Agreed(g, roots, r, visiting, v)
    ensures t[n].regs(r) == v
    decreases n, 3
  {
    var block, stop := t[n].block, t[n].index;
    var writes := g[block].writes;
    var i := LastWrite(writes, stop, r);
    var j := if i >= 0 then stop - (i + 1) else stop;
    SameBlock(g, entry, t, n, j);
    Untouched(g, entry, t, n, j, r);
    if i >= 0 {
      assert Supplied(g, block, r, visiting) == Some(v);
      SoundAt(g, entry, t, n - j, r, visiting, v);
    } else {
      var m := n - j;
      assert m > 0;
      assert Moves(g, t[m - 1], t[(m - 1) + 1]);
      RegionExtend(g, roots, r, block, t[m - 1].block);
      SoundInRegion(g, entry, t, m - 1, r, roots, visiting, v);
    }
  }

  // ---------------------------------------------------------------------------------------------
  // Pruning loses no run.

  lemma {:induction false} RunReaches(g: Graph, entry: BlockId, t: seq<Config>, n: nat)
    requires Run(g, entry, t) && n < |t|
    ensures t[n].block in g && Reaches(g, entry, t[n].block)
  {
    if n == 0 {
      ReachesEntry(g, entry);
    } else {
      RunReaches(g, entry, t, n - 1);
      RunInRange(g, entry, t, n);
      var c := t[n - 1];
      assert Moves(g, c, t[(n - 1) + 1]);
      if c.index == |g[c.block].writes| {
        ReachesNext(g, entry, c.block, t[n].block);
      }
    }
  }

  lemma PrunedRun(g: Graph, entry: BlockId, t: seq<Config>)
    requires Run(g, entry, t)
    ensures Run(Pruned(g, entry), entry, t)
  {
    var pruned := Pruned(g, entry);
    RunReaches(g, entry, t, 0);
    forall i | 0 <= i < |t| - 1 ensures Moves(pruned, t[i], t[i + 1]) {
      RunReaches(g, entry, t, i);
      RunReaches(g, entry, t, i + 1);
      assert Moves(g, t[i], t[i + 1]);
    }
  }

  // ---------------------------------------------------------------------------------------------
  // Main results.

  /** No block that the entry reaches jumps back to the entry. */
  ghost predicate EntryIsNoLoopHeader(g: Graph, entry: BlockId) {
    entry in g ==> forall b :: b in g[entry].preds ==> !(b in g && Reaches(g, entry, b))
  }

  /** Whatever the resolver answers on the pruned graph holds in every run of the whole graph. */
  ghost predicate Sound(g: Graph, entry: BlockId) {
    forall t: seq<Config>, r: Register, visiting: set<Point>, v: Word ::
      Run(g, entry, t) && Answers(Pruned(g, entry), Last(t), r, visiting, v) ==> Last(t).regs(r) == v
  }

  ghost function Last(t: seq<Config>): Config
    requires |t| > 0
  {
    t[|t| - 1]
  }

  ghost predicate Answers(g: Graph, c: Config, r: Register, visiting: set<Point>, v: Word) {
    InRange(g, c.block, c.index) && Resolve(g, c.block, c.index, r, visiting) == Some(v)
  }

  lemma ResolverSound(g: Graph, entry: BlockId)
    requires EntryIsNoLoopHeader(g, entry)
    ensures Sound(g, entry)
  {
    var pruned := Pruned(g, entry);
    forall t: seq<Config>, r: Register, visiting: set<Point>, v: Word |
      Run(g, entry, t) && Answers(pruned, Last(t), r, visiting, v)
      ensures Last(t).regs(r) == v
    {
      PrunedRun(g, entry, t);
      KeptNothing(g[entry].preds, ReachableSet(g, entry));
      ReachesEntry(g, entry);
      SoundAt(pruned, entry, t, |t| - 1, r, visiting, v);
    }
  }

  /** The control-flow graph `shape` with the write maps `writes`. */
  ghost function Annotated(shape: map<BlockId, seq<BlockId>>, writes: map<BlockId, seq<WriteMap>>): Graph {
    map b | b in shape :: Block(shape[b], if b in writes then writes[b] else [])
  }

  /** The exact condition.  A control-flow graph is safe for all write maps if and only if the entry
      block is not reached again: when it is a loop header, the walk from its top sees only the back
      edges and never the first arrival. */
  lemma SoundExactlyWhenEntryIsNoLoopHeader(shape: map<BlockId, seq<BlockId>>, entry: BlockId)
    ensures (forall writes :: Sound(Annotated(shape, writes), entry))
       <==> EntryIsNoLoopHeader(Annotated(shape, map[]), entry)
  {
    var bare := Annotated(shape, map[]);
    if EntryIsNoLoopHeader(bare, entry) {
      forall writes ensures Sound(Annotated(shape, writes), entry) {
        forall b | Reaches(Annotated(shape, writes), entry, b) ensures Reaches(bare, entry, b) {
          SameFlow(Annotated(shape, writes), bare, entry, b);
        }
        ResolverSound(Annotated(shape, writes), entry);
      }
    } else {
      var b :| b in shape[entry] && b in shape && Reaches(bare, entry, b);
      var writes := map c | c in shape :: [map[0 := Constant(7)]];
      SameFlow(bare, Annotated(shape, writes), entry, b);
      LoopHeaderUnsound(Annotated(shape, writes), entry, b);
      assert !Sound(Annotated(shape, writes), entry);
    }
  }

  lemma SameFlow(g: Graph, h: Graph, entry: BlockId, b: BlockId)
    requires g.Keys == h.Keys && forall c :: c in g ==> g[c].preds == h[c].preds
    requires Reaches(g, entry, b)
    ensures Reaches(h, entry, b)
  {
    var p :| FlowPath(g, entry, p) && p[|p| - 1] == b;
    forall i | 0 < i < |p| ensures FlowEdge(h, p[i - 1], p[i]) {
      assert FlowEdge(g, p[i - 1], p[i]);
    }
    assert FlowPath(h, entry, p);
  }

  /** Every block, the looping entry included, sets register 0 to 7; the first arrival has not. */
  lemma LoopHeaderUnsound(g: Graph, entry: BlockId, back: BlockId)
    requires entry in g && back in g && back in g[entry].preds && Reaches(g, entry, back)
    requires forall b :: b in g ==> g[b].writes == [map[0 := Constant(7)]]
    ensures !Sound(g, entry)
  {
    var pruned := Pruned(g, entry);
    ReachesEntry(g, entry);
    var t := [Config(entry, 0, r => 0)];
    assert Run(g, entry, t);
    var inner := {Point(entry, 0, 0)};
    var roots := pruned[entry].preds;
    assert back in roots;
    AllBlocksSupply(pruned, roots, back, inner);
    forall w: Word | Agreed(pruned, roots, 0, inner, w) ensures w == 7 {
      AgreedUnique(pruned, roots, 0, inner, 7, w);
    }
    assert {} + {Point(entry, 0, 0)} == inner;
    assert Resolve(pruned, entry, 0, 0, {}) == Some(7);
    assert Answers(pruned, Last(t), 0, {}, 7);
  }

  lemma AllBlocksSupply(g: Graph, roots: seq<BlockId>, back: BlockId, visiting: set<Point>)
    requires back in roots && forall b :: b in roots ==> b in g
    requires forall b :: b in g ==> g[b].writes == [map[0 := Constant(7)]]
    requires |visiting| < VISITING_LIMIT && forall b :: Point(b, 1, 0) !in visiting
    ensures Agreed(g, roots, 0, visiting, 7)
  {
    RegionRoot(g, roots, 0, back);
    forall b | b in g
      ensures WritesRegister(g[b], 0)
      ensures Supplied(g, b, 0, visiting) == Some(7)
    {
      assert 0 in g[b].writes[0];
      assert LastWrite(g[b].writes, 1, 0) == 0;
      assert Point(b, 1, 0) !in visiting;
      assert WriteValue(g, b, 0, 0, visiting + {Point(b, 1, 0)}) == Some(7);
    }
    forall b | InRegion(g, roots, 0, b) ensures b in g {
      var p :| RegionPath(g, roots, 0, p) && p[|p| - 1] == b;
      var first := p[0];
      assert first in roots && first in g;
      assert |p| == 1;
    }
  }
}
