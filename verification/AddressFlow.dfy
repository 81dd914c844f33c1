/** The backward reaching-value resolver of `ida_analyze_util.py`: which 32-bit value does a register provably hold at
    one program point of a control-flow graph? Blocks carry one write map per instruction; the writes of one instruction
    happen at once and read the state before it. */
module AddressFlow {
  import opened Outcomes

  const WORD_LIMIT: int := 0x1_0000_0000

  type Word = x: int | 0 <= x < WORD_LIMIT

  type BlockId = int

  type Register = int

  datatype Definition =
    | Unknown
    | Constant(value: Word)
    | Copy(source: Register)
    | Offset(delta: int)
    | Address(base: Register, displacement: int)
    | GotLoad(base: Register, displacement: int, entries: map<Word, Word>)
    | Unrecognised

  type WriteMap = map<Register, Definition>

  datatype Block = Block(preds: seq<BlockId>, writes: seq<WriteMap>)

  type Graph = map<BlockId, Block>

  datatype Point = Point(block: BlockId, stop: nat, register: Register)

  const VISITING_LIMIT: nat := 128

  function Wrap(x: int): Word {
    x % WORD_LIMIT
  }

  /** `stop` is a position in the block's instruction list (a block outside the graph has none). */
  predicate InRange(g: Graph, block: BlockId, stop: nat) {
    block in g ==> stop <= |g[block].writes|
  }

  /** The last instruction before `stop` that writes `r`, or -1. */
  function LastWrite(writes: seq<WriteMap>, stop: nat, r: Register): (i: int)
    requires stop <= |writes|
    ensures -1 <= i < stop
    ensures i >= 0 ==> r in writes[i]
    ensures forall j :: i < j < stop ==> r !in writes[j]
  {
    if stop == 0 then -1
    else if r in writes[stop - 1] then stop - 1
    else LastWrite(writes, stop - 1, r)
  }

  predicate WritesRegister(b: Block, r: Register) {
    LastWrite(b.writes, |b.writes|, r) >= 0
  }

  // ---------------------------------------------------------------------------------------------
  // The no-definition region, as a set of paths: no visiting order is left in it.

  /** `p` walks backwards from one of `roots`, leaving only blocks that never write `r`. */
  ghost predicate RegionPath(g: Graph, roots: seq<BlockId>, r: Register, p: seq<BlockId>) {
    && |p| > 0
    && p[0] in roots
    && forall i :: 0 <= i < |p| - 1 ==> p[i] in g && !WritesRegister(g[p[i]], r) && p[i + 1] in g[p[i]].preds
  }

  ghost predicate InRegion(g: Graph, roots: seq<BlockId>, r: Register, b: BlockId) {
    exists p :: RegionPath(g, roots, r, p) && p[|p| - 1] == b
  }

  lemma RegionRoot(g: Graph, roots: seq<BlockId>, r: Register, b: BlockId)
    requires b in roots
    ensures InRegion(g, roots, r, b)
  {
    assert RegionPath(g, roots, r, [b]);
  }

  lemma RegionExtend(g: Graph, roots: seq<BlockId>, r: Register, b: BlockId, c: BlockId)
    requires InRegion(g, roots, r, b)
    requires b in g && !WritesRegister(g[b], r) && c in g[b].preds
    ensures InRegion(g, roots, r, c)
  {
    var p :| RegionPath(g, roots, r, p) && p[|p| - 1] == b;
    assert RegionPath(g, roots, r, p + [c]);
  }

  /** Any set closed under the walk contains the region. */
  lemma {:induction false} RegionWithin(g: Graph, roots: seq<BlockId>, r: Register, s: set<BlockId>, p: seq<BlockId>)
    requires RegionPath(g, roots, r, p)
    requires forall b :: b in roots ==> b in s
    requires forall b, c :: b in s && b in g && !WritesRegister(g[b], r) && c in g[b].preds ==> c in s
    ensures p[|p| - 1] in s
  {
    if |p| == 1 {
      assert p[0] in roots && p[|p| - 1] == p[0];
    } else {
      var q, i := p[..|p| - 1], |p| - 2;
      assert RegionPath(g, roots, r, q);
      RegionWithin(g, roots, r, s, q);
      assert q[|q| - 1] == p[i] && p[i + 1] in g[p[i]].preds;
    }
  }

  // ---------------------------------------------------------------------------------------------
  // Specification of the resolver.

  /** What a block that writes `r` supplies to its successors. */
  ghost function Supplied(g: Graph, b: BlockId, r: Register, visiting: set<Point>): Option<Word>
    requires b in g && WritesRegister(g[b], r)
    decreases VISITING_LIMIT - |visiting|, 1
  {
    Resolve(g, b, LastWrite(g[b].writes, |g[b].writes|, r) + 1, r, visiting)
  }

  /** Every block where the walk ends supplies `v`, and the walk ends somewhere. */
  ghost predicate Agreed(g: Graph, roots: seq<BlockId>, r: Register, visiting: set<Point>, v: Word)
    decreases VISITING_LIMIT - |visiting|, 2
  {
    && (exists b :: InRegion(g, roots, r, b) && b in g && WritesRegister(g[b], r))
    && forall b :: InRegion(g, roots, r, b) ==>
                     && b in g
                     && (if WritesRegister(g[b], r) then Supplied(g, b, r, visiting) == Some(v) else g[b].preds != [])
  }

  ghost function Resolve(g: Graph, block: BlockId, stop: nat, r: Register, visiting: set<Point>): (result: Option<Word>)
    requires InRange(g, block, stop)
    decreases VISITING_LIMIT - |visiting|, 0
  {
    var point := Point(block, stop, r);
    if point in visiting || |visiting| >= VISITING_LIMIT || block !in g then None
    else
      var inner := visiting + {point};
      var i := LastWrite(g[block].writes, stop, r);
      if i >= 0 then WriteValue(g, block, i, r, inner)
      else if exists v: Word :: Agreed(g, g[block].preds, r, inner, v) then
        var v: Word :| Agreed(g, g[block].preds, r, inner, v);
        Some(v)
      else None
  }

  /** The value that the instruction at `i` leaves in `r`. */
  ghost function WriteValue(g: Graph, block: BlockId, i: nat, r: Register, visiting: set<Point>): Option<Word>
    requires block in g && i < |g[block].writes| && r in g[block].writes[i]
    decreases VISITING_LIMIT - |visiting|, 1
  {
    match g[block].writes[i][r]
    case Unknown => None
    case Constant(value) => Some(value)
    case Copy(source) => Resolve(g, block, i, source, visiting)
    case Offset(delta) => Displaced(Resolve(g, block, i, r, visiting), delta)
    case Address(base, displacement) => Displaced(Resolve(g, block, i, base, visiting), displacement)
    case GotLoad(base, displacement, entries) =>
      Loaded(Displaced(Resolve(g, block, i, base, visiting), displacement), entries)
    case Unrecognised => None
  }

  function Displaced(base: Option<Word>, delta: int): Option<Word> {
    match base
    case None => None
    case Some(x) => Some(Wrap(x + delta))
  }

  function Loaded(address: Option<Word>, entries: map<Word, Word>): Option<Word> {
    match address
    case None => None
    case Some(a) => if a in entries then Some(entries[a]) else None
  }

  lemma AgreedUnique(g: Graph, roots: seq<BlockId>, r: Register, visiting: set<Point>, v: Word, w: Word)
    requires Agreed(g, roots, r, visiting, v) && Agreed(g, roots, r, visiting, w)
    ensures v == w
  {
    var b :| InRegion(g, roots, r, b) && b in g && WritesRegister(g[b], r);
  }

  // ---------------------------------------------------------------------------------------------
  // The code.

  /** Every block the walk can ever put on its list. */
  ghost function WalkBound(g: Graph, roots: seq<BlockId>): set<BlockId> {
    (set b | b in roots) + (set b, c | b in g && c in g[b].preds :: c)
  }

  method ResolveAddressFlow(g: Graph, block: BlockId, stop: nat, r: Register, visiting: set<Point>)
    returns (result: Option<Word>)
    requires InRange(g, block, stop)
    ensures result == Resolve(g, block, stop, r, visiting)
    decreases VISITING_LIMIT - |visiting|, 1
  {
    var point := Point(block, stop, r);
    if point in visiting || |visiting| >= VISITING_LIMIT || block !in g {
      return None;
    }
    var inner := visiting + {point};
    var writes := g[block].writes;
    var index := stop;
    while index > 0
      invariant 0 <= index <= stop
      invariant forall j :: index <= j < stop ==> r !in writes[j]
    {
      index := index - 1;
      if r in writes[index] {
        assert index == LastWrite(writes, stop, r);
        var base: Option<Word>;
        match writes[index][r] {
          case Unknown => return None;
          case Constant(value) => return Some(value);
          case Copy(source) =>
            result := ResolveAddressFlow(g, block, index, source, inner);
            return;
          case Offset(delta) =>
            base := ResolveAddressFlow(g, block, index, r, inner);
            return Displaced(base, delta);
          case Address(register, displacement) =>
            base := ResolveAddressFlow(g, block, index, register, inner);
            return Displaced(base, displacement);
          case GotLoad(register, displacement, entries) =>
            base := ResolveAddressFlow(g, block, index, register, inner);
            return Loaded(Displaced(base, displacement), entries);
          case Unrecognised => return None;
        }
      }
    }
    assert LastWrite(writes, stop, r) == -1;
    result := WalkRegion(g, g[block].preds, r, inner);
  }

  /** `seen` and `pending` together leave no predecessor behind. */
  ghost predicate WalkClosed(g: Graph, roots: seq<BlockId>, r: Register, seen: set<BlockId>, pending: seq<BlockId>) {
    && (forall b :: b in roots ==> b in seen || b in pending)
    && (forall b, c :: b in seen && b in g && !WritesRegister(g[b], r) && c in g[b].preds ==> c in seen || c in pending)
  }

  ghost predicate WalkInside(g: Graph, roots: seq<BlockId>, r: Register, seen: set<BlockId>, pending: seq<BlockId>) {
    && (forall b :: b in pending ==> InRegion(g, roots, r, b) && b in WalkBound(g, roots))
    && (forall b :: b in seen ==> InRegion(g, roots, r, b))
    && (forall b :: b in seen ==> b in g && (WritesRegister(g[b], r) || g[b].preds != []))
  }

  /** `reaching` lists what the blocks `ends`, the writing blocks among `seen`, supply. */
  ghost predicate WalkValues(g: Graph, r: Register, visiting: set<Point>, seen: set<BlockId>, ends: seq<BlockId>,
                             reaching: seq<Word>)
  {
    && |ends| == |reaching|
    && (forall k :: 0 <= k < |ends| ==> ends[k] in seen && ends[k] in g && WritesRegister(g[ends[k]], r)
                                        && Supplied(g, ends[k], r, visiting) == Some(reaching[k]))
    && (forall b :: b in seen && b in g && WritesRegister(g[b], r) ==> b in ends)
  }

  lemma WalkStarts(g: Graph, roots: seq<BlockId>, r: Register)
    ensures WalkInside(g, roots, r, {}, roots) && WalkClosed(g, roots, r, {}, roots)
  {
    forall b | b in roots ensures InRegion(g, roots, r, b) {
      RegionRoot(g, roots, r, b);
    }
  }

  /** One pop that finds an unseen block without a write. */
  lemma WalkPasses(g: Graph, roots: seq<BlockId>, r: Register, seen: set<BlockId>, pending: seq<BlockId>, parent: BlockId)
    requires WalkInside(g, roots, r, seen, pending + [parent]) && WalkClosed(g, roots, r, seen, pending + [parent])
    requires parent in g && !WritesRegister(g[parent], r) && g[parent].preds != []
    ensures WalkInside(g, roots, r, seen + {parent}, pending + g[parent].preds)
    ensures WalkClosed(g, roots, r, seen + {parent}, pending + g[parent].preds)
  {
    forall c | c in g[parent].preds ensures InRegion(g, roots, r, c) {
      assert parent in pending + [parent];
      RegionExtend(g, roots, r, parent, c);
    }
  }

  /** One pop that finds an unseen block with a write. */
  lemma WalkTakes(g: Graph, roots: seq<BlockId>, r: Register, seen: set<BlockId>, pending: seq<BlockId>, parent: BlockId)
    requires WalkInside(g, roots, r, seen, pending + [parent]) && WalkClosed(g, roots, r, seen, pending + [parent])
    requires parent in g && WritesRegister(g[parent], r)
    ensures WalkInside(g, roots, r, seen + {parent}, pending) && WalkClosed(g, roots, r, seen + {parent}, pending)
  {
    hide WritesRegister;
    hide InRegion;
    hide WalkBound;
    assert parent in pending + [parent];
    forall b | b in pending ensures b in pending + [parent] {}
  }

  lemma WalkTakesValue(g: Graph, r: Register, visiting: set<Point>, seen: set<BlockId>, ends: seq<BlockId>,
                       reaching: seq<Word>, parent: BlockId, value: Word)
    requires WalkValues(g, r, visiting, seen, ends, reaching)
    requires parent in g && WritesRegister(g[parent], r) && Supplied(g, parent, r, visiting) == Some(value)
    ensures WalkValues(g, r, visiting, seen + {parent}, ends + [parent], reaching + [value])
  {
    hide WritesRegister;
    hide Supplied;
    forall b | b in ends ensures b in ends + [parent] {}
    assert parent in ends + [parent];
  }

  /** A block without a write supplies nothing of its own. */
  lemma WalkPassesValue(g: Graph, r: Register, visiting: set<Point>, seen: set<BlockId>, ends: seq<BlockId>,
                        reaching: seq<Word>, parent: BlockId)
    requires WalkValues(g, r, visiting, seen, ends, reaching)
    requires parent in g && !WritesRegister(g[parent], r)
    ensures WalkValues(g, r, visiting, seen + {parent}, ends, reaching)
  {
    hide WritesRegister;
    hide Supplied;
  }

  /** What is popped lies in the region. */
  lemma WalkPops(g: Graph, roots: seq<BlockId>, r: Register, seen: set<BlockId>, pending: seq<BlockId>)
    requires WalkInside(g, roots, r, seen, pending) && WalkClosed(g, roots, r, seen, pending) && pending != []
    ensures var n := |pending| - 1;
            && pending == pending[..n] + [pending[n]]
            && InRegion(g, roots, r, pending[n]) && pending[n] in WalkBound(g, roots)
            && (pending[n] in seen ==> WalkInside(g, roots, r, seen, pending[..n]) && WalkClosed(g, roots, r, seen, pending[..n]))
  {
    hide WritesRegister;
    hide InRegion;
    hide WalkBound;
    var n := |pending| - 1;
    assert pending[n] in pending;
    assert pending == pending[..n] + [pending[n]];
  }

  /** One block at which the walk gives up. */
  lemma WalkFails(g: Graph, roots: seq<BlockId>, r: Register, visiting: set<Point>, parent: BlockId)
    requires InRegion(g, roots, r, parent)
    requires parent in g ==>
               if WritesRegister(g[parent], r) then Supplied(g, parent, r, visiting).None? else g[parent].preds == []
    ensures forall v: Word :: !Agreed(g, roots, r, visiting, v)
  {}

  /** The walk is over: `seen` is the region and `reaching` decides the answer. */
  lemma WalkEnds(g: Graph, roots: seq<BlockId>, r: Register, visiting: set<Point>, seen: set<BlockId>,
                 ends: seq<BlockId>, reaching: seq<Word>)
    requires WalkInside(g, roots, r, seen, []) && WalkClosed(g, roots, r, seen, [])
    requires WalkValues(g, r, visiting, seen, ends, reaching)
    ensures forall v: Word :: Agreed(g, roots, r, visiting, v)
              <==> reaching != [] && forall k :: 0 <= k < |reaching| ==> reaching[k] == v
  {
    forall b | InRegion(g, roots, r, b) ensures b in seen {
      var p :| RegionPath(g, roots, r, p) && p[|p| - 1] == b;
      RegionWithin(g, roots, r, seen, p);
    }
    forall v: Word | Agreed(g, roots, r, visiting, v)
      ensures reaching != [] && forall k :: 0 <= k < |reaching| ==> reaching[k] == v
    {
      var b :| InRegion(g, roots, r, b) && b in g && WritesRegister(g[b], r);
      assert b in ends;
    }
    forall v: Word | reaching != [] && forall k :: 0 <= k < |reaching| ==> reaching[k] == v
      ensures Agreed(g, roots, r, visiting, v)
    {
      assert InRegion(g, roots, r, ends[0]);
    }
  }

  /** The worklist walk that starts at the block's predecessors. */
  method WalkRegion(g: Graph, roots: seq<BlockId>, r: Register, visiting: set<Point>) returns (result: Option<Word>)
    requires |visiting| <= VISITING_LIMIT
    ensures forall v: Word :: Agreed(g, roots, r, visiting, v) <==> result == Some(v)
    decreases VISITING_LIMIT - |visiting|, 2
  {
    if roots == [] {
      return None;
    }
    var reaching: seq<Word> := [];
    ghost var ends: seq<BlockId> := [];
    var pending := roots;
    var seen: set<BlockId> := {};
    WalkStarts(g, roots, r);
    while pending != []
      invariant WalkInside(g, roots, r, seen, pending)
      invariant WalkClosed(g, roots, r, seen, pending)
      invariant WalkValues(g, r, visiting, seen, ends, reaching)
      decreases WalkBound(g, roots) - seen, |pending|
    {
      hide WalkInside;
      hide WalkClosed;
      hide WalkValues;
      hide WalkBound;
      hide InRegion;
      hide Agreed;
      WalkPops(g, roots, r, seen, pending);
      var parent := pending[|pending| - 1];
      pending := pending[..|pending| - 1];
      if parent in seen {
        continue;
      }
      if parent !in g {
        WalkFails(g, roots, r, visiting, parent);
        return None;
      }
      var last := LastWrite(g[parent].writes, |g[parent].writes|, r);
      if last < 0 {
        if g[parent].preds == [] {
          WalkFails(g, roots, r, visiting, parent);
          return None;
        }
        WalkPasses(g, roots, r, seen, pending, parent);
        WalkPassesValue(g, r, visiting, seen, ends, reaching, parent);
        pending := pending + g[parent].preds;
      } else {
        var value := ResolveAddressFlow(g, parent, last + 1, r, visiting);
        if value == None {
          WalkFails(g, roots, r, visiting, parent);
          return None;
        }
        WalkTakes(g, roots, r, seen, pending, parent);
        WalkTakesValue(g, r, visiting, seen, ends, reaching, parent, value.value);
        reaching := reaching + [value.value];
        ends := ends + [parent];
      }
      seen := seen + {parent};
    }
    hide Agreed;
    WalkEnds(g, roots, r, visiting, seen, ends, reaching);
    if reaching != [] && forall k :: 0 <= k < |reaching| ==> reaching[k] == reaching[0] {
      return Some(reaching[0]);
    }
    return None;
  }
}
