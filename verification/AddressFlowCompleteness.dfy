/** What the resolver must find. A block is evaluated forwards, from its first instruction on: an instruction's result is
    known if what it reads is known in the state before it. A register is known at the top of a block if every writing
    block that the walk can meet leaves it with one known value. */
module AddressFlowCompleteness {
  import opened Outcomes
  import opened AddressFlow
  import opened AddressFlowSoundness

  type Knowledge = Register -> Option<Word>

  const NOTHING: Knowledge := (r: Register) => None

  /** What is known of the value that a write leaves in `r`. */
  function Outcome(d: Definition, r: Register, before: Knowledge): Option<Word> {
    match d
    case Unknown => None
    case Constant(value) => Some(value)
    case Copy(source) => before(source)
    case Offset(delta) => if before(r).Some? then Some(Wrap(before(r).value + delta)) else None
    case Address(base, displacement) =>
      if before(base).Some? then Some(Wrap(before(base).value + displacement)) else None
    case GotLoad(base, displacement, entries) =>
      if before(base).Some? && Wrap(before(base).value + displacement) in entries
      then Some(entries[Wrap(before(base).value + displacement)])
      else None
    case Unrecognised => None
  }

  function After(w: WriteMap, before: Knowledge): Knowledge {
    (r: Register) => if r in w then Outcome(w[r], r, before) else before(r)
  }

  function Evaluated(writes: seq<WriteMap>, n: nat, start: Knowledge): Knowledge
    requires n <= |writes|
  {
    if n == 0 then start else After(writes[n - 1], Evaluated(writes, n - 1, start))
  }

  /** Evaluation reads only the last write. */
  lemma {:induction false} SinceLastWrite(writes: seq<WriteMap>, n: nat, start: Knowledge, r: Register)
    requires n <= |writes|
    ensures var i := LastWrite(writes, n, r);
            Evaluated(writes, n, start)(r) ==
            if i < 0 then start(r) else Outcome(writes[i][r], r, Evaluated(writes, i, start))
  {
    if n > 0 && r !in writes[n - 1] {
      SinceLastWrite(writes, n - 1, start, r);
    }
  }

  // ---------------------------------------------------------------------------------------------
  // Knowledge over a graph, level by level.

  /** All writing blocks of the region in front of `b` leave `r` with `v`, as far as level `k` knows. */
  ghost predicate Agrees(g: Graph, k: nat, b: BlockId, r: Register, v: Word)
    requires b in g
    decreases k, 2
  {
    && (exists c :: InRegion(g, g[b].preds, r, c) && c in g && WritesRegister(g[c], r))
    && forall c :: InRegion(g, g[b].preds, r, c) ==>
                     && c in g
                     && if WritesRegister(g[c], r) then Known(g, k, c, |g[c].writes|)(r) == Some(v) else g[c].preds != []
  }

  /** The value on which the region in front of `b` agrees. */
  ghost function AgreedValue(g: Graph, k: nat, b: BlockId, r: Register): Option<Word>
    requires b in g
    decreases k, 3
  {
    if exists v: Word :: Agrees(g, k, b, r, v) then
      var v: Word :| Agrees(g, k, b, r, v);
      Some(v)
    else None
  }

  /** What is known at the top of `b` when at most `k` blocks before it are looked at one behind the other. */
  ghost function AtTop(g: Graph, k: nat, b: BlockId): Knowledge
    requires b in g
    decreases k, 0
  {
    if k == 0 then NOTHING else (r: Register) => AgreedValue(g, k - 1, b, r)
  }

  ghost function Known(g: Graph, k: nat, b: BlockId, n: nat): Knowledge
    requires b in g && n <= |g[b].writes|
    decreases k, 1
  {
    Evaluated(g[b].writes, n, AtTop(g, k, b))
  }

  lemma AgreedHolds(g: Graph, k: nat, b: BlockId, r: Register)
    requires b in g && AgreedValue(g, k, b, r).Some?
    ensures Agrees(g, k, b, r, AgreedValue(g, k, b, r).value)
  {
    hide Agrees;
  }

  lemma AgreedIs(g: Graph, k: nat, b: BlockId, r: Register, v: Word)
    requires b in g && Agrees(g, k, b, r, v)
    ensures AgreedValue(g, k, b, r) == Some(v)
  {
    forall w: Word | Agrees(g, k, b, r, w) ensures w == v {
      var c :| InRegion(g, g[b].preds, r, c) && c in g && WritesRegister(g[c], r);
    }
  }

  ghost predicate Extends(more: Knowledge, less: Knowledge) {
    forall q :: less(q).Some? ==> more(q) == less(q)
  }

  /** More knowledge at the start never loses or changes what is known later. */
  lemma {:induction false} EvaluatedGrows(writes: seq<WriteMap>, n: nat, less: Knowledge, more: Knowledge)
    requires n <= |writes| && Extends(more, less)
    ensures Extends(Evaluated(writes, n, more), Evaluated(writes, n, less))
  {
    if n > 0 {
      EvaluatedGrows(writes, n - 1, less, more);
    }
  }

  lemma {:induction false} AtTopGrows(g: Graph, k: nat, b: BlockId, r: Register)
    requires b in g && AtTop(g, k, b)(r).Some?
    ensures AtTop(g, k + 1, b)(r) == AtTop(g, k, b)(r)
    decreases k, 0
  {
    var v := AgreedValue(g, k - 1, b, r).value;
    AgreedHolds(g, k - 1, b, r);
    forall c | InRegion(g, g[b].preds, r, c) && WritesRegister(g[c], r)
      ensures Known(g, k, c, |g[c].writes|)(r) == Some(v)
    {
      KnownGrows(g, k - 1, c, |g[c].writes|, r);
    }
    assert Agrees(g, k, b, r, v);
    AgreedIs(g, k, b, r, v);
  }

  lemma {:induction false} KnownGrows(g: Graph, k: nat, b: BlockId, n: nat, r: Register)
    requires b in g && n <= |g[b].writes| && Known(g, k, b, n)(r).Some?
    ensures Known(g, k + 1, b, n)(r) == Known(g, k, b, n)(r)
    decreases k, 1
  {
    forall q | AtTop(g, k, b)(q).Some? ensures AtTop(g, k + 1, b)(q) == AtTop(g, k, b)(q) {
      AtTopGrows(g, k, b, q);
    }
    EvaluatedGrows(g[b].writes, n, AtTop(g, k, b), AtTop(g, k + 1, b));
  }

  // ---------------------------------------------------------------------------------------------
  // One step of the resolver.

  /** The register that a write into `r` reads. */
  predicate Reads(d: Definition, r: Register, q: Register) {
    match d
    case Copy(source) => q == source
    case Offset(_) => q == r
    case Address(base, _) => q == base
    case GotLoad(base, _, _) => q == base
    case _ => false
  }

  lemma NeedsWhatItReads(d: Definition, r: Register, before: Knowledge, q: Register)
    requires Outcome(d, r, before).Some? && Reads(d, r, q)
    ensures before(q).Some?
  {}

  lemma StepInBlock(g: Graph, b: BlockId, n: nat, r: Register, visiting: set<Point>, before: Knowledge)
    requires b in g && n <= |g[b].writes| && LastWrite(g[b].writes, n, r) >= 0
    requires Point(b, n, r) !in visiting && |visiting| < VISITING_LIMIT
    requires var i := LastWrite(g[b].writes, n, r);
             forall q :: Reads(g[b].writes[i][r], r, q) ==> Resolve(g, b, i, q, visiting + {Point(b, n, r)}) == before(q)
    ensures Resolve(g, b, n, r, visiting) == Outcome(g[b].writes[LastWrite(g[b].writes, n, r)][r], r, before)
  {
    var i, inner := LastWrite(g[b].writes, n, r), visiting + {Point(b, n, r)};
    assert Resolve(g, b, n, r, visiting) == WriteValue(g, b, i, r, inner) by {
      hide WriteValue;
      hide Agreed;
      hide Outcome;
    }
    hide Resolve;
    WriteIs(g, b, i, r, inner, before);
  }

  lemma WriteIs(g: Graph, b: BlockId, i: nat, r: Register, visiting: set<Point>, before: Knowledge)
    requires b in g && i < |g[b].writes| && r in g[b].writes[i]
    requires forall q :: Reads(g[b].writes[i][r], r, q) ==> Resolve(g, b, i, q, visiting) == before(q)
    ensures WriteValue(g, b, i, r, visiting) == Outcome(g[b].writes[i][r], r, before)
  {
    hide Resolve;
  }

  lemma StepInFront(g: Graph, b: BlockId, n: nat, r: Register, visiting: set<Point>, v: Word)
    requires b in g && n <= |g[b].writes| && LastWrite(g[b].writes, n, r) < 0
    requires Point(b, n, r) !in visiting && |visiting| < VISITING_LIMIT
    ensures Resolve(g, b, n, r, visiting) == Some(v) <==> Agreed(g, g[b].preds, r, visiting + {Point(b, n, r)}, v)
  {
    var inner := visiting + {Point(b, n, r)};
    forall v: Word, w: Word | Agreed(g, g[b].preds, r, inner, v) && Agreed(g, g[b].preds, r, inner, w) ensures v == w {
      AgreedUnique(g, g[b].preds, r, inner, v, w);
    }
    hide Agreed;
  }

  lemma NoFurtherStep(g: Graph, b: BlockId, n: nat, r: Register, visiting: set<Point>)
    requires InRange(g, b, n) && Resolve(g, b, n, r, visiting).Some?
    ensures b in g && Point(b, n, r) !in visiting && |visiting| < VISITING_LIMIT
  {}

  lemma OnlyKnownWhenRead(g: Graph, b: BlockId, n: nat, r: Register, visiting: set<Point>, q: Register)
    requires InRange(g, b, n) && Resolve(g, b, n, r, visiting).Some? && LastWrite(g[b].writes, n, r) >= 0
    requires Reads(g[b].writes[LastWrite(g[b].writes, n, r)][r], r, q)
    ensures Resolve(g, b, LastWrite(g[b].writes, n, r), q, visiting + {Point(b, n, r)}).Some?
  {
    hide Agreed;
  }

  // ---------------------------------------------------------------------------------------------
  // Whatever is known is found.

  ghost predicate KnownAt(g: Graph, k: nat, p: Point) {
    && p.block in g && p.stop <= |g[p.block].writes|
    && Known(g, k, p.block, p.stop)(p.register).Some?
  }

  /** `p` is known only at a higher level, or at this one but further down in its block. */
  ghost predicate Higher(g: Graph, k: nat, n: nat, p: Point) {
    KnownAt(g, k, p) ==> p.stop > n && (k > 0 ==> !KnownAt(g, k - 1, p))
  }

  ghost predicate AllHigher(g: Graph, k: nat, n: nat, visiting: set<Point>) {
    forall p :: p in visiting ==> Higher(g, k, n, p)
  }

  ghost predicate BlocksWithin(g: Graph, size: nat) {
    forall b :: b in g ==> |g[b].writes| <= size
  }

  lemma {:induction false} Found(g: Graph, k: nat, b: BlockId, n: nat, r: Register, visiting: set<Point>, size: nat)
    requires (k > 0 ==> BlocksWithin(g, size)) && KnownAt(g, k, Point(b, n, r))
    requires AllHigher(g, k, n, visiting) && |visiting| + n + k * (size + 1) <= VISITING_LIMIT
    ensures Resolve(g, b, n, r, visiting) == Known(g, k, b, n)(r)
    decreases k, n, 3
  {
    if k > 0 && KnownAt(g, k - 1, Point(b, n, r)) {
      KnownGrows(g, k - 1, b, n, r);
      forall p | p in visiting ensures Higher(g, k - 1, n, p) {
        if KnownAt(g, k - 1, p) { KnownGrows(g, k - 1, p.block, p.stop, p.register); }
      }
      Found(g, k - 1, b, n, r, visiting, size);
    } else {
      FoundFirst(g, k, b, n, r, visiting, size);
    }
  }

  lemma {:induction false} FoundFirst(g: Graph, k: nat, b: BlockId, n: nat, r: Register, visiting: set<Point>, size: nat)
    requires KnownAt(g, k, Point(b, n, r)) && (k > 0 ==> BlocksWithin(g, size) && !KnownAt(g, k - 1, Point(b, n, r)))
    requires AllHigher(g, k, n, visiting) && |visiting| + n + k * (size + 1) <= VISITING_LIMIT
    ensures Resolve(g, b, n, r, visiting) == Known(g, k, b, n)(r)
    decreases k, n, 2
  {
    hide Agreed;
    hide InRegion;
    hide Resolve;
    hide AtTop;
    hide Evaluated;
    hide Outcome;
    var p := Point(b, n, r);
    var inner := visiting + {p};
    var writes := g[b].writes;
    var i := LastWrite(writes, n, r);
    assert p !in visiting;
    SinceLastWrite(writes, n, AtTop(g, k, b), r);
    if i >= 0 {
      assert AllHigher(g, k, i, inner);
      forall q | Reads(writes[i][r], r, q) ensures Resolve(g, b, i, q, inner) == Known(g, k, b, i)(q) {
        NeedsWhatItReads(writes[i][r], r, Known(g, k, b, i), q);
        Found(g, k, b, i, q, inner, size);
      }
      StepInBlock(g, b, n, r, visiting, Known(g, k, b, i));
    } else {
      FoundInFront(g, k, b, n, r, visiting, size);
    }
  }

  /** A register that its block does not write: every writing block in front supplies the known value. */
  lemma {:induction false} FoundInFront(g: Graph, k: nat, b: BlockId, n: nat, r: Register, visiting: set<Point>,
                                        size: nat)
    requires KnownAt(g, k, Point(b, n, r)) && (k > 0 ==> BlocksWithin(g, size) && !KnownAt(g, k - 1, Point(b, n, r)))
    requires AllHigher(g, k, n, visiting) && |visiting| + n + k * (size + 1) <= VISITING_LIMIT
    requires LastWrite(g[b].writes, n, r) < 0
    ensures Resolve(g, b, n, r, visiting) == Known(g, k, b, n)(r)
    decreases k, n, 1
  {
    hide InRegion;
    hide Resolve;
    hide Evaluated;
    hide LastWrite;
    var inner := visiting + {Point(b, n, r)};
    SinceLastWrite(g[b].writes, n, AtTop(g, k, b), r);
    assert Known(g, k, b, n)(r) == AgreedValue(g, k - 1, b, r);
    AgreedHolds(g, k - 1, b, r);
    var v := AgreedValue(g, k - 1, b, r).value;
    LevelsBelow(g, k, b, n, r, visiting, size);
    hide Known;
    hide AtTop;
    hide WritesRegister;
    forall c | InRegion(g, g[b].preds, r, c) && WritesRegister(g[c], r)
      ensures Supplied(g, c, r, inner) == Some(v)
    {
      hide KnownAt;
      FoundAtEnd(g, k - 1, c, r, inner, size, v);
    }
    hide KnownAt;
    assert Agreed(g, g[b].preds, r, inner, v);
    StepInFront(g, b, n, r, visiting, v);
  }

  lemma {:induction false} FoundAtEnd(g: Graph, k: nat, c: BlockId, r: Register, visiting: set<Point>, size: nat,
                                      v: Word)
    requires BlocksWithin(g, size) && c in g && WritesRegister(g[c], r) && Known(g, k, c, |g[c].writes|)(r) == Some(v)
    requires forall q :: q in visiting ==> !KnownAt(g, k, q)
    requires |visiting| + size + k * (size + 1) <= VISITING_LIMIT
    ensures Supplied(g, c, r, visiting) == Some(v)
    decreases k, size + 1
  {
    hide Known;
    hide Resolve;
    var n := LastWrite(g[c].writes, |g[c].writes|, r) + 1;
    EndOfBlock(g, k, c, r);
    assert KnownAt(g, k, Point(c, n, r));
    hide KnownAt;
    Found(g, k, c, n, r, visiting, size);
  }

  lemma LevelsBelow(g: Graph, k: nat, b: BlockId, n: nat, r: Register, visiting: set<Point>, size: nat)
    requires k > 0 && b in g && n <= |g[b].writes| && !KnownAt(g, k - 1, Point(b, n, r))
    requires AllHigher(g, k, n, visiting) && |visiting| + n + k * (size + 1) <= VISITING_LIMIT
    ensures forall q :: q in visiting + {Point(b, n, r)} ==> !KnownAt(g, k - 1, q)
    ensures |visiting + {Point(b, n, r)}| + size + (k - 1) * (size + 1) <= VISITING_LIMIT
    ensures |visiting| < VISITING_LIMIT
  {
    hide Known;
    forall q | q in visiting ensures !KnownAt(g, k - 1, q) {
      assert Higher(g, k, n, q);
      if KnownAt(g, k - 1, q) {
        KnownGrows(g, k - 1, q.block, q.stop, q.register);
      }
    }
    assert (k - 1) * (size + 1) + (size + 1) == k * (size + 1);
    assert |visiting + {Point(b, n, r)}| <= |visiting| + 1;
  }

  /** Behind its last write a register keeps what is known of it. */
  lemma EndOfBlock(g: Graph, k: nat, c: BlockId, r: Register)
    requires c in g && WritesRegister(g[c], r)
    ensures var n := |g[c].writes|; Known(g, k, c, LastWrite(g[c].writes, n, r) + 1)(r) == Known(g, k, c, n)(r)
  {
    var writes := g[c].writes;
    var last := LastWrite(writes, |writes|, r);
    assert LastWrite(writes, last + 1, r) == last;
    SinceLastWrite(writes, |writes|, AtTop(g, k, c), r);
    SinceLastWrite(writes, last + 1, AtTop(g, k, c), r);
  }

  // ---------------------------------------------------------------------------------------------
  // Whatever is found is known.

  lemma {:induction false} FoundIsKnown(g: Graph, b: BlockId, n: nat, r: Register, visiting: set<Point>)
    requires InRange(g, b, n) && Resolve(g, b, n, r, visiting).Some?
    ensures Known(g, VISITING_LIMIT - |visiting|, b, n)(r) == Resolve(g, b, n, r, visiting)
    decreases VISITING_LIMIT - |visiting|, 1
  {
    hide Agreed;
    hide InRegion;
    hide Resolve;
    hide AtTop;
    hide Evaluated;
    hide Outcome;
    NoFurtherStep(g, b, n, r, visiting);
    var k := VISITING_LIMIT - |visiting|;
    var inner := visiting + {Point(b, n, r)};
    var writes := g[b].writes;
    var i := LastWrite(writes, n, r);
    SinceLastWrite(writes, n, AtTop(g, k, b), r);
    if i >= 0 {
      forall q | Reads(writes[i][r], r, q) ensures Resolve(g, b, i, q, inner) == Known(g, k, b, i)(q) {
        OnlyKnownWhenRead(g, b, n, r, visiting, q);
        FoundIsKnown(g, b, i, q, inner);
        KnownGrows(g, k - 1, b, i, q);
      }
      StepInBlock(g, b, n, r, visiting, Known(g, k, b, i));
    } else {
      FoundInFrontIsKnown(g, b, n, r, visiting);
    }
  }

  lemma {:induction false} FoundInFrontIsKnown(g: Graph, b: BlockId, n: nat, r: Register, visiting: set<Point>)
    requires InRange(g, b, n) && Resolve(g, b, n, r, visiting).Some? && LastWrite(g[b].writes, n, r) < 0
    ensures Known(g, VISITING_LIMIT - |visiting|, b, n)(r) == Resolve(g, b, n, r, visiting)
    decreases VISITING_LIMIT - |visiting|, 0
  {
    hide InRegion;
    hide Resolve;
    hide Evaluated;
    hide LastWrite;
    NoFurtherStep(g, b, n, r, visiting);
    var k := VISITING_LIMIT - |visiting|;
    var inner := visiting + {Point(b, n, r)};
    var v := Resolve(g, b, n, r, visiting).value;
    StepInFront(g, b, n, r, visiting, v);
    hide AtTop;
    forall c | InRegion(g, g[b].preds, r, c) && WritesRegister(g[c], r)
      ensures Known(g, k - 1, c, |g[c].writes|)(r) == Some(v)
    {
      hide Known;
      assert Supplied(g, c, r, inner) == Some(v);
      FoundIsKnown(g, c, LastWrite(g[c].writes, |g[c].writes|, r) + 1, r, inner);
      EndOfBlock(g, k - 1, c, r);
    }
    hide Known;
    hide WritesRegister;
    assert Agrees(g, k - 1, b, r, v);
    KnownInFront(g, k, b, n, r, v);
  }

  lemma KnownInFront(g: Graph, k: nat, b: BlockId, n: nat, r: Register, v: Word)
    requires k > 0 && b in g && n <= |g[b].writes| && LastWrite(g[b].writes, n, r) < 0 && Agrees(g, k - 1, b, r, v)
    ensures Known(g, k, b, n)(r) == Some(v)
  {
    hide Agrees;
    AgreedIs(g, k - 1, b, r, v);
    SinceLastWrite(g[b].writes, n, AtTop(g, k, b), r);
  }

  // ---------------------------------------------------------------------------------------------
  // Main results.

  /** Short of its limit of 128 nested questions the resolver answers exactly what the forward evaluation knows; the points
      that it is already asking about never cost an answer. */
  lemma FindsExactlyTheKnown(g: Graph, b: BlockId, n: nat, r: Register, v: Word, k: nat, size: nat)
    requires b in g && n <= |g[b].writes|
    ensures Resolve(g, b, n, r, {}) == Some(v) ==> Known(g, 128, b, n)(r) == Some(v)
    ensures BlocksWithin(g, size) && n + k * (size + 1) <= 128 && Known(g, k, b, n)(r) == Some(v) ==>
              Resolve(g, b, n, r, {}) == Some(v)
  {
    hide Resolve;
    hide Known;
    if Resolve(g, b, n, r, {}) == Some(v) {
      FoundIsKnown(g, b, n, r, {});
    }
    if BlocksWithin(g, size) && n + k * (size + 1) <= 128 && Known(g, k, b, n)(r) == Some(v) {
      assert KnownAt(g, k, Point(b, n, r));
      Found(g, k, b, n, r, {}, size);
    }
  }

  /** In a block that nothing precedes the answer is the result of evaluating the block from no knowledge at all. */
  lemma BlockExact(g: Graph, b: BlockId, n: nat, r: Register)
    requires b in g && n <= |g[b].writes| && n <= 128 && g[b].preds == []
    ensures Resolve(g, b, n, r, {}) == Evaluated(g[b].writes, n, NOTHING)(r)
  {
    hide Resolve;
    hide Evaluated;
    forall k: nat ensures Extends(NOTHING, AtTop(g, k, b)) && Extends(AtTop(g, k, b), NOTHING) {
      forall q ensures AtTop(g, k, b)(q) == None {
        forall c ensures !InRegion(g, g[b].preds, q, c) {}
      }
    }
    var all := VISITING_LIMIT;
    EvaluatedGrows(g[b].writes, n, NOTHING, AtTop(g, 0, b));
    EvaluatedGrows(g[b].writes, n, AtTop(g, all, b), NOTHING);
    if Resolve(g, b, n, r, {}).Some? {
      FoundIsKnown(g, b, n, r, {});
    }
    if Evaluated(g[b].writes, n, NOTHING)(r).Some? {
      Found(g, 0, b, n, r, {}, 0);
    }
  }

  /** All writing blocks in front of `b` evaluate on their own to `v`. */
  ghost predicate LocallyAgreed(g: Graph, b: BlockId, r: Register, v: Word)
    requires b in g
  {
    && (exists c :: InRegion(g, g[b].preds, r, c) && c in g && WritesRegister(g[c], r))
    && forall c :: InRegion(g, g[b].preds, r, c) ==>
                     && c in g
                     && (if WritesRegister(g[c], r) then Evaluated(g[c].writes, |g[c].writes|, NOTHING)(r) == Some(v)
                         else g[c].preds != [])
  }

  /** Then `v` is the answer at the top of `b`, through any loops. */
  lemma RegionExact(g: Graph, b: BlockId, r: Register, v: Word, size: nat)
    requires b in g && BlocksWithin(g, size) && size < 128 && LocallyAgreed(g, b, r, v)
    ensures Resolve(g, b, 0, r, {}) == Some(v)
  {
    hide Resolve;
    hide Evaluated;
    forall c | InRegion(g, g[b].preds, r, c) && WritesRegister(g[c], r)
      ensures Known(g, 0, c, |g[c].writes|)(r) == Some(v)
    {}
    assert Agrees(g, 0, b, r, v);
    AgreedIs(g, 0, b, r, v);
    SinceLastWrite(g[b].writes, 0, AtTop(g, 1, b), r);
    assert KnownAt(g, 1, Point(b, 0, r));
    Found(g, 1, b, 0, r, {}, size);
  }

  // ---------------------------------------------------------------------------------------------
  // What is known is what all executions have in common.

  /** The states of an execution of the first instructions, from any state on. */
  ghost predicate Execution(writes: seq<WriteMap>, states: seq<Registers>) {
    && 0 < |states| <= |writes| + 1
    && forall i :: 0 <= i < |states| - 1 ==> Executes(writes[i], states[i], states[i + 1])
  }

  /** All executions of the first `n` instructions leave `r` with `v`. */
  ghost predicate Determined(writes: seq<WriteMap>, n: nat, r: Register, v: Word) {
    forall states: seq<Registers> :: |states| == n + 1 && Execution(writes, states) ==> states[n](r) == v
  }

  /** No table of the block has an entry for every address. */
  ghost predicate TablesHaveGaps(writes: seq<WriteMap>) {
    forall i, r :: 0 <= i < |writes| && r in writes[i] && writes[i][r].GotLoad? ==> HasGap(writes[i][r].entries)
  }

  ghost predicate HasGap(entries: map<Word, Word>) {
    exists a: Word :: a !in entries
  }

  lemma {:induction false} KnownHolds(writes: seq<WriteMap>, n: nat, r: Register, states: seq<Registers>)
    requires n < |states| && Execution(writes, states) && Evaluated(writes, n, NOTHING)(r).Some?
    ensures states[n](r) == Evaluated(writes, n, NOTHING)(r).value
  {
    if n > 0 {
      var before := Evaluated(writes, n - 1, NOTHING);
      assert Executes(writes[n - 1], states[n - 1], states[(n - 1) + 1]);
      forall q | before(q).Some? ensures states[n - 1](q) == before(q).value {
        KnownHolds(writes, n - 1, q, states);
      }
    }
  }

  /** Some value that a write may leave. */
  ghost function Written(d: Definition, r: Register, before: Registers): (v: Word)
    ensures MayWrite(d, r, before, v)
  {
    match d
    case Unknown => 0
    case Constant(value) => value
    case Copy(source) => before(source)
    case Offset(delta) => Wrap(before(r) + delta)
    case Address(base, displacement) => Wrap(before(base) + displacement)
    case GotLoad(base, displacement, entries) =>
      var a := Wrap(before(base) + displacement);
      if a in entries then entries[a] else 0
    case Unrecognised => 0
  }

  lemma Extended(writes: seq<WriteMap>, states: seq<Registers>, r: Register, v: Word) returns (longer: seq<Registers>)
    requires Execution(writes, states) && |states| <= |writes|
    requires var w, before := writes[|states| - 1], states[|states| - 1];
             if r in w then MayWrite(w[r], r, before, v) else v == before(r)
    ensures Execution(writes, longer) && |longer| == |states| + 1 && longer[|states|](r) == v
  {
    var w, before := writes[|states| - 1], states[|states| - 1];
    var after := (q: Register) => if q == r then v else if q in w then Written(w[q], q, before) else before(q);
    assert Executes(w, before, after);
    longer := states + [after];
  }

  lemma {:induction false} SomeExecution(writes: seq<WriteMap>, n: nat) returns (states: seq<Registers>)
    requires n <= |writes|
    ensures |states| == n + 1 && Execution(writes, states)
  {
    if n == 0 {
      states := [(q: Register) => 0];
    } else {
      states := SomeExecution(writes, n - 1);
      var w, before := writes[n - 1], states[n - 1];
      states := Extended(writes, states, 0, if 0 in w then Written(w[0], 0, before) else before(0));
    }
  }

  lemma WrapBack(v: Word, delta: int)
    ensures Wrap(Wrap(v - delta) + delta) == v
  {}

  /** What is not known can have any value. */
  lemma {:induction false} UnknownIsFree(writes: seq<WriteMap>, n: nat, r: Register, v: Word)
    returns (states: seq<Registers>)
    requires n <= |writes| && TablesHaveGaps(writes) && Evaluated(writes, n, NOTHING)(r).None?
    ensures |states| == n + 1 && Execution(writes, states) && states[n](r) == v
    decreases n, 1
  {
    if n == 0 {
      states := [(q: Register) => v];
    } else {
      var w := writes[n - 1];
      if r !in w {
        states := UnknownIsFree(writes, n - 1, r, v);
      } else {
        states := BeforeFree(writes, n, r, v);
      }
      states := Extended(writes, states, r, v);
    }
  }

  /** An execution up to the last instruction, which can then leave `v`. */
  lemma {:induction false} BeforeFree(writes: seq<WriteMap>, n: nat, r: Register, v: Word)
    returns (states: seq<Registers>)
    requires 0 < n <= |writes| && TablesHaveGaps(writes) && r in writes[n - 1]
    requires Outcome(writes[n - 1][r], r, Evaluated(writes, n - 1, NOTHING)).None?
    ensures |states| == n && Execution(writes, states) && MayWrite(writes[n - 1][r], r, states[n - 1], v)
    decreases n, 0
  {
    hide Evaluated;
    var before := Evaluated(writes, n - 1, NOTHING);
    match writes[n - 1][r] {
      case Unknown => states := SomeExecution(writes, n - 1);
      case Unrecognised => states := SomeExecution(writes, n - 1);
      case Copy(source) => states := UnknownIsFree(writes, n - 1, source, v);
      case Offset(delta) =>
        states := UnknownIsFree(writes, n - 1, r, Wrap(v - delta));
        WrapBack(v, delta);
      case Address(base, displacement) =>
        states := UnknownIsFree(writes, n - 1, base, Wrap(v - displacement));
        WrapBack(v, displacement);
      case GotLoad(base, displacement, entries) =>
        if before(base).Some? {
          states := SomeExecution(writes, n - 1);
          KnownHolds(writes, n - 1, base, states);
        } else {
          assert HasGap(writes[n - 1][r].entries);
          var a: Word :| a !in entries;
          states := UnknownIsFree(writes, n - 1, base, Wrap(a - displacement));
          WrapBack(a, displacement);
        }
    }
  }

  /** The answer in a block that nothing precedes: a value is returned if and only if all executions of the block have
      it. */
  lemma AnswersExactlyTheDetermined(g: Graph, b: BlockId, n: nat, r: Register, v: Word)
    requires b in g && n <= |g[b].writes| && n <= 128 && g[b].preds == []
    requires TablesHaveGaps(g[b].writes)
    ensures Resolve(g, b, n, r, {}) == Some(v) <==> Determined(g[b].writes, n, r, v)
  {
    hide Resolve;
    hide Evaluated;
    hide Execution;
    var writes := g[b].writes;
    BlockExact(g, b, n, r);
    if Evaluated(writes, n, NOTHING)(r).Some? {
      forall states: seq<Registers> | |states| == n + 1 && Execution(writes, states)
        ensures states[n](r) == Evaluated(writes, n, NOTHING)(r).value
      {
        KnownHolds(writes, n, r, states);
      }
      var states := SomeExecution(writes, n);
    } else {
      var states := UnknownIsFree(writes, n, r, if v == 0 then 1 else 0);
    }
  }
}
