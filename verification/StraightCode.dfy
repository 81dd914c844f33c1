/** Codes of one straight chain: what the recovery makes of them, and how they run. */
module StraightCode {
  import opened Outcomes
  import opened Bytes
  import opened AffineModel
  import opened AffineFlow
  import opened AffineSoundness
  import opened AffineExact
  import opened StrideRecovery
  import opened StrideMeaning

  const STRIDE := 0x5000

  // Codes with one chain

  function Line(op: Operation): Instruction {
    Instruction(false, op)
  }

  /** A mask of eax, a straight line of code, and the draw-player call. */
  function Code(body: seq<Operation>): seq<Instruction> {
    [Line(And(Reg(Eax)))] + seq(|body|, n requires 0 <= n < |body| => Line(body[n])) + [Line(Call(true))]
  }

  predicate Straight(body: seq<Operation>) {
    |body| < MAX_CHAIN_INSTRUCTIONS && forall n :: 0 <= n < |body| ==> !body[n].And? && !body[n].Call?
  }

  /** The facts behind a straight line of code. */
  function FactsAfter(body: seq<Operation>): Option<Facts> {
    if body == [] then Some(Seed(Eax))
    else
      var before := FactsAfter(body[..|body| - 1]);
      if before.None? then None else Transfer(before.value, body[|body| - 1])
  }

  function StandingAfter(body: seq<Operation>): Standing {
    if body == [] then NOTHING_STANDS else Stand(StandingAfter(body[..|body| - 1]), body[|body| - 1])
  }

  lemma {:induction false} ChainFacts(body: seq<Operation>, n: nat)
    requires 0 < n <= |body| + 1
    ensures FactsAt(Code(body), 0, n) == FactsAfter(body[..n - 1])
    ensures StandingAt(Code(body), 0, n) == StandingAfter(body[..n - 1])
  {
    hide Transfer;
    hide Stand;
    if n > 1 {
      ChainFacts(body, n - 1);
      assert body[..n - 1][..n - 2] == body[..n - 2];
      assert Code(body)[n - 1] == Line(body[n - 2]);
    }
  }

  lemma CodeLines(body: seq<Operation>, n: nat)
    requires Straight(body) && n < |body| + 2
    ensures |Code(body)| == |body| + 2 && !Code(body)[n].join
    ensures Code(body)[n].operation
         == if n == 0 then And(Reg(Eax)) else if n <= |body| then body[n - 1] else Call(true)
  {}

  lemma OnlyChain(body: seq<Operation>, i: nat, c: nat)
    requires Straight(body) && ReachesPlayer(Code(body), i, c)
    ensures i == 0 && c == |body| + 1
  {
    hide FactsAt;
    CodeLines(body, 0);
    CodeLines(body, i);
    CodeLines(body, c);
    hide Code;
  }

  lemma ReachesEnd(body: seq<Operation>)
    requires Straight(body) && FactsAfter(body).Some?
    ensures ReachesPlayer(Code(body), 0, |body| + 1)
    ensures FactsAt(Code(body), 0, |body| + 1) == FactsAfter(body)
    ensures StandingAt(Code(body), 0, |body| + 1) == StandingAfter(body)
  {
    CodeLines(body, 0);
    CodeLines(body, |body| + 1);
    ChainFacts(body, |body| + 1);
    assert body[..|body|] == body;
    hide FactsAt;
    hide StandingAt;
    hide Code;
  }

  lemma OnlyCall(body: seq<Operation>, c: nat)
    requires Straight(body) && PlayerCall(Code(body), c)
    ensures c == |body| + 1
  {
    CodeLines(body, 0);
    CodeLines(body, c);
    hide Code;
  }

  /** Its only chain decides what is recovered. */
  lemma OneChain(body: seq<Operation>, v: int)
    requires Straight(body) && FactsAfter(body).Some? && Values(FactsAfter(body).value) == {v}
    ensures ReachesPlayer(Code(body), 0, |body| + 1) && Recovered(Code(body), v)
  {
    var code, c := Code(body), |body| + 1;
    ReachesEnd(body);
    ReachesInside(code, 0, c);
    assert ValuesAt(code, 0, c) == {v};
    forall i: nat, c': nat | ReachesPlayer(code, i, c')
      ensures ValuesAt(code, i, c') <= {v}
    {
      OnlyChain(body, i, c');
    }
    forall c' | PlayerCall(code, c')
      ensures exists i: nat :: ReachesPlayer(code, i, c') && ValuesAt(code, i, c') == {v}
    {
      OnlyCall(body, c');
      assert ReachesPlayer(code, 0, c');
    }
  }

  // Runs of such a code

  function Final(body: seq<Operation>, s: State): State {
    if body == [] then s else Exec(NoSymbols(), body[|body| - 1], Final(body[..|body| - 1], s))
  }

  function Trace(body: seq<Operation>, s: State): seq<State> {
    seq(|body| + 1, n requires 0 <= n <= |body| => Final(body[..n], s))
  }

  lemma TraceRuns(body: seq<Operation>, s: State)
    requires Straight(body)
    ensures |Code(body)| == |body| + 2 && IsRun(NoSymbols(), Code(body), 0, |body| + 1, Trace(body, s))
    ensures |Trace(body, s)| == |body| + 1 && Trace(body, s)[0] == s && Trace(body, s)[|body|] == Final(body, s)
  {
    hide Runs;
    hide Exec;
    CodeLines(body, 0);
    assert body[..0] == [] && body[..|body|] == body;
    forall n | 0 < n < |body| + 1
      ensures Runs(NoSymbols(), Code(body)[n].operation, Trace(body, s)[n - 1], Trace(body, s)[n])
    {
      CodeLines(body, n);
      assert body[..n][..n - 1] == body[..n - 1];
      ExecRuns(NoSymbols(), body[n - 1], Trace(body, s)[n - 1]);
    }
  }

  /** The index in eax, 0x1000 in esp, the address of the frame argument in ebx, 3 in edx, and zeros. */
  function Start(index: Word): State {
    State((r: Register) => if r == Eax then index else if r == Esp then 0x1000 else if r == Ebx then 0x1004
                           else if r == Edx then 3 else 0, x => 0)
  }

  lemma StartsApart()
    ensures Apart(Eax, Start(0), Start(1), 1) && Start(0).memory == Start(1).memory
  {
    assert Turns(0, 1, 1, 1, 0);
  }

  /** Runs that start one apart and do not end a stride apart show that the code misleads. */
  lemma RunsMislead(body: seq<Operation>)
    requires Straight(body) && FactsAfter(body).Some?
    requires var x, y := FrameArgument(Final(body, Start(0))), FrameArgument(Final(body, Start(1)));
             0 < STRIDE - (y - x) < WORD || 0 < y - x - STRIDE < WORD
    ensures ReachesPlayer(Code(body), 0, |body| + 1) && Misled(Code(body), 0, |body| + 1, STRIDE)
  {
    hide Final;
    hide Trace;
    hide Start;
    hide FactsAfter;
    hide Code;
    hide IsRun;
    hide Apart;
    hide Differ;
    hide FrameArgument;
    var code, c := Code(body), |body| + 1;
    ReachesEnd(body);
    hide FactsAt;
    CodeLines(body, 0);
    TraceRuns(body, Start(0));
    TraceRuns(body, Start(1));
    StartsApart();
    NotDiffer(FrameArgument(Final(body, Start(0))), FrameArgument(Final(body, Start(1))));
    assert |Trace(body, Start(0))| == c == |Trace(body, Start(1))|;
    assert WrongRuns(NoSymbols(), code, 0, c, STRIDE, Trace(body, Start(0)), Trace(body, Start(1)), 1);
  }

  lemma NotDiffer(x: Word, y: Word)
    requires 0 < STRIDE - (y - x) < WORD || 0 < y - x - STRIDE < WORD
    ensures !Differ(x, y, STRIDE, 1)
  {
    forall q: int
      ensures !Turns(x, y, STRIDE, 1, q)
    {}
  }

  // Their instructions

  lemma Grows(body: seq<Operation>, op: Operation, s: State)
    ensures FactsAfter(body + [op]) == if FactsAfter(body).None? then None else Transfer(FactsAfter(body).value, op)
    ensures StandingAfter(body + [op]) == Stand(StandingAfter(body), op)
    ensures Final(body + [op], s) == Exec(NoSymbols(), op, Final(body, s))
  {
    assert (body + [op])[..|body|] == body;
  }

  function Multiply(): Operation {
    Imul(Reg(Eax), Reg(Eax), Const(Some(STRIDE)))
  }

  function StoreArgument(r: Register): Operation {
    Mov(StackOperand(4), Reg(r))
  }

  function Cell(): Operand {
    Mem([Term(false, Ebx, 1)], 0, None)
  }

  /** What the recovery knows behind a line of code. */
  ghost predicate Knows(body: seq<Operation>, eax: int, ecx: int, pushed: seq<Coefficient>,
                        stores: map<int, Coefficient>, st: Standing) {
    && FactsAfter(body).Some? && StandingAfter(body) == st
    && FactsAfter(body).value.registers(Eax) == Some(eax) && FactsAfter(body).value.registers(Ecx) == Some(ecx)
    && FactsAfter(body).value.registers(Ebx) == FactsAfter(body).value.registers(Esp) == Some(0)
    && FactsAfter(body).value.pushed == pushed && FactsAfter(body).value.stores == stores
  }

  lemma KnowsStart()
    ensures Knows([], 1, 0, [], map[], NOTHING_STANDS)
  {}

  // The facts behind each instruction

  lemma AfterWrite(f: Facts, op: Operation, r: Register, c: Coefficient)
    requires op == Multiply() || op == Mov(Reg(Ecx), Cell()) || op == Add(Reg(Eax), Reg(Ecx)) || op == WideImul(Reg(Edx))
    requires f.registers(Ebx) == Some(0) && f.registers(Eax).Some? && f.registers(Ecx).Some?
    requires r == if op.WideImul? then Edx else if op.Mov? then Ecx else Eax
    requires c == if op.WideImul? then None
                  else if op.Mov? then Some(0)
                  else if op.Imul? then Some(f.registers(Eax).value * STRIDE)
                  else Some(f.registers(Eax).value + f.registers(Ecx).value)
    ensures Transfer(f, op) == Some(f.(registers := Updated(f.registers, r, c)))
  {}

  lemma StillNothing(op: Operation)
    requires op == Multiply() || op == Mov(Reg(Ecx), Cell()) || op == Add(Reg(Eax), Reg(Ecx)) || op == WideImul(Reg(Edx))
    ensures Stand(NOTHING_STANDS, op) == NOTHING_STANDS
  {}

  /** A register gets a new coefficient while nothing is on the stack. */
  lemma KnowsWrite(body: seq<Operation>, op: Operation, eax: int, ecx: int)
    requires Knows(body, eax, ecx, [], map[], NOTHING_STANDS)
    requires op == Multiply() || op == Mov(Reg(Ecx), Cell()) || op == Add(Reg(Eax), Reg(Ecx)) || op == WideImul(Reg(Edx))
    ensures Knows(body + [op], if op.Imul? then eax * STRIDE else if op.Add? then eax + ecx else eax,
                  if op.Mov? then 0 else ecx, [], map[], NOTHING_STANDS)
  {
    hide FactsAfter;
    hide StandingAfter;
    hide Transfer;
    hide Stand;
    Grows(body, op, Start(0));
    StillNothing(op);
    var r := if op.WideImul? then Edx else if op.Mov? then Ecx else Eax;
    var c := if op.WideImul? then None else if op.Mov? then Some(0) else if op.Imul? then Some(eax * STRIDE) else Some(eax + ecx);
    AfterWrite(FactsAfter(body).value, op, r, c);
  }

  lemma AfterStore(f: Facts, r: Register)
    ensures Transfer(f, StoreArgument(r)) == Some(f.(stores := f.stores[4 := f.registers(r)]))
    ensures forall st: Standing :: Stand(st, StoreArgument(r)) == Standing(if st.pushes == 0 then 0 else 1, true)
  {
    assert StoreArgument(r).dst.terms[0].register == Esp;
  }

  lemma KnowsStore(body: seq<Operation>, r: Register, eax: int, ecx: int, pushed: seq<Coefficient>, st: Standing)
    requires Knows(body, eax, ecx, pushed, map[], st) && (r == Eax || r == Ecx)
    ensures Knows(body + [StoreArgument(r)], eax, ecx, pushed, map[4 := Some(if r == Eax then eax else ecx)],
                  Standing(if st.pushes == 0 then 0 else 1, true))
  {
    hide FactsAfter;
    hide StandingAfter;
    hide Transfer;
    hide Stand;
    Grows(body, StoreArgument(r), Start(0));
    AfterStore(FactsAfter(body).value, r);
  }

  lemma AfterPush(f: Facts, src: Operand)
    requires f.stores == map[] && (src.Reg? || src == Const(Some(0)) || src == Part(Ecx, LowHalf))
    ensures Transfer(f, Push(src)) == Some(f.(pushed := f.pushed + [if src.Reg? then f.registers(src.register) else Some(0)]))
  {}

  lemma KnowsPush(body: seq<Operation>, src: Operand, eax: int, ecx: int, pushed: seq<Coefficient>, st: Standing)
    requires Knows(body, eax, ecx, pushed, map[], st) && (src == Reg(Eax) || src == Const(Some(0)) || src == Part(Ecx, LowHalf))
    ensures Knows(body + [Push(src)], eax, ecx, pushed + [Some(if src == Reg(Eax) then eax else 0)], map[],
                  Standing(if st.pushes == 0 then 1 else 2, false))
  {
    hide FactsAfter;
    hide StandingAfter;
    hide Transfer;
    Grows(body, Push(src), Start(0));
    AfterPush(FactsAfter(body).value, src);
  }

  lemma AfterAddedSlot(f: Facts)
    ensures Transfer(f, Add(StackOperand(4), Reg(Eax))) == Some(f)
    ensures Stand(Standing(0, true), Add(StackOperand(4), Reg(Eax))) == NOTHING_STANDS
  {}

  lemma AfterPointer(f: Facts, st: Standing, r: Register)
    ensures Transfer(f, Mov(Cell(), Reg(r))) == Some(f)
    ensures Stand(st, Mov(Cell(), Reg(r))) == NOTHING_STANDS
  {
    assert Cell().terms[0] != Term(false, Esp, 1);
    assert Cell().terms != [Term(false, Esp, 1)];
  }

  /** A write to memory that leaves the facts as they are. */
  lemma KnowsOverwritten(body: seq<Operation>, op: Operation, eax: int, ecx: int, stores: map<int, Coefficient>,
        st: Standing)
    requires Knows(body, eax, ecx, [], stores, st)
    requires (op == Add(StackOperand(4), Reg(Eax)) && st == Standing(0, true)) || op == Mov(Cell(), Reg(Eax)) || op == Mov(Cell(), Reg(Ecx))
    ensures Knows(body + [op], eax, ecx, [], stores, NOTHING_STANDS)
  {
    hide FactsAfter;
    hide StandingAfter;
    hide Transfer;
    hide Stand;
    Grows(body, op, Start(0));
    if op.Add? {
      AfterAddedSlot(FactsAfter(body).value);
    } else {
      AfterPointer(FactsAfter(body).value, st, op.src.register);
    }
  }

  lemma AfterDrop(f: Facts, st: Standing)
    requires f.stores == map[] && f.registers(Esp).Some?
    ensures Transfer(f, Add(Reg(Esp), Const(Some(8)))) == Some(f.(registers := Updated(f.registers, Esp, f.registers(Esp))))
    ensures Stand(st, Add(Reg(Esp), Const(Some(8)))) == NOTHING_STANDS
  {}

  lemma KnowsDropped(body: seq<Operation>, eax: int, ecx: int, pushed: seq<Coefficient>, st: Standing)
    requires Knows(body, eax, ecx, pushed, map[], st)
    ensures Knows(body + [Add(Reg(Esp), Const(Some(8)))], eax, ecx, pushed, map[], NOTHING_STANDS)
  {
    hide FactsAfter;
    hide StandingAfter;
    hide Transfer;
    hide Stand;
    Grows(body, Add(Reg(Esp), Const(Some(8))), Start(0));
    AfterDrop(FactsAfter(body).value, st);
  }

  lemma Argument(body: seq<Operation>, eax: int, ecx: int, pushed: seq<Coefficient>, stores: map<int, Coefficient>,
        st: Standing)
    requires Knows(body, eax, ecx, pushed, stores, st)
    requires (stores == map[4 := Some(STRIDE)] && pushed == [])
          || (pushed == [Some(STRIDE), Some(0)] && (stores == map[] || stores == map[4 := Some(0)]))
    ensures FactsAfter(body).Some? && Values(FactsAfter(body).value) == {STRIDE} && StandingAfter(body) == st
  {
    var f := FactsAfter(body).value;
    assert Arguments(f) == if pushed == [] then [Some(STRIDE)] else if stores == map[] then [Some(STRIDE)] else [Some(STRIDE), Some(0)];
    hide Arguments;
    assert Some(STRIDE) in Arguments(f);
    assert STRIDE in Values(f);
  }

  /** Registers and frame argument of a state. */
  ghost predicate At(s: State, eax: int, ecx: int, edx: int, esp: int, argument: int) {
    && s.registers(Eax) == eax && s.registers(Ecx) == ecx && s.registers(Edx) == edx && s.registers(Esp) == esp
    && s.registers(Ebx) == 0x1004 && FrameArgument(s) == argument
  }

  lemma AtStart(index: Word)
    ensures Final([], Start(index)) == Start(index) && At(Start(index), index, 0, 3, 0x1000, 0)
  {}

  lemma ArgumentKept(op: Operation, s: State)
    requires !WritesMemory(op) && Written(op) != Some(Esp)
    ensures FrameArgument(Exec(NoSymbols(), op, s)) == FrameArgument(s)
  {
    hide WordAt;
    hide ValueLeft;
    hide ValueOf;
    hide WideEax;
    hide WideEdx;
  }

  lemma RunMultiply(s: State, eax: int, ecx: int, edx: int, esp: int, argument: int)
    requires At(s, eax, ecx, edx, esp, argument) && eax < 0x1_0000
    ensures At(Exec(NoSymbols(), Multiply(), s), eax * STRIDE, ecx, edx, esp, argument)
  {
    ArgumentKept(Multiply(), s);
    hide FrameArgument;
  }

  lemma RunStore(s: State, r: Register, eax: int, ecx: int, edx: int, esp: int, argument: int)
    requires At(s, eax, ecx, edx, esp, argument) && (r == Eax || r == Ecx)
    ensures At(Exec(NoSymbols(), StoreArgument(r), s), eax, ecx, edx, esp, if r == Eax then eax else ecx)
  {
    var t := Exec(NoSymbols(), StoreArgument(r), s);
    ExecRuns(NoSymbols(), StoreArgument(r), s);
    SlotHoldsSource(NoSymbols(), StoreArgument(r), s, t);
    hide StackWord;
    hide Runs;
    hide Put;
    hide WriteAddress;
  }

  lemma RegistersKept(op: Operation, s: State)
    requires Written(op).None? && !op.Push? && !op.WideImul?
    ensures Exec(NoSymbols(), op, s).registers == s.registers
  {
    hide Put;
    hide ValueLeft;
  }

  lemma WrittenWord(op: Operation, s: State)
    requires WritesMemory(op)
    ensures var x := WriteAddress(op, s);
            Leaves(NoSymbols(), op, s, WordAt(s.memory, x), WordAt(Exec(NoSymbols(), op, s).memory, x))
  {
    hide WordAt;
    hide Exec;
    hide Leaves;
    hide WriteAddress;
    hide KeptOutside;
    ExecMemory(NoSymbols(), op, s);
  }

  lemma SlotSum(s: State, t: State)
    requires t == Exec(NoSymbols(), Add(StackOperand(4), Reg(Eax)), s)
    ensures t.registers == s.registers && StackWord(t, 4) == (StackWord(s, 4) + s.registers(Eax)) % WORD
  {
    hide Exec;
    hide WordAt;
    var op := Add(StackOperand(4), Reg(Eax));
    RegistersKept(op, s);
    WrittenWord(op, s);
    EspAddress(op.dst, s);
    hide Address;
    var x := (s.registers(Esp) + 4) % WORD;
    assert WriteAddress(op, s) == x;
    assert WordAt(t.memory, x) == (WordAt(s.memory, x) + s.registers(Eax)) % WORD;
    SameWord(s.memory, s.registers(Esp) + 4, x);
    SameWord(t.memory, s.registers(Esp) + 4, x);
  }

  lemma RunAddedSlot(s: State, eax: int, ecx: int, edx: int, esp: int, argument: int)
    requires At(s, eax, ecx, edx, esp, argument) && argument + eax < WORD
    ensures At(Exec(NoSymbols(), Add(StackOperand(4), Reg(Eax)), s), eax, ecx, edx, esp, argument + eax)
  {
    hide Exec;
    hide StackWord;
    hide Encodable;
    SlotSum(s, Exec(NoSymbols(), Add(StackOperand(4), Reg(Eax)), s));
  }

  lemma CellAddress(s: State)
    requires s.registers(Ebx) == 0x1004
    ensures Address(Cell(), s) == 0x1004
  {
    assert Cell().terms == [Term(false, Ebx, 1)];
    assert TermSum(Cell().terms[..0], s.registers) == 0;
    assert TermSum(Cell().terms, s.registers) == s.registers(Ebx);
  }

  lemma RunPointer(s: State, r: Register, eax: int, ecx: int, edx: int, argument: int)
    requires At(s, eax, ecx, edx, 0x1000, argument) && (r == Eax || r == Ecx)
    ensures At(Exec(NoSymbols(), Mov(Cell(), Reg(r)), s), eax, ecx, edx, 0x1000, if r == Eax then eax else ecx)
  {
    hide Exec;
    hide WordAt;
    RegistersKept(Mov(Cell(), Reg(r)), s);
    WrittenWord(Mov(Cell(), Reg(r)), s);
    CellAddress(s);
    hide Address;
  }

  lemma RunLoad(s: State, eax: int, ecx: int, edx: int, argument: int)
    requires At(s, eax, ecx, edx, 0x1000, argument)
    ensures At(Exec(NoSymbols(), Mov(Reg(Ecx), Cell()), s), eax, argument, edx, 0x1000, argument)
  {
    CellAddress(s);
    hide WordAt;
    hide Address;
    ArgumentKept(Mov(Reg(Ecx), Cell()), s);
  }

  lemma RunSum(s: State, eax: int, ecx: int, edx: int, esp: int, argument: int)
    requires At(s, eax, ecx, edx, esp, argument) && eax + ecx < WORD
    ensures At(Exec(NoSymbols(), Add(Reg(Eax), Reg(Ecx)), s), eax + ecx, ecx, edx, esp, argument)
  {
    ArgumentKept(Add(Reg(Eax), Reg(Ecx)), s);
    hide FrameArgument;
  }

  lemma WideThree(eax: Word)
    requires eax == 0 || eax == 1
    ensures WideEax(Reg(Edx), eax, 3) == 3 * eax && WideEdx(Reg(Edx), eax, 3, 3) == 0
  {
    Powers16();
    hide Power2;
    SignedSmall(eax, 32);
    SignedSmall(3, 32);
    hide Signed;
    assert WideProduct(Reg(Edx), eax, 3) == eax * 3;
    hide WideProduct;
  }

  lemma RunWide(s: State, eax: int, ecx: int, esp: int, argument: int)
    requires At(s, eax, ecx, 3, esp, argument) && (eax == 0 || eax == 1)
    ensures At(Exec(NoSymbols(), WideImul(Reg(Edx)), s), 3 * eax, ecx, 0, esp, argument)
  {
    ArgumentKept(WideImul(Reg(Edx)), s);
    WideThree(eax);
    hide FrameArgument;
    hide WideEax;
    hide WideEdx;
  }

  lemma RunPush(s: State, src: Operand, eax: int, ecx: int, edx: int, esp: int)
    requires At(s, eax, ecx, edx, esp, FrameArgument(s)) && esp >= 4 && !src.Part?
    ensures var t := Exec(NoSymbols(), Push(src), s);
            At(t, eax, ecx, edx, esp - 4, FrameArgument(t))
  {
    hide Put;
    hide ValueLeft;
    hide FrameArgument;
  }

  lemma PushPuts(s: State, src: Operand)
    requires !src.Part? && 4 <= s.registers(Esp)
    ensures var t := Exec(NoSymbols(), Push(src), s);
            t.registers(Esp) == s.registers(Esp) - 4 && t.memory == Put(s.memory, s.registers(Esp) - 4,
                        ValueOf(NoSymbols(), src, s), 4)
  {
    hide Put;
    hide ValueOf;
  }

  lemma PutKeeps(m: Memory, x: int, v: Word)
    ensures KeptOutside(m, Put(m, x, v, 4), x, 4)
  {}

  /** A word above the stack is not touched by a push. */
  lemma AbovePush(s: State, src: Operand)
    requires !src.Part? && 4 <= s.registers(Esp) <= 0x1000
    ensures WordAt(Exec(NoSymbols(), Push(src), s).memory, 0x1004) == WordAt(s.memory, 0x1004)
  {
    hide Exec;
    hide Put;
    hide WordAt;
    hide KeptOutside;
    var x: int, v := s.registers(Esp) - 4, ValueOf(NoSymbols(), src, s);
    PushPuts(s, src);
    PutKeeps(s.memory, x, v);
    WordKept(s.memory, Put(s.memory, x, v, 4), x, 0x1004, 4);
  }

  lemma RunDrop(s: State, eax: int, ecx: int, edx: int)
    requires At(s, eax, ecx, edx, 0xFF8, FrameArgument(s))
    ensures FrameArgument(Exec(NoSymbols(), Add(Reg(Esp), Const(Some(8))), s)) == WordAt(s.memory, 0x1004)
  {
    hide WordAt;
  }

  lemma PutSmall(m: Memory, v: Word, y: int)
    requires v < 0x1_0000 && 0xFFE <= y <= 0x1001
    ensures Put(m, 0xFFC, v, 4)(y) == if y < 0x1000 then 0 else m(y)
  {
    assert (y - 0xFFC) % WORD == y - 0xFFC;
    assert PutByte(v, 2) == 0 && PutByte(v, 3) == 0;
  }

  lemma DoublePushed(s: State, y: int)
    requires s.registers(Esp) == 0x1000 && s.registers(Eax) < 0x1_0000 && 0xFFE <= y <= 0x1001
    ensures var u := Exec(NoSymbols(), Push(Reg(Eax)), s);
            u.registers(Esp) == 0xFFC && u.memory(y) == if y < 0x1000 then 0 else s.memory(y)
  {
    hide Exec;
    hide Put;
    PushPuts(s, Reg(Eax));
    PutSmall(s.memory, s.registers(Eax), y);
  }

  lemma HalfWordPushed(u: State, y: int)
    requires u.registers(Esp) == 0xFFC && 0xFFE <= y <= 0x1001
    ensures var t := Exec(NoSymbols(), Push(Part(Ecx, LowHalf)), u);
            t.registers(Esp) == 0xFFA && t.memory(y) == u.memory(y)
  {
    hide ValueOf;
    hide PutByte;
    hide WordAt;
  }

  lemma ZeroWord(m: Memory)
    requires m(0xFFE) == 0 && m(0xFFF) == 0 && m(0x1000) == 0 && m(0x1001) == 0
    ensures WordAt(m, 0xFFE) == 0
  {}

  /** Behind a double word and a half word pushed, the frame argument begins with the double word's high half. */
  lemma RunHalfPush(s: State, eax: Word)
    requires At(s, eax, 0, 3, 0x1000, 0) && eax < 0x1_0000 && s.memory(0x1000) == 0 && s.memory(0x1001) == 0
    ensures FrameArgument(Exec(NoSymbols(), Push(Part(Ecx, LowHalf)), Exec(NoSymbols(), Push(Reg(Eax)), s))) == 0
  {
    hide Exec;
    hide WordAt;
    var u := Exec(NoSymbols(), Push(Reg(Eax)), s);
    var t := Exec(NoSymbols(), Push(Part(Ecx, LowHalf)), u);
    forall y | 0xFFE <= y <= 0x1001
      ensures u.registers(Esp) == 0xFFC && u.memory(y) == if y < 0x1000 then 0 else s.memory(y)
      ensures t.registers(Esp) == 0xFFA && t.memory(y) == u.memory(y)
    {
      DoublePushed(s, y);
      HalfWordPushed(u, y);
    }
    assert t.memory(0xFFE) == 0 && t.memory(0xFFF) == 0 && t.memory(0x1000) == 0 && t.memory(0x1001) == 0;
    assert t.registers(Esp) == 0xFFA;
    ZeroWord(t.memory);
  }

  // Misleading codes

  predicate LoadsFirst(body: seq<Operation>) {
    forall m, n :: 0 <= m < n < |body| && WritesMemory(body[m]) ==>
      Source(body[n]).Some? ==> !Source(body[n]).value.Mem?
  }

  lemma Conditions(body: seq<Operation>)
    requires Straight(body)
    ensures |Code(body)| == |body| + 2
    ensures ChainEncodable(Code(body), 0, |body| + 1) <==> forall n :: 0 <= n < |body| ==> Encodable(body[n])
    ensures ChainTracked(Code(body), 0, |body| + 1) <==> forall n :: 0 <= n < |body| ==> Tracked(body[n])
    ensures LoadsBeforeWrites(Code(body), 0, |body| + 1) <==> LoadsFirst(body)
  {
    hide Encodable;
    hide Tracked;
    hide WritesMemory;
    hide Source;
    var code := Code(body);
    CodeLines(body, 0);
    forall n: nat | n < |body|
      ensures code[n + 1].operation == body[n]
    {
      CodeLines(body, n + 1);
    }
    hide Code;
    assert forall n: nat :: 0 < n < |body| + 1 ==> code[n].operation == body[n - 1];
  }

  /** The recovery returns this stride for a code in which one chain reaches the call, and is misled, although the code
      meets those conditions for a faithful one that are said to hold. */
  ghost predicate MisleadsWith(code: seq<Instruction>, c: nat, tracked: bool, loadsFirst: bool, stands: bool) {
    && Recovered(code, STRIDE) && ReachesPlayer(code, 0, c) && ChainEncodable(code, 0, c)
    && Misled(code, 0, c, STRIDE)
    && ChainTracked(code, 0, c) == tracked && LoadsBeforeWrites(code, 0, c) == loadsFirst && Stands(code, 0, c, STRIDE) == stands
  }

  lemma RecordedStands(body: seq<Operation>, eax: int, ecx: int, pushed: seq<Coefficient>,
                        stores: map<int, Coefficient>, st: Standing)
    requires Straight(body) && Knows(body, eax, ecx, pushed, stores, st)
    ensures ReachesPlayer(Code(body), 0, |body| + 1)
    ensures Stands(Code(body), 0, |body| + 1, STRIDE)
         == ((st.pushes == 2 && |pushed| >= 2 && pushed[|pushed| - 2..] == [Some(STRIDE), Some(0)])
             || (st.stored && 4 in stores && stores[4] == Some(STRIDE)))
  {
    ReachesEnd(body);
    hide Code;
    hide FactsAt;
    hide StandingAt;
    hide FactsAfter;
    hide StandingAfter;
  }

  lemma Finding(body: seq<Operation>, eax: int, ecx: int, pushed: seq<Coefficient>, stores: map<int, Coefficient>,
        st: Standing,
        argument: int)
    requires Straight(body) && (forall n :: 0 <= n < |body| ==> Encodable(body[n])) && Knows(body, eax, ecx, pushed, stores, st)
    requires (stores == map[4 := Some(STRIDE)] && pushed == [])
          || (pushed == [Some(STRIDE), Some(0)] && (stores == map[] || stores == map[4 := Some(0)]))
    requires FrameArgument(Final(body, Start(0))) == 0 && FrameArgument(Final(body, Start(1))) == argument
    requires 0 <= argument < WORD && argument != STRIDE
    ensures MisleadsWith(Code(body), |body| + 1, forall n :: 0 <= n < |body| ==> Tracked(body[n]), LoadsFirst(body),
                         (st.pushes == 2 && pushed == [Some(STRIDE), Some(0)]) || (st.stored && stores == map[4 := Some(STRIDE)]))
  {
    hide Knows;
    hide Final;
    hide FrameArgument;
    hide Encodable;
    hide Tracked;
    hide LoadsFirst;
    hide Code;
    hide FactsAfter;
    hide Values;
    hide Stands;
    hide Recovered;
    hide Misled;
    hide ChainEncodable;
    hide ChainTracked;
    hide LoadsBeforeWrites;
    Argument(body, eax, ecx, pushed, stores, st);
    OneChain(body, STRIDE);
    RunsMislead(body);
    Conditions(body);
    RecordedStands(body, eax, ecx, pushed, stores, st);
  }
}
