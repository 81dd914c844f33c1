/** Exactly which instructions the affine dataflow follows correctly. */
module AffineExact {
  import opened Outcomes
  import opened Bytes
  import opened AffineModel
  import opened AffineFlow
  import opened AffineSoundness

  /** Two states that are alike but for a distance `d` in one register. */
  ghost predicate Apart(masked: Register, a: State, b: State, d: int) {
    && Differ(a.registers(masked), b.registers(masked), 1, d)
    && forall r :: r != masked ==> a.registers(r) == b.registers(r)
  }

  const NOTHING_STANDS := Standing(0, false)

  lemma SeedHolds(masked: Register, a: State, b: State, d: int)
    requires Apart(masked, a, b, d)
    ensures Holds(Seed(masked), NOTHING_STANDS, a, b, d)
  {
    hide Differ;
    forall r: Register | r != masked
      ensures Differ(a.registers(r), b.registers(r), 0, d)
    {
      SameDiffer(a.registers(r), d);
    }
  }

  // One step

  /** The facts hold before two runs of the instruction whose loads agree, and the dataflow goes on. */
  ghost predicate StepStarts(symbols: Operand -> Word, op: Operation, f: Facts, st: Standing,
      a: State, b: State, a': State, b': State, d: int) {
    Transfer(f, op).Some? && LoadsAgree(op, a, b) && Holds(f, st, a, b, d) &&
    Runs(symbols, op, a, a') && Runs(symbols, op, b, b')
  }

  /** Then they hold after it. */
  ghost predicate StepKeeps(symbols: Operand -> Word, op: Operation, f: Facts, st: Standing,
      a: State, b: State, a': State, b': State, d: int) {
    StepStarts(symbols, op, f, st, a, b, a', b', d) ==> Holds(Transfer(f, op).value, Stand(st, op), a', b', d)
  }

  /** For all facts and all runs whose loads agree. */
  ghost predicate SoundStep(op: Operation) {
    forall symbols: Operand -> Word, f, st, a, b, a', b', d :: StepKeeps(symbols, op, f, st, a, b, a', b', d)
  }

  function NoSymbols(): Operand -> Word {
    o => 0
  }

  /** One register holds `v`, the others `w`, and every byte of memory is `cell`. */
  function Flat(r: Register, v: Word, w: Word, cell: Byte): State {
    State((x: Register) => if x == r then v else w, x => cell)
  }

  lemma FlatApart(r: Register, v: Word, v': Word, w: Word, cell: Byte)
    ensures Apart(r, Flat(r, v, w, cell), Flat(r, v', w, cell), v' - v)
  {
    assert Turns(v, v', 1, v' - v, 0);
  }

  /** Two runs from flat states refute an instruction if they end with facts that do not hold. */
  lemma Refuted(op: Operation, r: Register, v: Word, v': Word, w: Word, cell: Byte)
    requires Transfer(Seed(r), op).Some? && LoadsAgree(op, Flat(r, v, w, cell), Flat(r, v', w, cell))
    requires !Holds(Transfer(Seed(r), op).value, Stand(NOTHING_STANDS, op),
                    Exec(NoSymbols(), op, Flat(r, v, w, cell)), Exec(NoSymbols(), op, Flat(r, v', w, cell)), v' - v)
    ensures !SoundStep(op)
  {
    hide Transfer;
    hide Holds;
    hide Runs;
    hide LoadsAgree;
    hide Stand;
    hide Exec;
    hide Apart;
    hide Flat;
    hide Encodable;
    var a, b := Flat(r, v, w, cell), Flat(r, v', w, cell);
    FlatApart(r, v, v', w, cell);
    SeedHolds(r, a, b, v' - v);
    ExecRuns(NoSymbols(), op, a);
    ExecRuns(NoSymbols(), op, b);
    assert !StepKeeps(NoSymbols(), op, Seed(r), NOTHING_STANDS, a, b, Exec(NoSymbols(), op, a), Exec(NoSymbols(), op, b), v' - v);
  }

  lemma NotApart(x: int, y: int, k: int, d: int)
    requires 0 < y - x - k * d < WORD
    ensures !Differ(x, y, k, d)
  {
    forall q: int
      ensures !Turns(x, y, k, d, q)
    {}
  }

  // The one-operand multiplication

  lemma Powers16()
    ensures Power2(8) == 0x100 && Power2(16) == 0x1_0000 && Power2(32) == 0x1_0000_0000
  {
    Powers();
    assert Power2(12) == 0x1000;
  }

  /** A recorded coefficient that is not the distance of a register refutes the facts. */
  lemma RegisterRefutes(f: Facts, st: Standing, a: State, b: State, r: Register, k: int, d: int)
    requires f.registers(r) == Some(k) && 0 < b.registers(r) - a.registers(r) - k * d < WORD
    ensures !Holds(f, st, a, b, d)
  {
    hide StackWord;
    NotApart(a.registers(r), b.registers(r), k, d);
    hide Differ;
  }

  lemma WideRegisters(op: Operation, s: State)
    requires op.WideImul?
    ensures Exec(NoSymbols(), op, s).registers(Eax) == WideEax(op.src, s.registers(Eax), ValueOf(NoSymbols(), op.src, s))
    ensures Exec(NoSymbols(), op, s).registers(Edx)
         == WideEdx(op.src, s.registers(Eax), s.registers(Edx), ValueOf(NoSymbols(), op.src, s))
  {
    hide WideEax;
    hide WideEdx;
    hide ValueOf;
  }

  lemma NoLoad(op: Operation, a: State, b: State)
    requires Source(op).None? || Source(op).value.Part?
    ensures LoadsAgree(op, a, b)
  {}

  lemma WideTransfer(op: Operation)
    requires op.WideImul?
    ensures Transfer(Seed(Eax), op).Some?
    ensures Parent(op.src) != Some(Eax) ==> Transfer(Seed(Eax), op).value.registers(Eax) == Some(1)
    ensures Parent(op.src) == Some(Eax) ==> Transfer(Seed(Eax), op).value.registers(Edx) == Some(0)
  {}

  /** Whatever the index, another operand has this value. */
  function OtherValue(o: Operand): Word {
    if o.Mem? then 0x303_0303 else if o.Part? && !o.piece.LowHalf? then 3 else 0x303
  }

  lemma OtherValues(o: Operand, index: Word)
    requires !o.Const? && Parent(o) != Some(Eax)
    ensures ValueOf(NoSymbols(), o, Flat(Eax, index, 0x303, 3)) == OtherValue(o)
  {
    hide Address;
  }

  lemma SignedSmall(w: int, bits: nat)
    requires bits == 8 || bits == 16 || bits == 32
    requires 0 <= w && 2 * w < Power2(bits)
    ensures Signed(w, bits) == w
  {}

  lemma WideByOther(o: Operand)
    ensures WideEax(o, 0, OtherValue(o)) == 0 && WideEax(o, 1, OtherValue(o)) == OtherValue(o) > 1
  {
    Powers16();
    hide Power2;
    var v, bits := OtherValue(o), if !o.Part? then 32 else if o.piece.LowHalf? then 16 else 8;
    SignedSmall(0, bits);
    SignedSmall(1, bits);
    SignedSmall(v, bits);
    hide Signed;
    assert WideProduct(o, 0, v) == 0 * v;
    assert WideProduct(o, 1, v) == 1 * v;
    hide WideProduct;
  }

  lemma EaxWrong(op: Operation)
    requires op.WideImul? && Encodable(op) && Parent(op.src) != Some(Eax)
    ensures !Holds(Transfer(Seed(Eax), op).value, Stand(NOTHING_STANDS, op), Exec(NoSymbols(), op, Flat(Eax, 0, 0x303, 3)),
                   Exec(NoSymbols(), op, Flat(Eax, 1, 0x303, 3)), 1)
  {
    WideTransfer(op);
    OtherEax(op, 0);
    OtherEax(op, 1);
    WideByOther(op.src);
    hide *;
    RegisterRefutes(Transfer(Seed(Eax), op).value, Stand(NOTHING_STANDS, op),
      Exec(NoSymbols(), op, Flat(Eax, 0, 0x303, 3)),
                    Exec(NoSymbols(), op, Flat(Eax, 1, 0x303, 3)), Eax, 1, 1);
  }

  /** Another operand: the index in eax is multiplied by it. */
  lemma EaxMissed(op: Operation)
    requires op.WideImul? && Encodable(op) && Parent(op.src) != Some(Eax)
    ensures !SoundStep(op)
  {
    WideTransfer(op);
    NoLoad(op, Flat(Eax, 0, 0x303, 3), Flat(Eax, 1, 0x303, 3));
    hide *;
    EaxWrong(op);
    Refuted(op, Eax, 0, 1, 0x303, 3);
  }

  lemma OtherEax(op: Operation, index: Word)
    requires op.WideImul? && Encodable(op) && Parent(op.src) != Some(Eax)
    ensures Exec(NoSymbols(), op, Flat(Eax, index, 0x303, 3)).registers(Eax) == WideEax(op.src, index, OtherValue(op.src))
    ensures Source(op).None?
  {
    OtherValues(op.src, index);
    WideRegisters(op, Flat(Eax, index, 0x303, 3));
    hide Exec;
    hide ValueOf;
    hide WideEax;
  }

  function SquareIndex(o: Operand): Word {
    if o.Part? then 0x100 else 0x1_0000
  }

  lemma WideByItself(o: Operand, index: Word)
    requires Parent(o) == Some(Eax) && (o.Part? ==> o.piece.LowHalf?) && (index == 0 || index == SquareIndex(o))
    ensures ValueOf(NoSymbols(), o, Flat(Eax, index, 0, 0)) == index
    ensures WideEdx(o, index, 0, index) == if index == 0 then 0 else 1
  {
    Powers16();
    hide Power2;
  }

  lemma EdxWrong(op: Operation)
    requires op.WideImul? && Parent(op.src) == Some(Eax) && (op.src.Part? ==> op.src.piece.LowHalf?)
    ensures !Holds(Transfer(Seed(Eax), op).value, Stand(NOTHING_STANDS, op), Exec(NoSymbols(), op, Flat(Eax, 0, 0, 0)),
                   Exec(NoSymbols(), op, Flat(Eax, SquareIndex(op.src), 0, 0)), SquareIndex(op.src))
  {
    WideTransfer(op);
    SquareEdx(op, 0);
    SquareEdx(op, SquareIndex(op.src));
    assert SquareIndex(op.src) != 0;
    hide *;
    RegisterRefutes(Transfer(Seed(Eax), op).value, Stand(NOTHING_STANDS, op), Exec(NoSymbols(), op, Flat(Eax, 0, 0, 0)),
                    Exec(NoSymbols(), op, Flat(Eax, SquareIndex(op.src), 0, 0)), Edx, 0, SquareIndex(op.src));
  }

  /** The index itself: edx gets the high half of its square. */
  lemma EdxMissed(op: Operation)
    requires op.WideImul? && Parent(op.src) == Some(Eax) && (op.src.Part? ==> op.src.piece.LowHalf?)
    ensures !SoundStep(op)
  {
    WideTransfer(op);
    NoLoad(op, Flat(Eax, 0, 0, 0), Flat(Eax, SquareIndex(op.src), 0, 0));
    hide *;
    EdxWrong(op);
    Refuted(op, Eax, 0, SquareIndex(op.src), 0, 0);
  }

  lemma SquareEdx(op: Operation, index: Word)
    requires op.WideImul? && Parent(op.src) == Some(Eax) && (op.src.Part? ==> op.src.piece.LowHalf?)
    requires index == 0 || index == SquareIndex(op.src)
    ensures Exec(NoSymbols(), op, Flat(Eax, index, 0, 0)).registers(Edx) == if index == 0 then 0 else 1
    ensures Source(op).None?
  {
    WideByItself(op.src, index);
    WideRegisters(op, Flat(Eax, index, 0, 0));
    hide Exec;
    hide ValueOf;
    hide WideEdx;
  }

  // Arguments taken from part of a register

  lemma PartDiffers(piece: Piece)
    ensures PieceOf(piece, 0) == 0 && PieceOf(piece, 0x101) > 0
  {}

  predicate RecordsPart(op: Operation) {
    (op.Push? || SlotOf(op) == Some(4)) && op.src.Part?
  }

  lemma PartTransfer(op: Operation, r: Register)
    requires Encodable(op) && RecordsPart(op)
    ensures Transfer(Seed(r), op).Some?
    ensures op.Push? ==> Transfer(Seed(r), op).value.pushed == [Some(0)] && Stand(NOTHING_STANDS, op) == Standing(1, false)
    ensures !op.Push? ==> Transfer(Seed(r), op).value.stores == map[4 := Some(0)] && Stand(NOTHING_STANDS, op).stored
  {
    hide Hits;
    if !op.Push? {
      assert op.dst.terms[0].register == Esp;
    }
  }

  /** The recorded constant is not one: the words differ. */
  lemma PartWordsDiffer(op: Operation)
    requires Encodable(op) && RecordsPart(op)
    ensures var w, r := if op.Push? then 0 else 4, op.src.parent;
            !StackDiffers(Some(0), Exec(NoSymbols(), op, Flat(r, 0, 0, 0)), Exec(NoSymbols(), op, Flat(r, 0x101, 0, 0)), w, 0x101)
  {
    var w, r := if op.Push? then 0 else 4, op.src.parent;
    PartStored(op, Flat(r, 0, 0, 0));
    PartStored(op, Flat(r, 0x101, 0, 0));
    PartDiffers(op.src.piece);
    hide Exec;
    hide StackWord;
    hide Limit;
    hide PieceOf;
    var x, y := StackWord(Exec(NoSymbols(), op, Flat(r, 0, 0, 0)), w), StackWord(Exec(NoSymbols(), op, Flat(r, 0x101, 0, 0)), w);
    if Differ(x, y, 0, 0x101) {
      NoDistance(x, y, 0x101);
    }
  }

  lemma StackRefutes(f: Facts, st: Standing, a: State, b: State, d: int)
    requires (f.pushed == [Some(0)] && st.pushes == 1 && !StackDiffers(Some(0), a, b, 0, d))
          || (f.stores == map[4 := Some(0)] && st.stored && !StackDiffers(Some(0), a, b, 4, d))
    ensures !Holds(f, st, a, b, d)
  {
    hide StackDiffers;
  }

  lemma PartWrong(op: Operation)
    requires Encodable(op) && RecordsPart(op)
    ensures var r := op.src.parent;
            !Holds(Transfer(Seed(r), op).value, Stand(NOTHING_STANDS, op), Exec(NoSymbols(), op, Flat(r, 0, 0, 0)),
                   Exec(NoSymbols(), op, Flat(r, 0x101, 0, 0)), 0x101)
  {
    var r := op.src.parent;
    PartTransfer(op, r);
    PartWordsDiffer(op);
    hide *;
    StackRefutes(Transfer(Seed(r), op).value, Stand(NOTHING_STANDS, op), Exec(NoSymbols(), op, Flat(r, 0, 0, 0)),
                 Exec(NoSymbols(), op, Flat(r, 0x101, 0, 0)), 0x101);
  }

  lemma PartStarts(op: Operation, r: Register)
    requires Encodable(op) && RecordsPart(op)
    ensures Transfer(Seed(r), op).Some? && LoadsAgree(op, Flat(r, 0, 0, 0), Flat(r, 0x101, 0, 0))
  {
    PartTransfer(op, r);
    NoLoad(op, Flat(r, 0, 0, 0), Flat(r, 0x101, 0, 0));
  }

  lemma PartRecorded(op: Operation, r: Register)
    requires Encodable(op) && RecordsPart(op) && r == op.src.parent
    ensures !SoundStep(op)
  {
    hide *;
    PartStarts(op, r);
    PartWrong(op);
    Refuted(op, r, 0, 0x101, 0, 0);
  }

  /** The stack word ends with the part. */
  lemma PartStored(op: Operation, s: State)
    requires Encodable(op) && RecordsPart(op)
    ensures StackWord(Exec(NoSymbols(), op, s), if op.Push? then 0 else 4) % Limit(Width(op)) == ValueOf(NoSymbols(), op.src, s)
  {
    hide WordAt;
    hide ValueOf;
    hide Limit;
    hide Put;
    var t := Exec(NoSymbols(), op, s);
    ExecMemory(NoSymbols(), op, s);
    if !op.Push? {
      EspAddress(op.dst, s);
      hide Address;
      SameWord(t.memory, s.registers(Esp) + 4, (s.registers(Esp) + 4) % WORD);
    }
  }

  /** An instruction is followed correctly, from all facts and in all runs whose loads agree, exactly when it is tracked. */
  lemma SoundExactlyWhenTracked(op: Operation)
    requires Encodable(op)
    ensures SoundStep(op) <==> Tracked(op)
  {
    hide Differ;
    if Tracked(op) {
      hide Transfer;
      hide Holds;
      hide Runs;
      hide LoadsAgree;
      hide Stand;
      forall symbols: Operand -> Word, f, st, a, b, a', b', d
        ensures StepKeeps(symbols, op, f, st, a, b, a', b', d)
      {
        if StepStarts(symbols, op, f, st, a, b, a', b', d) {
          TransferSound(symbols, op, f, Transfer(f, op).value, st, a, b, a', b', d);
        }
      }
    } else if !op.WideImul? {
      PartRecorded(op, op.src.parent);
    } else if Parent(op.src) == Some(Eax) {
      EdxMissed(op);
    } else {
      EaxMissed(op);
    }
  }

  // Loads behind a store

  /** A value that is stored and loaded back from the same, index-independent operand is taken for a constant. The
      loads of the two runs agree, and the constant is right, exactly when the stored values do not differ. */
  lemma ReloadAgreesExactlyWhenEqual(symbols: Operand -> Word, store: Operation, load: Operation, f: Facts,
        a: State, b: State, a': State, b': State, d: int)
    requires store.Mov? && store.dst.Mem? && store.src.Reg? && load.Mov? && load.dst.Reg? && load.src == store.dst
    requires RegistersDiffer(f, a, b, d) && Independent(store.dst.terms, f.registers)
    requires f.registers(store.src.register).Some?
    requires Runs(symbols, store, a, a') && Runs(symbols, store, b, b')
    ensures LoadsAgree(load, a', b') <==> (f.registers(store.src.register).value * d) % WORD == 0
  {
    var k := f.registers(store.src.register).value;
    SameAddress(store.dst, f, a, b, d);
    Reloads(symbols, store, load, a, a');
    Reloads(symbols, store, load, b, b');
    hide Runs;
    hide WordAt;
    hide Address;
    hide Independent;
    EqualExactlyWhen(a.registers(store.src.register), b.registers(store.src.register), k, d);
  }

  lemma Reloads(symbols: Operand -> Word, store: Operation, load: Operation, s: State, t: State)
    requires store.Mov? && store.dst.Mem? && store.src.Reg? && load.Mov? && load.dst.Reg? && load.src == store.dst
    requires Runs(symbols, store, s, t)
    ensures Address(load.src, t) == Address(store.dst, s)
    ensures WordAt(t.memory, Address(load.src, t)) == s.registers(store.src.register)
  {
    hide WordAt;
    hide TermSum;
    hide KeptOutside;
    SameRegisters(store.dst.terms, s, t);
  }

  lemma {:induction false} SameRegisters(terms: seq<Term>, s: State, t: State)
    requires forall r :: t.registers(r) == s.registers(r)
    ensures TermSum(terms, t.registers) == TermSum(terms, s.registers)
  {
    if terms != [] {
      SameRegisters(terms[..|terms| - 1], s, t);
    }
  }

  lemma EqualExactlyWhen(x: Word, y: Word, k: int, d: int)
    requires Differ(x, y, k, d)
    ensures x == y <==> (k * d) % WORD == 0
  {
    var q :| Turns(x, y, k, d, q);
    var n := k * d;
    assert n == y - x + (-q) * WORD;
    TurnsVanish(y - x, -q);
  }
}
