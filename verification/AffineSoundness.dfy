/** Two runs of a chain that start a distance apart in the masked register: what one instruction keeps. */
module AffineSoundness {
  import opened Outcomes
  import opened Bytes
  import opened AffineModel
  import opened AffineFlow

  // Distances modulo the word size

  /** `y` is `k` times `d` above `x`, modulo 2^32. */
  ghost predicate Differ(x: int, y: int, k: int, d: int) {
    exists q: int :: Turns(x, y, k, d, q)
  }

  ghost predicate Turns(x: int, y: int, k: int, d: int, q: int) {
    y - x == k * d + q * WORD
  }

  lemma SameDiffer(x: int, d: int)
    ensures Differ(x, x, 0, d)
  {
    assert Turns(x, x, 0, d, 0);
  }

  lemma SumDiffer(x: int, y: int, k: int, x': int, y': int, k': int, d: int)
    requires Differ(x, y, k, d) && Differ(x', y', k', d)
    ensures Differ(x + x', y + y', k + k', d)
  {
    var q :| Turns(x, y, k, d, q);
    var q' :| Turns(x', y', k', d, q');
    Distribute(k, k', d);
    Distribute(q, q', WORD);
    assert Turns(x + x', y + y', k + k', d, q + q');
  }

  lemma Distribute(a: int, b: int, c: int)
    ensures (a + b) * c == a * c + b * c
  {}

  lemma ScaledDiffer(x: int, y: int, k: int, c: int, d: int)
    requires Differ(x, y, k, d)
    ensures Differ(c * x, c * y, k * c, d)
  {
    var q :| Turns(x, y, k, d, q);
    ScaleTurns(y - x, k * d, q * WORD, c);
    assert c * (k * d) == (k * c) * d;
    assert c * (q * WORD) == (c * q) * WORD;
    assert c * y - c * x == c * (y - x);
    assert Turns(c * x, c * y, k * c, d, c * q);
  }

  lemma ScaleTurns(x: int, y: int, z: int, c: int)
    requires x == y + z
    ensures c * x == c * y + c * z
  {}

  lemma WrappedDiffer(x: int, y: int, k: int, d: int)
    requires Differ(x, y, k, d)
    ensures Differ(x % WORD, y % WORD, k, d)
  {
    var q :| Turns(x, y, k, d, q);
    assert x == x / WORD * WORD + x % WORD && y == y / WORD * WORD + y % WORD;
    assert Turns(x % WORD, y % WORD, k, d, q - y / WORD + x / WORD);
  }

  /** Words at distance zero are equal. */
  lemma NoDistance(x: Word, y: Word, d: int)
    requires Differ(x, y, 0, d)
    ensures x == y
  {
    var q :| Turns(x, y, 0, d, q);
  }

  // Which recorded arguments are still in place

  /** The `pushes` last pushed words, at most two, are still the words at esp and above; with `stored`, the last
      store into slot 4 is still the word at esp + 4. The recovery itself does not ask. */
  datatype Standing = Standing(pushes: nat, stored: bool)

  function EspOffset(m: Operand): Option<int> {
    if m.Mem? && m.terms == [Term(false, Esp, 1)] then Some(m.displacement) else None
  }

  /** Double words at these offsets from one register share no byte. */
  predicate OffsetsClear(k: int, w: int) {
    (k - w) % WORD >= 4 && (w - k) % WORD >= 4
  }

  /** A write to memory that may touch the word at esp + `w`. */
  predicate Hits(op: Operation, w: int) {
    WritesMemory(op) && !op.Push? && !(EspOffset(op.dst).Some? && OffsetsClear(EspOffset(op.dst).value, w))
  }

  function Stand(st: Standing, op: Operation): Standing {
    if op.Push? then Standing(if st.pushes == 0 then 1 else 2, false)
    else if Written(op) == Some(Esp) then Standing(0, false)
    else
      Standing(if Hits(op, 0) || st.pushes == 0 then 0 else if Hits(op, 4) then 1 else st.pushes,
               SlotOf(op) == Some(4) || (st.stored && !Hits(op, 4)))
  }

  // What the facts say about two states

  ghost predicate RegistersDiffer(f: Facts, a: State, b: State, d: int) {
    forall r :: f.registers(r).Some? ==> Differ(a.registers(r), b.registers(r), f.registers(r).value, d)
  }

  /** The double word at an offset from esp. */
  function StackWord(s: State, w: int): Word {
    WordAt(s.memory, s.registers(Esp) + w)
  }

  ghost predicate StackDiffers(c: Coefficient, a: State, b: State, w: int, d: int) {
    c.Some? ==> Differ(StackWord(a, w), StackWord(b, w), c.value, d)
  }

  ghost predicate PushesDiffer(f: Facts, pushes: nat, a: State, b: State, d: int) {
    var n := |f.pushed|;
    && pushes <= 2 && pushes <= n
    && (pushes >= 1 ==> StackDiffers(f.pushed[n - 1], a, b, 0, d))
    && (pushes >= 2 ==> StackDiffers(f.pushed[n - 2], a, b, 4, d))
  }

  ghost predicate StoreDiffers(f: Facts, stored: bool, a: State, b: State, d: int) {
    stored ==> 4 in f.stores && StackDiffers(f.stores[4], a, b, 4, d)
  }

  /** Every known coefficient is the distance of the two states, in registers and in the words that still stand. */
  ghost predicate Holds(f: Facts, st: Standing, a: State, b: State, d: int) {
    RegistersDiffer(f, a, b, d) && PushesDiffer(f, st.pushes, a, b, d) && StoreDiffers(f, st.stored, a, b, d)
  }

  // Operands

  lemma {:induction false} SumsDiffer(terms: seq<Term>, f: Facts, a: State, b: State, d: int)
    requires RegistersDiffer(f, a, b, d) && AddressCoefficient(terms, f.registers).Some?
    ensures Differ(TermSum(terms, a.registers), TermSum(terms, b.registers), AddressCoefficient(terms, f.registers).value, d)
  {
    hide Differ;
    if terms == [] {
      SameDiffer(0, d);
    } else {
      var n := |terms| - 1;
      var t := terms[n];
      SumsDiffer(terms[..n], f, a, b, d);
      var k := f.registers(t.register).value;
      ScaledDiffer(a.registers(t.register), b.registers(t.register), k, Scaled(t), d);
      assert k * Scaled(t) == Scaled(t) * k;
      SumDiffer(TermSum(terms[..n], a.registers), TermSum(terms[..n], b.registers),
        AddressCoefficient(terms[..n], f.registers).value,
                Scaled(t) * a.registers(t.register), Scaled(t) * b.registers(t.register), Scaled(t) * k, d);
    }
  }

  lemma AddressesDiffer(m: Operand, f: Facts, a: State, b: State, d: int)
    requires m.Mem? && RegistersDiffer(f, a, b, d) && AddressCoefficient(m.terms, f.registers).Some?
    ensures Differ(Address(m, a), Address(m, b), AddressCoefficient(m.terms, f.registers).value, d)
  {
    hide Differ;
    var k := AddressCoefficient(m.terms, f.registers).value;
    SumsDiffer(m.terms, f, a, b, d);
    SameDiffer(m.displacement, d);
    SumDiffer(TermSum(m.terms, a.registers), TermSum(m.terms, b.registers), k, m.displacement, m.displacement, 0, d);
    WrappedDiffer(TermSum(m.terms, a.registers) + m.displacement, TermSum(m.terms, b.registers) + m.displacement, k, d);
  }

  lemma {:induction false} IndependentIsZero(terms: seq<Term>, registers: Register -> Coefficient)
    requires Independent(terms, registers)
    ensures AddressCoefficient(terms, registers) == Some(0)
  {
    if terms != [] {
      IndependentIsZero(terms[..|terms| - 1], registers);
    }
  }

  /** A memory operand without masked registers has the same address in both runs. */
  lemma SameAddress(m: Operand, f: Facts, a: State, b: State, d: int)
    requires m.Mem? && RegistersDiffer(f, a, b, d) && Independent(m.terms, f.registers)
    ensures Address(m, a) == Address(m, b)
  {
    IndependentIsZero(m.terms, f.registers);
    AddressesDiffer(m, f, a, b, d);
    NoDistance(Address(m, a), Address(m, b), d);
  }

  lemma SourceDiffers(symbols: Operand -> Word, op: Operation, f: Facts, a: State, b: State, d: int)
    requires Source(op).Some? && !Source(op).value.Part? && LoadsAgree(op, a, b) && RegistersDiffer(f, a, b, d)
    requires CoefficientOf(Source(op).value, f.registers).Some?
    ensures Differ(ValueOf(symbols, Source(op).value, a), ValueOf(symbols, Source(op).value, b),
                   CoefficientOf(Source(op).value, f.registers).value, d)
  {
    hide Differ;
    hide WordAt;
    hide Address;
    var src := Source(op).value;
    match src {
      case Reg(r) =>
      case Const(_) => SameDiffer(ValueOf(symbols, src, a), d);
      case Mem(_, _, _) =>
        SameAddress(src, f, a, b, d);
        SameDiffer(ValueOf(symbols, src, a), d);
    }
  }

  // One instruction

  lemma ArithmeticDiffers(symbols: Operand -> Word, op: Operation, f: Facts, a: State, b: State, v: Word, w: Word, d: int)
    requires (op.Add? || op.Sub?) && op.dst.Reg? && !op.src.Part? && LoadsAgree(op, a, b) && RegistersDiffer(f, a, b, d)
    requires LeavesBoth(symbols, op, a, b, v, w)
    requires NewCoefficient(op, op.dst.register, f.registers).Some?
    ensures Differ(v, w, NewCoefficient(op, op.dst.register, f.registers).value, d)
  {
    hide Differ;
    hide LoadsAgree;
    hide CoefficientOf;
    hide ValueOf;
    var r := op.dst.register;
    var k, k' := f.registers(r).value, CoefficientOf(op.src, f.registers).value;
    var p: int, q: int := a.registers(r), b.registers(r);
    var x: int, y: int := ValueOf(symbols, op.src, a), ValueOf(symbols, op.src, b);
    SourceDiffers(symbols, op, f, a, b, d);
    if op.Add? {
      SumDiffer(p, q, k, x, y, k', d);
      WrappedDiffer(p + x, q + y, k + k', d);
    } else {
      ScaledDiffer(x, y, k', -1, d);
      SumDiffer(p, q, k, -1 * x, -1 * y, k' * -1, d);
      WrappedDiffer(p + -1 * x, q + -1 * y, k + k' * -1, d);
    }
  }

  /** Both runs leave a value of the instruction in its destination register. */
  ghost predicate LeavesBoth(symbols: Operand -> Word, op: Operation, a: State, b: State, v: Word, w: Word)
    requires Written(op).Some? && op.dst.Reg?
  {
    Leaves(symbols, op, a, a.registers(op.dst.register), v) && Leaves(symbols, op, b, b.registers(op.dst.register), w)
  }

  lemma ProductDiffers(symbols: Operand -> Word, op: Operation, f: Facts, a: State, b: State, v: Word, w: Word, d: int)
    requires op.Imul? && op.dst.Reg? && !op.src.Part? && LoadsAgree(op, a, b) && RegistersDiffer(f, a, b, d)
    requires LeavesBoth(symbols, op, a, b, v, w)
    requires NewCoefficient(op, op.dst.register, f.registers).Some?
    ensures Differ(v, w, NewCoefficient(op, op.dst.register, f.registers).value, d)
  {
    hide Differ;
    hide LoadsAgree;
    hide CoefficientOf;
    hide ValueOf;
    var k, n := CoefficientOf(op.src, f.registers).value, op.factor.number.value;
    var x, y := ValueOf(symbols, op.src, a), ValueOf(symbols, op.src, b);
    SourceDiffers(symbols, op, f, a, b, d);
    ScaledDiffer(x, y, k, n, d);
    WrappedDiffer(n * x, n * y, k * n, d);
  }

  lemma ShiftDiffers(symbols: Operand -> Word, op: Operation, f: Facts, a: State, b: State, v: Word, w: Word, d: int)
    requires op.Shl? && op.dst.Reg? && RegistersDiffer(f, a, b, d) && LeavesBoth(symbols, op, a, b, v, w)
    requires NewCoefficient(op, op.dst.register, f.registers).Some?
    ensures Differ(v, w, NewCoefficient(op, op.dst.register, f.registers).value, d)
  {
    hide Differ;
    hide Power2;
    var r, p := op.dst.register, Power2(op.count.number.value);
    ScaledDiffer(a.registers(r), b.registers(r), f.registers(r).value, p, d);
    WrappedDiffer(p * a.registers(r), p * b.registers(r), f.registers(r).value * p, d);
  }

  lemma StepDiffers(symbols: Operand -> Word, op: Operation, f: Facts, a: State, b: State, v: Word, w: Word, d: int)
    requires (op.Inc? || op.Dec?) && op.dst.Reg? && RegistersDiffer(f, a, b, d) && LeavesBoth(symbols, op, a, b, v, w)
    requires NewCoefficient(op, op.dst.register, f.registers).Some?
    ensures Differ(v, w, NewCoefficient(op, op.dst.register, f.registers).value, d)
  {
    hide Differ;
    var r, one := op.dst.register, if op.Inc? then 1 else -1;
    var k := f.registers(r).value;
    SameDiffer(one, d);
    SumDiffer(a.registers(r), b.registers(r), k, one, one, 0, d);
    WrappedDiffer(a.registers(r) + one, b.registers(r) + one, k, d);
  }

  lemma CopyDiffers(symbols: Operand -> Word, op: Operation, f: Facts, a: State, b: State, v: Word, w: Word, d: int)
    requires (op.Mov? || op.Lea? || op.Xor?) && op.dst.Reg? && Encodable(op) && LoadsAgree(op, a, b) && RegistersDiffer(f, a, b, d)
    requires LeavesBoth(symbols, op, a, b, v, w)
    requires NewCoefficient(op, op.dst.register, f.registers).Some?
    ensures Differ(v, w, NewCoefficient(op, op.dst.register, f.registers).value, d)
  {
    hide Differ;
    hide WordAt;
    hide Address;
    if op.Mov? {
      SourceDiffers(symbols, op, f, a, b, d);
    } else if op.Lea? {
      AddressesDiffer(op.src, f, a, b, d);
    } else {
      SameDiffer(0, d);
    }
  }

  lemma ResultDiffers(symbols: Operand -> Word, op: Operation, f: Facts, a: State, b: State, v: Word, w: Word, d: int)
    requires Written(op).Some? && op.dst.Reg? && Encodable(op) && LoadsAgree(op, a, b) && RegistersDiffer(f, a, b, d)
    requires LeavesBoth(symbols, op, a, b, v, w)
    requires NewCoefficient(op, op.dst.register, f.registers).Some?
    ensures Differ(v, w, NewCoefficient(op, op.dst.register, f.registers).value, d)
  {
    hide Differ;
    hide LoadsAgree;
    hide RegistersDiffer;
    hide LeavesBoth;
    match op {
      case Add(_, _) => ArithmeticDiffers(symbols, op, f, a, b, v, w, d);
      case Sub(_, _) => ArithmeticDiffers(symbols, op, f, a, b, v, w, d);
      case Imul(_, _, _) => ProductDiffers(symbols, op, f, a, b, v, w, d);
      case Shl(_, _) => ShiftDiffers(symbols, op, f, a, b, v, w, d);
      case Inc(_) => StepDiffers(symbols, op, f, a, b, v, w, d);
      case Dec(_) => StepDiffers(symbols, op, f, a, b, v, w, d);
      case _ => CopyDiffers(symbols, op, f, a, b, v, w, d);
    }
  }

  /** The instructions whose effect the recovery tracks: not the multiplication with hidden destinations, unless it is
      by al or ah and writes ax alone, and no argument taken from part of a register, which is recorded as a constant. */
  predicate Tracked(op: Operation) {
    && (op.WideImul? ==> op.src.Part? && op.src.parent == Eax && !op.src.piece.LowHalf?)
    && !((op.Push? || SlotOf(op) == Some(4)) && op.src.Part?)
  }

  lemma RegistersStep(symbols: Operand -> Word, op: Operation, f: Facts, g: Facts,
        a: State, b: State, a': State, b': State, d: int)
    requires Transfer(f, op) == Some(g) && Encodable(op) && Tracked(op) && LoadsAgree(op, a, b)
    requires RegistersDiffer(f, a, b, d) && RegistersRun(symbols, op, a, a') && RegistersRun(symbols, op, b, b')
    ensures RegistersDiffer(g, a', b', d)
  {
    hide Differ;
    hide LoadsAgree;
    hide Leaves;
    hide Source;
    if op.Push? {
      SameDiffer(-4, d);
      if f.registers(Esp).Some? {
        SumDiffer(a.registers(Esp), b.registers(Esp), f.registers(Esp).value, -4, -4, 0, d);
        WrappedDiffer(a.registers(Esp) + -4, b.registers(Esp) + -4, f.registers(Esp).value, d);
      }
    } else if Written(op).Some? {
      var r := Written(op).value;
      if g.registers(r).Some? {
        assert op.dst == Reg(r);
        hide RegistersDiffer;
        hide NewCoefficient;
        ResultDiffers(symbols, op, f, a, b, a'.registers(r), b'.registers(r), d);
      }
    }
  }

  // The stack

  lemma ByteClear(x: int, y: int, j: int)
    requires 0 <= j < 4 && (y - x) % WORD >= 4 && (x - y) % WORD >= 4
    ensures ((y + j) % WORD - x) % WORD >= 4
  {
    var u, q, r := (y - x) % WORD, (y - x) / WORD, (y + j) / WORD;
    assert x - y == -u + (-q) * WORD;
    TurnsVanish(-u, -q);
    assert (y + j) % WORD - x == u + j + (q - r) * WORD;
    TurnsVanish(u + j, q - r);
  }

  /** A word that does not overlap the written bytes keeps its value. */
  lemma WordKept(m: Memory, m': Memory, x: int, y: int, width: nat)
    requires KeptOutside(m, m', x, width) && width <= 4 && (y - x) % WORD >= 4 && (x - y) % WORD >= 4
    ensures WordAt(m', y) == WordAt(m, y)
  {
    ByteClear(x, y, 0);
    ByteClear(x, y, 1);
    ByteClear(x, y, 2);
    ByteClear(x, y, 3);
  }

  lemma SameByte(x: int, y: int, j: int)
    requires x % WORD == y % WORD
    ensures (x + j) % WORD == (y + j) % WORD
  {
    var q, r := x / WORD, y / WORD;
    assert x + j == y + j + (q - r) * WORD;
    TurnsVanish(y + j, q - r);
  }

  lemma SameWord(m: Memory, x: int, y: int)
    requires x % WORD == y % WORD
    ensures WordAt(m, x) == WordAt(m, y)
  {
    SameByte(x, y, 1);
    SameByte(x, y, 2);
    SameByte(x, y, 3);
  }

  lemma EspAddress(m: Operand, s: State)
    requires EspOffset(m).Some?
    ensures Address(m, s) == (s.registers(Esp) + EspOffset(m).value) % WORD
  {
    assert m.terms == [Term(false, Esp, 1)];
    assert TermSum(m.terms[..0], s.registers) == 0;
    assert TermSum(m.terms, s.registers) == s.registers(Esp);
  }

  lemma ClearOffsets(esp: int, k: int, w: int)
    requires OffsetsClear(k, w)
    ensures (esp + w - (esp + k) % WORD) % WORD >= 4 && ((esp + k) % WORD - (esp + w)) % WORD >= 4
  {
    var q := (esp + k) / WORD;
    assert esp + w - (esp + k) % WORD == w - k + q * WORD;
    TurnsVanish(w - k, q);
    assert (esp + k) % WORD - (esp + w) == k - w + (-q) * WORD;
    TurnsVanish(k - w, -q);
  }

  /** Unless it is hit, a word at an offset from esp keeps its value while esp is not written. */
  lemma StackWordKept(symbols: Operand -> Word, op: Operation, s: State, t: State, w: int)
    requires Runs(symbols, op, s, t) && !op.Push? && Written(op) != Some(Esp) && !Hits(op, w)
    ensures StackWord(t, w) == StackWord(s, w)
  {
    hide WordAt;
    hide KeptOutside;
    hide Leaves;
    hide Address;
    hide OffsetsClear;
    assert t.registers(Esp) == s.registers(Esp);
    if WritesMemory(op) {
      EspAddress(op.dst, s);
      ClearOffsets(s.registers(Esp), EspOffset(op.dst).value, w);
      WordKept(s.memory, t.memory, Address(op.dst, s), s.registers(Esp) + w, Width(op));
    }
  }

  lemma PushMoves(symbols: Operand -> Word, op: Operation, s: State, t: State)
    requires op.Push? && !op.src.Part? && Runs(symbols, op, s, t)
    ensures StackWord(t, 0) == ValueOf(symbols, op.src, s) && StackWord(t, 4) == StackWord(s, 0)
  {
    hide WordAt;
    hide KeptOutside;
    hide ValueOf;
    var esp := s.registers(Esp);
    var x := (esp - 4) % WORD;
    assert x == esp - 4 || x == esp - 4 + WORD;
    WordKept(s.memory, t.memory, x, x + 4, 4);
    SameWord(s.memory, x + 4, esp);
  }

  lemma SlotHoldsSource(symbols: Operand -> Word, op: Operation, s: State, t: State)
    requires SlotOf(op) == Some(4) && Encodable(op) && !op.src.Part? && Runs(symbols, op, s, t)
    ensures StackWord(t, 4) == ValueOf(symbols, op.src, s)
  {
    hide WordAt;
    hide KeptOutside;
    hide ValueOf;
    EspAddress(op.dst, s);
    hide Address;
    SameWord(t.memory, s.registers(Esp) + 4, (s.registers(Esp) + 4) % WORD);
  }

  lemma PushesStep(symbols: Operand -> Word, op: Operation, f: Facts, g: Facts, st: Standing,
        a: State, b: State, a': State, b': State, d: int)
    requires Transfer(f, op) == Some(g) && Encodable(op) && Tracked(op) && LoadsAgree(op, a, b)
    requires RegistersDiffer(f, a, b, d)
    requires PushesDiffer(f, st.pushes, a, b, d) && Runs(symbols, op, a, a') && Runs(symbols, op, b, b')
    ensures PushesDiffer(g, Stand(st, op).pushes, a', b', d)
  {
    hide Differ;
    hide LoadsAgree;
    hide Runs;
    hide StackWord;
    hide RegistersDiffer;
    hide CoefficientOf;
    hide NewCoefficient;
    hide Hits;
    hide ValueOf;
    if op.Push? {
      PushMoves(symbols, op, a, a');
      PushMoves(symbols, op, b, b');
      if CoefficientOf(op.src, f.registers).Some? {
        SourceDiffers(symbols, op, f, a, b, d);
      }
    } else if Written(op) != Some(Esp) && !Hits(op, 0) {
      StackWordKept(symbols, op, a, a', 0);
      StackWordKept(symbols, op, b, b', 0);
      if !Hits(op, 4) {
        StackWordKept(symbols, op, a, a', 4);
        StackWordKept(symbols, op, b, b', 4);
      }
    }
  }

  lemma StoreStep(symbols: Operand -> Word, op: Operation, f: Facts, g: Facts, st: Standing,
        a: State, b: State, a': State, b': State, d: int)
    requires Transfer(f, op) == Some(g) && Encodable(op) && Tracked(op) && LoadsAgree(op, a, b)
    requires RegistersDiffer(f, a, b, d)
    requires StoreDiffers(f, st.stored, a, b, d) && Runs(symbols, op, a, a') && Runs(symbols, op, b, b')
    ensures StoreDiffers(g, Stand(st, op).stored, a', b', d)
  {
    hide Differ;
    hide LoadsAgree;
    hide Runs;
    hide StackWord;
    hide RegistersDiffer;
    hide CoefficientOf;
    hide NewCoefficient;
    hide Hits;
    hide ValueOf;
    if SlotOf(op) == Some(4) {
      assert op.dst.terms[0].register == Esp;
      SlotHoldsSource(symbols, op, a, a');
      SlotHoldsSource(symbols, op, b, b');
      if CoefficientOf(op.src, f.registers).Some? {
        SourceDiffers(symbols, op, f, a, b, d);
      }
    } else if Stand(st, op).stored {
      StackWordKept(symbols, op, a, a', 4);
      StackWordKept(symbols, op, b, b', 4);
    }
  }

  /** One tracked instruction keeps every known coefficient equal to the distance of the two runs. */
  lemma TransferSound(symbols: Operand -> Word, op: Operation, f: Facts, g: Facts, st: Standing,
        a: State, b: State, a': State, b': State, d: int)
    requires Transfer(f, op) == Some(g) && Encodable(op) && Tracked(op) && LoadsAgree(op, a, b)
    requires Holds(f, st, a, b, d) && Runs(symbols, op, a, a') && Runs(symbols, op, b, b')
    ensures Holds(g, Stand(st, op), a', b', d)
  {
    RegistersStep(symbols, op, f, g, a, b, a', b', d);
    PushesStep(symbols, op, f, g, st, a, b, a', b', d);
    StoreStep(symbols, op, f, g, st, a, b, a', b', d);
  }
}
