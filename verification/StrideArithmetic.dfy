/** What the recovery finds, in plain arithmetic: the code is evaluated over integers, without wrap-around, for two
    values of the masked register that are one apart. The recovered coefficients are the differences that come out. */
module StrideArithmetic {
  import opened Outcomes
  import opened Bytes
  import opened AffineModel
  import opened AffineFlow
  import opened StrideRecovery

  type Numbers = Register -> int

  /** The numbers that the masked register and the other registers start with, and those of operands that do not depend
      on registers. */
  datatype Setting = Setting(start: Numbers, given: Operand -> int)

  function Sum(terms: seq<Term>, x: Numbers): int {
    if terms == [] then 0
    else
      var t := terms[|terms| - 1];
      Sum(terms[..|terms| - 1], x) + Times(t, x(t.register))
  }

  function Times(t: Term, x: int): int {
    if t.negative then -(t.scale * x) else t.scale * x
  }

  function Doubled(x: int, times: nat): int
    decreases times
  {
    if times == 0 then x else Doubled(x + x, times - 1)
  }

  function NumberOf(o: Operand, x: Numbers, given: Operand -> int): int {
    match o
    case Reg(r) => x(r)
    case Const(Some(number)) => number
    case _ => given(o)
  }

  /** The result of an instruction that writes a whole register. */
  function ResultOf(op: Operation, x: Numbers, given: Operand -> int): int {
    match op
    case Mov(_, src) => NumberOf(src, x, given)
    case Lea(_, Mem(terms, displacement, _)) => Sum(terms, x) + displacement
    case Lea(_, src) => NumberOf(src, x, given)
    case Add(dst, src) => NumberOf(dst, x, given) + NumberOf(src, x, given)
    case Sub(dst, src) => NumberOf(dst, x, given) - NumberOf(src, x, given)
    case Inc(dst) => NumberOf(dst, x, given) + 1
    case Dec(dst) => NumberOf(dst, x, given) - 1
    case Imul(_, src, Const(Some(factor))) => NumberOf(src, x, given) * factor
    case Shl(dst, Const(Some(count))) => if count >= 0 then Doubled(NumberOf(dst, x, given), count) else 0
    case _ => 0
  }

  /** The register that an instruction writes, in full or in part; the one-operand multiplication is taken for a write to
      its operand. */
  function Target(op: Operation): Option<Register> {
    if op.WideImul? then Parent(op.src) else Written(op)
  }

  predicate WritesWhole(op: Operation) {
    match op
    case Mov(dst, _) => dst.Reg?
    case Lea(dst, _) => dst.Reg?
    case Add(dst, _) => dst.Reg?
    case Sub(dst, _) => dst.Reg?
    case Inc(dst) => dst.Reg?
    case Dec(dst) => dst.Reg?
    case Imul(dst, _, _) => dst.Reg?
    case Shl(dst, _) => dst.Reg?
    case Xor(dst, _) => dst.Reg?
    case _ => false
  }

  /** Two evaluations side by side, and the registers in which both follow the index. */
  datatype Line = Line(followed: set<Register>, low: Numbers, high: Numbers) {
    function Slope(r: Register): int {
      high(r) - low(r)
    }
  }

  // Which registers are followed

  predicate AllIn(terms: seq<Term>, followed: set<Register>) {
    forall k :: 0 <= k < |terms| ==> terms[k].register in followed
  }

  /** An operand whose registers are followed. A load is followed if its address does not depend on the index, and what
      is written as part of a register is taken for a constant. */
  predicate Readable(o: Operand, line: Line) {
    match o
    case Reg(r) => r in line.followed
    case Mem(terms, _, _) =>
      AllIn(terms, line.followed) && forall k :: 0 <= k < |terms| ==> line.Slope(terms[k].register) == 0
    case Part(_, _) => true
    case Const(_) => true
  }

  predicate Linear(op: Operation, line: Line) {
    match op
    case Mov(Reg(_), src) => Readable(src, line)
    case Lea(Reg(_), Mem(terms, _, _)) => AllIn(terms, line.followed)
    case Lea(Reg(_), src) => Readable(src, line)
    case Add(Reg(r), src) => r in line.followed && Readable(src, line)
    case Sub(Reg(r), src) => r in line.followed && Readable(src, line)
    case Inc(Reg(r)) => r in line.followed
    case Dec(Reg(r)) => r in line.followed
    case Imul(Reg(_), src, factor) => factor.Const? && factor.number.Some? && Readable(src, line)
    case Shl(Reg(r), count) => r in line.followed && count.Const? && count.number.Some? && 0 <= count.number.value < 32
    case Xor(Reg(r), src) => src == Reg(r)
    case _ => false
  }

  function Changed(x: Numbers, r: Register, value: int): Numbers {
    (q: Register) => if q == r then value else x(q)
  }

  function Next(line: Line, op: Operation, given: Operand -> int): Line {
    match Target(op)
    case None => line
    case Some(r) =>
      Line(if Linear(op, line) then line.followed + {r} else line.followed - {r},
           Changed(line.low, r, ResultOf(op, line.low, given)), Changed(line.high, r, ResultOf(op, line.high, given)))
  }

  /** All registers are followed at first; in the second evaluation the masked one is one higher. */
  function First(masked: Register, start: Numbers): Line {
    Line({Eax, Ebx, Ecx, Edx, Esi, Edi, Ebp, Esp}, start, Changed(start, masked, start(masked) + 1))
  }

  function LineAt(code: seq<Instruction>, i: nat, n: nat, s: Setting): Line
    requires i < n <= |code| && IsSeed(code, i)
  {
    if n == i + 1 then First(code[i].operation.dst.register, s.start)
    else Next(LineAt(code, i, n - 1, s), code[n - 1].operation, s.given)
  }

  // Which chains go through

  predicate StoresOnStack(op: Operation) {
    op.Mov? && op.dst.Mem? && exists k :: 0 <= k < |op.dst.terms| && op.dst.terms[k].register == Esp
  }

  predicate Passes(op: Operation) {
    && !op.And? && !op.Branch? && !op.Call? && !op.Other?
    && (StoresOnStack(op) ==> op.dst.slot.Some?)
  }

  predicate MovesStack(op: Operation) {
    op.Push? || Target(op) == Some(Esp)
  }

  /** No join, no instruction that ends the chain, and the stack pointer stays where it is behind a store. */
  predicate Unbroken(code: seq<Instruction>, i: nat, n: nat)
    requires i < n <= |code|
  {
    && (forall k :: i < k < n ==> !code[k].join && Passes(code[k].operation))
    && (forall j, k :: i < j < k < n && StoresOnStack(code[j].operation) ==> !MovesStack(code[k].operation))
  }

  /** A masked register, an unbroken chain of at most 95 instructions, and a draw-player call. */
  predicate Chain(code: seq<Instruction>, i: nat, c: nat) {
    && i < c < |code| && c - i <= 96
    && code[i].operation.And? && code[i].operation.dst.Reg?
    && Unbroken(code, i, c)
    && !code[c].join && code[c].operation == Call(true)
  }

  // The argument

  /** How the operand that an instruction passes on depends on the index, if that is known. */
  function Passed(code: seq<Instruction>, i: nat, k: nat, s: Setting): Option<int>
    requires i < k < |code| && IsSeed(code, i)
  {
    if Source(code[k].operation).Some? then SlopeOf(Source(code[k].operation).value, LineAt(code, i, k, s)) else None
  }

  function SlopeOf(o: Operand, line: Line): Option<int> {
    if !Readable(o, line) then None else Some(if o.Reg? then line.Slope(o.register) else 0)
  }

  /** The last push in front of `n`. */
  predicate LastPush(code: seq<Instruction>, i: nat, n: nat, p: nat) {
    i < p < n <= |code| && code[p].operation.Push? && forall k :: p < k < n ==> !code[k].operation.Push?
  }

  /** The last two. */
  predicate LastTwo(code: seq<Instruction>, i: nat, n: nat, p: nat, q: nat) {
    LastPush(code, i, n, q) && LastPush(code, i, q, p)
  }

  predicate StoresTo(op: Operation, slot: int) {
    StoresOnStack(op) && op.dst.slot == Some(slot)
  }

  predicate LastStore(code: seq<Instruction>, i: nat, n: nat, slot: int, p: nat)
    requires i < n <= |code|
  {
    i < p < n && StoresTo(code[p].operation, slot) && forall k :: p < k < n ==> !StoresTo(code[k].operation, slot)
  }

  /** What the chain shows of the argument at `c`: what the push before a push of a constant passes, and what the last
      store to slot 4 passes. */
  ghost predicate Shows(code: seq<Instruction>, i: nat, c: nat, v: int, s: Setting)
    requires i < c <= |code| && IsSeed(code, i)
  {
    && 0x4000 < v < 0x1_0000_0000
    && (|| (exists p: nat, q: nat :: LastTwo(code, i, c, p, q) && Passed(code, i, q, s) == Some(0) && Passed(code, i, p, s) == Some(v))
        || (exists p: nat :: LastStore(code, i, c, 4, p) && Passed(code, i, p, s) == Some(v)))
  }

  // ---------------------------------------------------------------------------------------------
  // The coefficients are the differences.

  predicate Matches(c: Coefficient, known: bool, difference: int) {
    c == if known then Some(difference) else None
  }

  ghost predicate AllMatch(registers: Register -> Coefficient, line: Line) {
    forall r: Register :: Matches(registers(r), r in line.followed, line.Slope(r))
  }

  lemma {:induction false} SumMatches(terms: seq<Term>, registers: Register -> Coefficient, line: Line)
    requires AllMatch(registers, line)
    ensures Matches(AddressCoefficient(terms, registers), AllIn(terms, line.followed),
                    Sum(terms, line.high) - Sum(terms, line.low))
  {
    if terms != [] {
      var n := |terms| - 1;
      SumMatches(terms[..n], registers, line);
      var t := terms[n];
      assert Matches(registers(t.register), t.register in line.followed, line.Slope(t.register));
      TimesApart(t, line.low(t.register), line.high(t.register));
      hide Times;
      AllWithLast(terms, line.followed);
    }
  }

  lemma AllWithLast(terms: seq<Term>, followed: set<Register>)
    requires terms != []
    ensures AllIn(terms, followed) <==>
            AllIn(terms[..|terms| - 1], followed) && terms[|terms| - 1].register in followed
  {
    var front := terms[..|terms| - 1];
    if AllIn(front, followed) {
      forall k | 0 <= k < |front| ensures terms[k].register in followed {
        assert terms[k] == front[k];
      }
    }
  }

  lemma TimesApart(t: Term, x: int, y: int)
    ensures Times(t, y) - Times(t, x) == Scaled(t) * (y - x)
  {
    assert t.scale * y - t.scale * x == t.scale * (y - x);
  }

  lemma {:induction false} DoubledApart(x: int, y: int, n: nat)
    ensures Doubled(y, n) - Doubled(x, n) == (y - x) * Power2(n)
    decreases n
  {
    if n > 0 {
      DoubledApart(x + x, y + y, n - 1);
    }
  }

  lemma ReadMatches(o: Operand, registers: Register -> Coefficient, line: Line, given: Operand -> int)
    requires AllMatch(registers, line)
    ensures Matches(CoefficientOf(o, registers), Readable(o, line),
                    NumberOf(o, line.high, given) - NumberOf(o, line.low, given))
    ensures CoefficientOf(o, registers) == SlopeOf(o, line)
  {
    if o.Reg? {
      assert Matches(registers(o.register), o.register in line.followed, line.Slope(o.register));
    }
    if o.Mem? {
      forall k | 0 <= k < |o.terms|
        ensures registers(o.terms[k].register) == Some(0) <==>
                o.terms[k].register in line.followed && line.Slope(o.terms[k].register) == 0
      {
        var r := o.terms[k].register;
        assert Matches(registers(r), r in line.followed, line.Slope(r));
      }
    }
  }

  lemma Distributes(a: int, b: int, k: int)
    ensures b * k - a * k == (b - a) * k
  {}

  lemma NumberOfRegister(r: Register, x: Numbers, given: Operand -> int)
    ensures NumberOf(Reg(r), x, given) == x(r)
  {}

  lemma ResultMatches(op: Operation, r: Register, registers: Register -> Coefficient, line: Line, given: Operand -> int)
    requires AllMatch(registers, line) && WritesWhole(op) && op.dst == Reg(r)
    ensures Matches(NewCoefficient(op, r, registers), Linear(op, line),
                    ResultOf(op, line.high, given) - ResultOf(op, line.low, given))
  {
    hide Power2;
    hide Doubled;
    hide Readable;
    hide AllIn;
    assert Matches(registers(r), r in line.followed, line.Slope(r));
    if op.Mov? || op.Lea? || op.Add? || op.Sub? || op.Imul? {
      ReadMatches(op.src, registers, line, given);
    }
    hide CoefficientOf;
    if op.Lea? && op.src.Mem? {
      SumMatches(op.src.terms, registers, line);
    }
    NumberOfRegister(r, line.low, given);
    NumberOfRegister(r, line.high, given);
    hide NumberOf;
    if op.Imul? && op.factor.Const? && op.factor.number.Some? {
      Distributes(NumberOf(op.src, line.low, given), NumberOf(op.src, line.high, given), op.factor.number.value);
    }
    if op.Shl? && op.count.Const? && op.count.number.Some? && op.count.number.value >= 0 {
      DoubledApart(line.low(r), line.high(r), op.count.number.value);
    }
  }

  /** What the step does to one register. */
  lemma StepWrites(f: Facts, op: Operation, g: Facts, line: Line, given: Operand -> int, r: Register)
    requires AllMatch(f.registers, line) && Transfer(f, op) == Some(g)
    ensures Target(op) != Some(r) ==> g.registers(r) == f.registers(r)
    ensures Target(op) == Some(r) ==>
              Matches(g.registers(r), Linear(op, line), ResultOf(op, line.high, given) - ResultOf(op, line.low, given))
  {
    if Target(op) == Some(r) {
      if WritesWhole(op) && op.dst == Reg(r) {
        ResultMatches(op, r, f.registers, line, given);
      }
      hide NewCoefficient;
      hide ResultOf;
    }
  }

  lemma StepMatches(f: Facts, op: Operation, g: Facts, line: Line, given: Operand -> int)
    requires AllMatch(f.registers, line) && Transfer(f, op) == Some(g)
    ensures AllMatch(g.registers, Next(line, op, given))
  {
    hide Transfer;
    hide Target;
    hide Linear;
    hide ResultOf;
    forall r: Register
      ensures Matches(g.registers(r), r in Next(line, op, given).followed, Next(line, op, given).Slope(r))
    {
      StepWrites(f, op, g, line, given, r);
      assert Matches(f.registers(r), r in line.followed, line.Slope(r));
    }
  }

  /** A register's coefficient is known exactly where it is followed, and then it is the difference between the results
      of the two evaluations. */
  lemma {:induction false} FactsMatch(code: seq<Instruction>, i: nat, n: nat, s: Setting)
    requires i < n <= |code| && IsSeed(code, i) && FactsAt(code, i, n).Some?
    ensures AllMatch(FactsAt(code, i, n).value.registers, LineAt(code, i, n, s))
    decreases n
  {
    hide Transfer;
    hide Next;
    if n == i + 1 {
      FirstMatches(code[i].operation.dst.register, s.start);
    } else {
      FactsMatch(code, i, n - 1, s);
      StepMatches(FactsAt(code, i, n - 1).value, code[n - 1].operation, FactsAt(code, i, n).value,
                  LineAt(code, i, n - 1, s), s.given);
    }
  }

  lemma FirstMatches(masked: Register, start: Numbers)
    ensures AllMatch(Seed(masked).registers, First(masked, start))
  {}

  // ---------------------------------------------------------------------------------------------
  // The chains.

  ghost predicate HasStored(code: seq<Instruction>, i: nat, n: nat)
    requires i < n <= |code|
  {
    exists k :: i < k < n && StoresOnStack(code[k].operation)
  }

  lemma StepPasses(f: Facts, op: Operation)
    ensures Transfer(f, op).Some? <==> Passes(op) && (f.stores != map[] ==> !MovesStack(op))
    ensures Transfer(f, op).Some? ==> (Transfer(f, op).value.stores != map[] <==> f.stores != map[] || StoresOnStack(op))
  {
    hide NewCoefficient;
    hide CoefficientOf;
    if op.Mov? {
      assert StoresOnStack(op) <==> Affects(op.dst, Esp);
    }
    if Transfer(f, op).Some? && StoresOnStack(op) {
      assert op.dst.slot.value in Transfer(f, op).value.stores;
    }
  }

  lemma {:induction false} ChainUnbroken(code: seq<Instruction>, i: nat, n: nat)
    requires i < n <= |code| && IsSeed(code, i)
    ensures FactsAt(code, i, n).Some? <==> Unbroken(code, i, n)
    ensures FactsAt(code, i, n).Some? ==> (FactsAt(code, i, n).value.stores != map[] <==> HasStored(code, i, n))
    decreases n
  {
    hide Transfer;
    hide Passes;
    hide MovesStack;
    hide StoresOnStack;
    if n > i + 1 {
      ChainUnbroken(code, i, n - 1);
      if FactsAt(code, i, n - 1).Some? {
        StepPasses(FactsAt(code, i, n - 1).value, code[n - 1].operation);
      }
    }
  }

  lemma ReachesExactly(code: seq<Instruction>, i: nat, c: nat)
    ensures ReachesPlayer(code, i, c) <==> Chain(code, i, c)
  {
    if i < c < |code| && IsSeed(code, i) {
      ChainUnbroken(code, i, c);
    }
  }

  // ---------------------------------------------------------------------------------------------
  // The argument.

  lemma PassedMatches(code: seq<Instruction>, i: nat, k: nat, s: Setting)
    requires i < k < |code| && IsSeed(code, i) && FactsAt(code, i, k).Some? && Source(code[k].operation).Some?
    ensures CoefficientOf(Source(code[k].operation).value, FactsAt(code, i, k).value.registers) == Passed(code, i, k, s)
  {
    FactsMatch(code, i, k, s);
    hide FactsAt;
    hide LineAt;
    hide AllMatch;
    hide SlopeOf;
    ReadMatches(Source(code[k].operation).value, FactsAt(code, i, k).value.registers, LineAt(code, i, k, s), s.given);
  }

  function PushedAt(code: seq<Instruction>, i: nat, n: nat): seq<Coefficient>
    requires i < n <= |code| && IsSeed(code, i)
  {
    if FactsAt(code, i, n).Some? then FactsAt(code, i, n).value.pushed else []
  }

  /** The recorded pushes are those in front of the last push, and what that one passes. */
  lemma {:induction false} PushesMatch(code: seq<Instruction>, i: nat, n: nat, s: Setting)
    requires i < n <= |code| && IsSeed(code, i) && FactsAt(code, i, n).Some?
    ensures PushedAt(code, i, n) != [] <==> exists q: nat :: LastPush(code, i, n, q)
    ensures forall q: nat :: LastPush(code, i, n, q) ==>
              FactsAt(code, i, q).Some? && PushedAt(code, i, n) == PushedAt(code, i, q) + [Passed(code, i, q, s)]
    decreases n
  {
    if n == i + 1 {
      assert forall q: nat :: !LastPush(code, i, n, q);
    } else {
      hide Transfer;
      hide Passed;
      PushesMatch(code, i, n - 1, s);
      var op := code[n - 1].operation;
      PushStep(FactsAt(code, i, n - 1).value, op);
      hide FactsAt;
      if op.Push? {
        PassedMatches(code, i, n - 1, s);
        OneMorePush(code, i, n);
        assert LastPush(code, i, n, n - 1);
      } else {
        SamePushes(code, i, n - 1, n);
      }
    }
  }

  lemma OneMorePush(code: seq<Instruction>, i: nat, n: nat)
    requires i + 1 < n <= |code| && code[n - 1].operation.Push?
    ensures forall q: nat :: LastPush(code, i, n, q) <==> q == n - 1
  {}

  lemma SamePushes(code: seq<Instruction>, i: nat, m: nat, n: nat)
    requires i < m < n <= |code| && m == n - 1 && !code[m].operation.Push?
    ensures forall q: nat :: LastPush(code, i, n, q) <==> LastPush(code, i, m, q)
  {
    forall q: nat
      ensures LastPush(code, i, n, q) <==> LastPush(code, i, m, q)
    {}
  }

  lemma PushStep(f: Facts, op: Operation)
    requires Transfer(f, op).Some?
    ensures Transfer(f, op).value.pushed == f.pushed + if op.Push? then [CoefficientOf(op.src, f.registers)] else []
  {
    hide NewCoefficient;
    hide CoefficientOf;
  }

  lemma StoreStep(f: Facts, op: Operation, slot: int)
    requires Transfer(f, op).Some?
    ensures if StoresTo(op, slot)
            then slot in Transfer(f, op).value.stores &&
                 Transfer(f, op).value.stores[slot] == CoefficientOf(op.src, f.registers)
            else (slot in Transfer(f, op).value.stores <==> slot in f.stores) &&
                 (slot in f.stores ==> Transfer(f, op).value.stores[slot] == f.stores[slot])
  {
    hide NewCoefficient;
    hide CoefficientOf;
    if op.Mov? {
      assert StoresOnStack(op) <==> Affects(op.dst, Esp);
    }
  }

  lemma {:induction false} StoresMatch(code: seq<Instruction>, i: nat, n: nat, slot: int, s: Setting)
    requires i < n <= |code| && IsSeed(code, i) && FactsAt(code, i, n).Some?
    ensures var stores := FactsAt(code, i, n).value.stores;
            slot in stores <==> exists p: nat :: LastStore(code, i, n, slot, p)
    ensures var stores := FactsAt(code, i, n).value.stores;
            forall p: nat :: LastStore(code, i, n, slot, p) ==> slot in stores && stores[slot] == Passed(code, i, p, s)
    decreases n
  {
    hide StoresTo;
    hide Passed;
    if n > i + 1 {
      StoresMatch(code, i, n - 1, slot, s);
      var op := code[n - 1].operation;
      StoreStep(FactsAt(code, i, n - 1).value, op, slot);
      if StoresTo(op, slot) {
        SourceOfStore(op, slot);
        PassedMatches(code, i, n - 1, s);
        assert LastStore(code, i, n, slot, n - 1);
      } else {
        SameLastStores(code, i, n - 1, n, slot);
      }
    }
  }

  lemma SameLastStores(code: seq<Instruction>, i: nat, m: nat, n: nat, slot: int)
    requires i < m < n <= |code| && m == n - 1 && !StoresTo(code[m].operation, slot)
    ensures forall p: nat :: LastStore(code, i, n, slot, p) <==> LastStore(code, i, m, slot, p)
    ensures (exists p: nat :: LastStore(code, i, n, slot, p)) <==> exists p: nat :: LastStore(code, i, m, slot, p)
  {
    hide StoresTo;
    forall p: nat
      ensures LastStore(code, i, n, slot, p) <==> LastStore(code, i, m, slot, p)
    {}
    hide LastStore;
    if p: nat :| LastStore(code, i, m, slot, p) {
      assert LastStore(code, i, n, slot, p);
    }
    if p: nat :| LastStore(code, i, n, slot, p) {
      assert LastStore(code, i, m, slot, p);
    }
  }

  lemma SourceOfStore(op: Operation, slot: int)
    requires StoresTo(op, slot)
    ensures Source(op) == Some(op.src)
  {}

  lemma LastTwoPushes(code: seq<Instruction>, i: nat, n: nat, s: Setting)
    requires i < n <= |code| && IsSeed(code, i) && FactsAt(code, i, n).Some?
    ensures |PushedAt(code, i, n)| >= 2 <==> exists p: nat, q: nat :: LastTwo(code, i, n, p, q)
    ensures forall p: nat, q: nat :: LastTwo(code, i, n, p, q) ==>
              var pushed := PushedAt(code, i, n);
              |pushed| >= 2 && pushed[|pushed| - 2] == Passed(code, i, p, s) && pushed[|pushed| - 1] == Passed(code, i, q, s)
  {
    hide PushedAt;
    hide Passed;
    PushesMatch(code, i, n, s);
    if q: nat :| LastPush(code, i, n, q) {
      PushesMatch(code, i, q, s);
      forall q': nat | LastPush(code, i, n, q') ensures q' == q {}
      hide FactsAt;
      hide LastPush;
      if p: nat :| LastPush(code, i, q, p) {
        assert LastTwo(code, i, n, p, q);
      }
    }
  }

  /** The candidates for the stride are what exact evaluation shows of the argument. */
  lemma ValuesExactly(code: seq<Instruction>, i: nat, c: nat, v: int, s: Setting)
    requires ReachesPlayer(code, i, c)
    ensures v in ValuesAt(code, i, c) <==> Shows(code, i, c, v, s)
  {
    hide FactsAt;
    hide Passed;
    hide LastPush;
    hide LastStore;
    var f := FactsAt(code, i, c).value;
    LastTwoPushes(code, i, c, s);
    StoresMatch(code, i, c, 4, s);
    assert v in Values(f) <==> Some(v) in Arguments(f) && Plausible(Some(v));
  }

  /** Every draw-player call has a chain that shows `v`, there is such a call, and no chain shows anything else. */
  ghost predicate Determined(code: seq<Instruction>, v: int, s: Setting) {
    && (exists c: nat :: IsPlayerCall(code, c))
    && (forall c: nat :: IsPlayerCall(code, c) ==> exists i: nat :: Chain(code, i, c) && Shows(code, i, c, v, s))
    && (forall i: nat, c: nat :: Chain(code, i, c) ==> ShowsAtMost(code, i, c, v, s))
  }

  ghost predicate IsPlayerCall(code: seq<Instruction>, c: nat) {
    c < |code| && code[c].operation == Call(true)
  }

  ghost predicate ShowsAtMost(code: seq<Instruction>, i: nat, c: nat, v: int, s: Setting)
    requires i < c <= |code| && IsSeed(code, i)
  {
    forall w :: Shows(code, i, c, w, s) ==> w == v
  }

  lemma AtMostExactly(code: seq<Instruction>, i: nat, c: nat, v: int, s: Setting)
    requires ReachesPlayer(code, i, c)
    ensures ValuesAt(code, i, c) <= {v} <==> ShowsAtMost(code, i, c, v, s)
    ensures ValuesAt(code, i, c) <= {v} ==> (ValuesAt(code, i, c) == {v} <==> Shows(code, i, c, v, s))
  {
    hide Shows;
    hide FactsAt;
    var values := ValuesAt(code, i, c);
    hide ValuesAt;
    forall w: int ensures w in values <==> Shows(code, i, c, w, s) {
      ValuesExactly(code, i, c, w, s);
    }
    if ShowsAtMost(code, i, c, v, s) {
      forall w | w in values ensures w in {v} {
        assert Shows(code, i, c, w, s);
      }
    }
    if values <= {v} && v in values {
      assert values == {v};
    }
  }

  /** The recovery decides exactly this, whatever the setting in which the code is evaluated. */
  lemma RecoveredExactly(code: seq<Instruction>, v: int, s: Setting)
    ensures Recovered(code, v) <==> Determined(code, v, s)
  {
    hide Shows;
    hide ValuesAt;
    hide Unbroken;
    hide FactsAt;
    forall i: nat, c: nat
      ensures ReachesPlayer(code, i, c) <==> Chain(code, i, c)
      ensures ReachesPlayer(code, i, c) ==> (ValuesAt(code, i, c) <= {v} <==> ShowsAtMost(code, i, c, v, s))
      ensures ReachesPlayer(code, i, c) && ValuesAt(code, i, c) <= {v} ==>
                (ValuesAt(code, i, c) == {v} <==> Shows(code, i, c, v, s))
    {
      ReachesExactly(code, i, c);
      if ReachesPlayer(code, i, c) {
        AtMostExactly(code, i, c, v, s);
      }
    }
    hide ReachesPlayer;
    hide Chain;
    forall c: nat ensures PlayerCall(code, c) <==> IsPlayerCall(code, c) {}
  }

  lemma TwoValues(values: set<int>)
    ensures |values| > 1 <==> exists v, w :: v in values && w in values && v != w
  {
    if |values| > 1 {
      HasElement(values);
      var v :| v in values;
      var rest := values - {v};
      assert values == rest + {v};
      HasElement(rest);
      var w :| w in rest;
    }
    if v, w :| v in values && w in values && v != w {
      assert {v, w} <= values;
      assert values == {v, w} + (values - {v, w});
    }
  }

  /** The other error: some chain shows two values. */
  lemma AmbiguousExactly(code: seq<Instruction>, i: nat, c: nat, s: Setting)
    ensures Ambiguous(code, i, c) <==>
            Chain(code, i, c) && exists v, w :: Shows(code, i, c, v, s) && Shows(code, i, c, w, s) && v != w
  {
    hide Shows;
    ReachesExactly(code, i, c);
    if ReachesPlayer(code, i, c) {
      hide FactsAt;
      hide Unbroken;
      var values := ValuesAt(code, i, c);
      hide ValuesAt;
      forall w: int ensures w in values <==> Shows(code, i, c, w, s) {
        ValuesExactly(code, i, c, w, s);
      }
      TwoValues(values);
    }
  }
}
