/** A stride that the compiler has multiplied out: 17080 as shifts, differences and address expressions. */
module StrideExample {
  import opened Outcomes
  import opened AffineModel
  import opened AffineFlow
  import opened StrideRecovery
  import opened StrideArithmetic

  function Indexed(base: Register, index: Register, scale: nat): Operand {
    Mem([Term(false, base, 1), Term(false, index, scale)], 0, None)
  }

  function Step(n: nat): Operation {
    match n
    case 0 => And(Reg(Eax))
    case 1 => Lea(Reg(Ecx), Indexed(Eax, Eax, 8))
    case 2 => Shl(Reg(Ecx), Const(Some(3)))
    case 3 => Sub(Reg(Ecx), Reg(Eax))
    case 4 => Lea(Reg(Ecx), Indexed(Ecx, Ecx, 2))
    case 5 => Lea(Reg(Eax), Indexed(Eax, Ecx, 2))
    case 6 => Lea(Reg(Ecx), Indexed(Eax, Eax, 4))
    case 7 => Lea(Reg(Eax), Indexed(Edx, Ecx, 8))
    case 8 => Push(Reg(Eax))
    case 9 => Push(Const(Some(3)))
    case _ => Call(true)
  }

  const CODE: seq<Instruction> := seq(11, (n: nat) => Instruction(false, Step(n)))

  predicate Slopes(line: StrideArithmetic.Line, eax: int, ecx: int) {
    && line.followed == {Eax, Ebx, Ecx, Edx, Esi, Edi, Ebp, Esp}
    && line.Slope(Eax) == eax && line.Slope(Ecx) == ecx && line.Slope(Edx) == 0
  }

  lemma IndexedSum(base: Register, index: Register, scale: nat, x: Numbers)
    ensures Sum(Indexed(base, index, scale).terms, x) == x(base) + scale * x(index)
  {
    var terms := Indexed(base, index, scale).terms;
    assert terms[..1] == [Term(false, base, 1)] && terms[..1][..0] == [];
  }

  lemma NextIndexed(line: StrideArithmetic.Line, eax: int, ecx: int, target: Register, base: Register, index: Register, scale: nat,
                    given: Operand -> int)
    requires Slopes(line, eax, ecx) && base in {Eax, Ecx, Edx} && index in {Eax, Ecx} && target in {Eax, Ecx}
    ensures var slope := line.Slope(base) + scale * line.Slope(index);
            Slopes(Next(line, Lea(Reg(target), Indexed(base, index, scale)), given),
                   if target == Eax then slope else eax, if target == Ecx then slope else ecx)
  {
    IndexedSum(base, index, scale, line.low);
    IndexedSum(base, index, scale, line.high);
    hide Sum;
    Distributes(line.low(index), line.high(index), scale);
  }

  lemma NextShifted(line: StrideArithmetic.Line, eax: int, ecx: int, given: Operand -> int)
    requires Slopes(line, eax, ecx)
    ensures Slopes(Next(line, Shl(Reg(Ecx), Const(Some(3))), given), eax, 8 * ecx)
  {
    forall x ensures Doubled(x, 3) == 8 * x {
      assert Doubled(x, 3) == Doubled(2 * x, 2) == Doubled(4 * x, 1) == Doubled(8 * x, 0);
    }
  }

  lemma NextDifference(line: StrideArithmetic.Line, eax: int, ecx: int, given: Operand -> int)
    requires Slopes(line, eax, ecx)
    ensures Slopes(Next(line, Sub(Reg(Ecx), Reg(Eax)), given), eax, ecx - eax)
  {}

  lemma FirstSlopes(start: Numbers)
    ensures Slopes(First(Eax, start), 1, 0)
  {}

  lemma NextLine(n: nat, s: Setting)
    requires 1 <= n < 10
    ensures LineAt(CODE, 0, n + 1, s) == Next(LineAt(CODE, 0, n, s), Step(n), s.given)
  {
    assert CODE[n].operation == Step(n);
    hide Next;
  }

  /** What one line makes of the slopes of eax and ecx. */
  lemma StepSlopes(n: nat, s: Setting, eax: int, ecx: int)
    requires 1 <= n < 8 && Slopes(LineAt(CODE, 0, n, s), eax, ecx)
    ensures Slopes(LineAt(CODE, 0, n + 1, s),
                   match n case 5 => eax + 2 * ecx case 7 => 8 * ecx case _ => eax,
                   match n case 1 => 9 * eax case 2 => 8 * ecx case 3 => ecx - eax case 4 => 3 * ecx case 6 => 5 * eax
                           case _ => ecx)
  {
    hide Next;
    NextLine(n, s);
    var line := LineAt(CODE, 0, n, s);
    hide LineAt;
    match n {
      case 1 => NextIndexed(line, eax, ecx, Ecx, Eax, Eax, 8, s.given);
      case 2 => NextShifted(line, eax, ecx, s.given);
      case 3 => NextDifference(line, eax, ecx, s.given);
      case 4 => NextIndexed(line, eax, ecx, Ecx, Ecx, Ecx, 2, s.given);
      case 5 => NextIndexed(line, eax, ecx, Eax, Eax, Ecx, 2, s.given);
      case 6 => NextIndexed(line, eax, ecx, Ecx, Eax, Eax, 4, s.given);
      case _ => NextIndexed(line, eax, ecx, Eax, Edx, Ecx, 8, s.given);
    }
  }

  lemma SlopesBehind(s: Setting)
    ensures Slopes(LineAt(CODE, 0, 8, s), 17080, 2135)
  {
    FirstSlopes(s.start);
    assert LineAt(CODE, 0, 1, s) == First(Eax, s.start);
    hide Slopes;
    hide LineAt;
    hide First;
    StepSlopes(1, s, 1, 0);
    StepSlopes(2, s, 1, 9);
    StepSlopes(3, s, 1, 72);
    StepSlopes(4, s, 1, 71);
    StepSlopes(5, s, 1, 213);
    StepSlopes(6, s, 427, 213);
    StepSlopes(7, s, 427, 2135);
  }

  lemma PassedStride(s: Setting)
    ensures Passed(CODE, 0, 8, s) == Some(17080) && Passed(CODE, 0, 9, s) == Some(0)
  {
    assert CODE[8].operation == Step(8) && CODE[9].operation == Step(9);
    hide Next;
    SlopesBehind(s);
    hide LineAt;
  }

  lemma Pushes(p: nat, q: nat)
    ensures LastTwo(CODE, 0, 10, p, q) <==> p == 8 && q == 9
  {
    assert CODE[8].operation == Step(8) && CODE[9].operation == Step(9);
  }

  lemma NoStore(p: nat)
    requires p < 11
    ensures !StoresOnStack(CODE[p].operation) && Passes(Step(p)) == (1 <= p < 10) && CODE[p].operation == Step(p) && !CODE[p].join
    ensures !IsPlayerCall(CODE, p) == (p < 10)
  {}

  lemma ShowsStride(s: Setting, v: int)
    ensures Chain(CODE, 0, 10) && (Shows(CODE, 0, 10, v, s) <==> v == 17080)
  {
    PassedStride(s);
    forall p: nat | p < 11
      ensures !StoresOnStack(CODE[p].operation) && Passes(CODE[p].operation) == (1 <= p < 10) && !CODE[p].join
    {
      NoStore(p);
    }
    forall p: nat, q: nat
      ensures LastTwo(CODE, 0, 10, p, q) <==> p == 8 && q == 9
    {
      Pushes(p, q);
    }
    hide Passed;
    hide Passes;
    hide LastTwo;
    hide StoresOnStack;
    assert LastTwo(CODE, 0, 10, 8, 9);
  }

  /** The stride is recovered, as the source's own tests demand. */
  lemma StrideRecovered(s: Setting)
    ensures Recovered(CODE, 17080)
  {
    forall c: nat ensures IsPlayerCall(CODE, c) <==> c == 10 {
      if c < 11 { NoStore(c); }
    }
    forall i: nat, c: nat | Chain(CODE, i, c) ensures i == 0 && c == 10 {
      NoStore(i);
      assert CODE[i].operation == Step(i);
    }
    forall w ensures Chain(CODE, 0, 10) && (Shows(CODE, 0, 10, w, s) <==> w == 17080) {
      ShowsStride(s, w);
    }
    hide Shows;
    hide Chain;
    hide IsPlayerCall;
    assert IsPlayerCall(CODE, 10);
    assert Chain(CODE, 0, 10) && Shows(CODE, 0, 10, 17080, s) && ShowsAtMost(CODE, 0, 10, 17080, s);
    RecoveredExactly(CODE, 17080, s);
  }
}
