/** What a recovered stride says about the frame argument that the draw-player call finds on the stack. */
module StrideMeaning {
  import opened Outcomes
  import opened AffineModel
  import opened AffineFlow
  import opened AffineSoundness
  import opened AffineExact
  import opened StrideRecovery

  /** The machine states of a run of the chain behind the seed at `i`, up to the call at `c`. */
  ghost predicate IsRun(symbols: Operand -> Word, code: seq<Instruction>, i: nat, c: nat, states: seq<State>)
    requires i < c < |code|
  {
    |states| == c - i && forall n :: i < n < c ==> Runs(symbols, code[n].operation, states[n - i - 1], states[n - i])
  }

  predicate ChainEncodable(code: seq<Instruction>, i: nat, c: nat)
    requires i < c < |code|
  {
    forall n :: i < n < c ==> Encodable(code[n].operation)
  }

  predicate ChainTracked(code: seq<Instruction>, i: nat, c: nat)
    requires i < c < |code|
  {
    forall n :: i < n < c ==> Tracked(code[n].operation)
  }

  ghost predicate LoadsAgreeAlong(code: seq<Instruction>, i: nat, c: nat, a: seq<State>, b: seq<State>)
    requires i < c < |code| && |a| == |b| == c - i
  {
    forall n :: i < n < c ==> LoadsAgree(code[n].operation, a[n - i - 1], b[n - i - 1])
  }

  /** Which recorded arguments are still in place before instruction `n`. */
  function StandingAt(code: seq<Instruction>, i: nat, n: nat): Standing
    requires i < n <= |code|
  {
    if n == i + 1 then NOTHING_STANDS else Stand(StandingAt(code, i, n - 1), code[n - 1].operation)
  }

  /** The value was recorded for a word that is still in place at the call: two pushes or a store that nothing has
      moved or overwritten since. */
  predicate Stands(code: seq<Instruction>, i: nat, c: nat, v: int)
    requires Reaches(code, i, c)
  {
    var f, st := FactsAt(code, i, c).value, StandingAt(code, i, c);
    var n := |f.pushed|;
    || (st.pushes == 2 && n >= 2 && f.pushed[n - 1] == Some(0) && f.pushed[n - 2] == Some(v))
    || (st.stored && 4 in f.stores && f.stores[4] == Some(v))
  }

  /** Along a chain, every known coefficient is the distance between the two runs, in registers and standing words. */
  lemma {:induction false} ChainSound(symbols: Operand -> Word, code: seq<Instruction>, i: nat, c: nat, n: nat,
                                      a: seq<State>, b: seq<State>, d: int)
    requires i < n <= c < |code| && IsSeed(code, i) && FactsAt(code, i, n).Some?
    requires IsRun(symbols, code, i, c, a) && IsRun(symbols, code, i, c, b)
    requires ChainEncodable(code, i, c) && ChainTracked(code, i, c) && LoadsAgreeAlong(code, i, c, a, b)
    requires Apart(code[i].operation.dst.register, a[0], b[0], d)
    ensures Holds(FactsAt(code, i, n).value, StandingAt(code, i, n), a[n - i - 1], b[n - i - 1], d)
    decreases n
  {
    hide Holds;
    hide Runs;
    hide Encodable;
    hide Tracked;
    hide LoadsAgree;
    hide Apart;
    hide Transfer;
    hide Stand;
    if n == i + 1 {
      SeedHolds(code[i].operation.dst.register, a[0], b[0], d);
    } else {
      ChainSound(symbols, code, i, c, n - 1, a, b, d);
      var m, s := n - 1, n - i - 2;
      assert i < m < c;
      TransferSound(symbols, code[m].operation, FactsAt(code, i, m).value, FactsAt(code, i, n).value,
                    StandingAt(code, i, m), a[s], b[s], a[s + 1], b[s + 1], d);
    }
  }

  /** The frame argument: the second double word on the stack when the call is made. */
  function FrameArgument(s: State): Word {
    StackWord(s, 4)
  }

  lemma StandingArgument(code: seq<Instruction>, i: nat, c: nat, v: int, a: State, b: State, d: int)
    requires Reaches(code, i, c) && Stands(code, i, c, v)
    requires Holds(FactsAt(code, i, c).value, StandingAt(code, i, c), a, b, d)
    ensures Differ(FrameArgument(a), FrameArgument(b), v, d)
  {
    hide Differ;
    hide FactsAt;
    hide StandingAt;
    hide StackWord;
  }

  /** A recovered stride is the distance between the frame arguments that two runs leave on the stack for the call, if
      they enter a chain of that call one apart in the masked index and the recorded argument still stands there. */
  lemma RecoveredMeans(symbols: Operand -> Word, code: seq<Instruction>, v: int, i: nat, c: nat,
                       a: seq<State>, b: seq<State>, d: int)
    requires Recovered(code, v) && ReachesPlayer(code, i, c) && Stands(code, i, c, v)
    requires IsRun(symbols, code, i, c, a) && IsRun(symbols, code, i, c, b)
    requires ChainEncodable(code, i, c) && ChainTracked(code, i, c) && LoadsAgreeAlong(code, i, c, a, b)
    requires Apart(code[i].operation.dst.register, a[0], b[0], d)
    ensures Differ(FrameArgument(a[c - i - 1]), FrameArgument(b[c - i - 1]), v, d)
  {
    hide Holds;
    hide FactsAt;
    hide StandingAt;
    hide Stands;
    hide FrameArgument;
    hide ChainEncodable;
    hide ChainTracked;
    hide LoadsAgreeAlong;
    hide Apart;
    hide Differ;
    ChainSound(symbols, code, i, c, c, a, b, d);
    StandingArgument(code, i, c, v, a[c - i - 1], b[c - i - 1], d);
  }

  // When loads agree

  /** No instruction loads after an earlier one has written memory. */
  predicate LoadsBeforeWrites(code: seq<Instruction>, i: nat, c: nat)
    requires i < c < |code|
  {
    forall m, n :: i < m < n < c && WritesMemory(code[m].operation) ==>
      Source(code[n].operation).Some? ==> !Source(code[n].operation).value.Mem?
  }

  lemma {:induction false} MemoryKept(symbols: Operand -> Word, code: seq<Instruction>, i: nat, c: nat, n: nat,
        states: seq<State>)
    requires i < n < c < |code| && IsRun(symbols, code, i, c, states)
    requires forall m :: i < m < n ==> !WritesMemory(code[m].operation)
    ensures states[n - i - 1].memory == states[0].memory
    decreases n
  {
    hide RegistersRun;
    hide WordAt;
    if n > i + 1 {
      MemoryKept(symbols, code, i, c, n - 1, states);
      assert Runs(symbols, code[n - 1].operation, states[n - 1 - i - 1], states[n - 1 - i]);
    }
  }

  /** Then runs that start with the same memory load the same values, and nothing has to be assumed. */
  lemma LoadsBeforeWritesAgree(symbols: Operand -> Word, code: seq<Instruction>, i: nat, c: nat, a: seq<State>,
        b: seq<State>)
    requires i < c < |code| && LoadsBeforeWrites(code, i, c)
    requires IsRun(symbols, code, i, c, a) && IsRun(symbols, code, i, c, b) && a[0].memory == b[0].memory
    ensures LoadsAgreeAlong(code, i, c, a, b)
  {
    hide Runs;
    hide RegistersRun;
    hide WritesMemory;
    hide Address;
    forall n | i < n < c
      ensures LoadsAgree(code[n].operation, a[n - i - 1], b[n - i - 1])
    {
      if Source(code[n].operation).Some? && Source(code[n].operation).value.Mem? {
        MemoryKept(symbols, code, i, c, n, a);
        MemoryKept(symbols, code, i, c, n, b);
      }
    }
  }

  // From the code alone

  /** Two runs from the same memory that start a distance apart in the masked register, and whose frame arguments at
      the call are not `v` times that distance apart. */
  ghost predicate Misled(code: seq<Instruction>, i: nat, c: nat, v: int)
    requires i < c < |code| && IsSeed(code, i)
  {
    exists symbols: Operand -> Word, a, b, d :: WrongRuns(symbols, code, i, c, v, a, b, d)
  }

  ghost predicate WrongRuns(symbols: Operand -> Word, code: seq<Instruction>, i: nat, c: nat, v: int,
      a: seq<State>, b: seq<State>, d: int)
    requires i < c < |code| && IsSeed(code, i)
  {
    && IsRun(symbols, code, i, c, a) && IsRun(symbols, code, i, c, b)
    && Apart(code[i].operation.dst.register, a[0], b[0], d) && a[0].memory == b[0].memory
    && !Differ(FrameArgument(a[c - i - 1]), FrameArgument(b[c - i - 1]), v, d)
  }

  /** Three properties of the code, and nothing about its runs, rule that out. */
  predicate Faithful(code: seq<Instruction>, i: nat, c: nat, v: int)
    requires Reaches(code, i, c)
  {
    ChainTracked(code, i, c) && LoadsBeforeWrites(code, i, c) && Stands(code, i, c, v)
  }

  lemma FaithfulIsNotMisled(code: seq<Instruction>, v: int, i: nat, c: nat)
    requires Recovered(code, v) && ReachesPlayer(code, i, c) && ChainEncodable(code, i, c) && Faithful(code, i, c, v)
    ensures !Misled(code, i, c, v)
  {
    hide Recovered;
    hide Stands;
    hide LoadsBeforeWrites;
    hide ChainTracked;
    hide ChainEncodable;
    hide FactsAt;
    hide Apart;
    hide Differ;
    hide FrameArgument;
    assert Stands(code, i, c, v);
    forall symbols: Operand -> Word, a, b, d
      ensures !WrongRuns(symbols, code, i, c, v, a, b, d)
    {
      if WrongRuns(symbols, code, i, c, v, a, b, d) {
        LoadsBeforeWritesAgree(symbols, code, i, c, a, b);
        RecoveredMeans(symbols, code, v, i, c, a, b, d);
      }
    }
  }
}
