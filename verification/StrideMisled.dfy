/** Codes for which the recovery returns a wrong stride. Each fails one of the three conditions for a faithful code and
    meets the others, so none of the conditions can be dropped. */
module StrideMisled {
  import opened Outcomes
  import opened AffineModel
  import opened AffineSoundness
  import opened AffineExact
  import opened StrideMeaning
  import opened StraightCode

  /** The store of the scaled index is followed by an addition to its slot, which the recovery skips. */
  function AddedToSlot(): seq<Operation> {
    [Multiply(), StoreArgument(Eax), Add(StackOperand(4), Reg(Eax))]
  }

  /** The pushed argument is overwritten by a store of an unrelated value into its slot. */
  function StoredOverPush(): seq<Operation> {
    [Multiply(), Push(Reg(Eax)), Push(Const(Some(0))), StoreArgument(Ecx)]
  }

  /** The pushed arguments are dropped. */
  function DroppedPushes(): seq<Operation> {
    [Multiply(), Push(Reg(Eax)), Push(Const(Some(0))), Add(Reg(Esp), Const(Some(8)))]
  }

  /** The stored argument is overwritten through another register. */
  function StoredThroughPointer(): seq<Operation> {
    [Multiply(), StoreArgument(Eax), Mov(Cell(), Reg(Ecx))]
  }

  /** The index is stored and loaded back, and the copy is taken for a constant. */
  function LoadedIndex(): seq<Operation> {
    [Mov(Cell(), Reg(Eax)), Mov(Reg(Ecx), Cell()), Multiply(), Add(Reg(Eax), Reg(Ecx)), StoreArgument(Eax)]
  }

  /** The one-operand multiplication changes eax behind the recovery's back. */
  function WidelyMultiplied(): seq<Operation> {
    [WideImul(Reg(Edx)), Multiply(), StoreArgument(Eax)]
  }

  /** The second push is of 16 bits, and the first argument is not where two pushes would leave it. */
  function HalfPushed(): seq<Operation> {
    [Multiply(), Push(Reg(Eax)), Push(Part(Ecx, LowHalf))]
  }

  lemma AddedRuns(index: Word)
    requires index < 2
    ensures FrameArgument(Final(AddedToSlot(), Start(index))) == 2 * STRIDE * index
  {
    hide Final;
    hide Exec;
    hide FrameArgument;
    var s := Start(index);
    var mul, put, add := Multiply(), StoreArgument(Eax), Add(StackOperand(4), Reg(Eax));
    AtStart(index);
    Grows([], mul, s);
    RunMultiply(s, index, 0, 3, 0x1000, 0);
    Grows([] + [mul], put, s);
    RunStore(Final([] + [mul], s), Eax, index * STRIDE, 0, 3, 0x1000, 0);
    Grows([] + [mul] + [put], add, s);
    RunAddedSlot(Final([] + [mul] + [put], s), index * STRIDE, 0, 3, 0x1000, index * STRIDE);
    assert [] + [mul] + [put] + [add] == AddedToSlot();
  }

  lemma AddedKnows()
    ensures Knows(AddedToSlot(), STRIDE, 0, [], map[4 := Some(STRIDE)], NOTHING_STANDS)
  {
    hide Knows;
    var mul, put, add := [Multiply()], [StoreArgument(Eax)], [Add(StackOperand(4), Reg(Eax))];
    KnowsStart();
    KnowsWrite([], Multiply(), 1, 0);
    KnowsStore([] + mul, Eax, STRIDE, 0, [], NOTHING_STANDS);
    KnowsOverwritten([] + mul + put, add[0], STRIDE, 0, map[4 := Some(STRIDE)], Standing(0, true));
    assert [] + mul + put + add == AddedToSlot();
  }

  /** An addition to the slot of the stored argument doubles it; the recovery skips it. */
  lemma AddedToSlotMisleads()
    ensures MisleadsWith(Code(AddedToSlot()), 4, true, true, false)
  {
    hide Knows;
    hide Final;
    hide MisleadsWith;
    hide Code;
    AddedRuns(0);
    AddedRuns(1);
    AddedKnows();
    Finding(AddedToSlot(), STRIDE, 0, [], map[4 := Some(STRIDE)], NOTHING_STANDS, 2 * STRIDE);
  }

  lemma StoredOverPushRuns(index: Word)
    requires index < 2
    ensures FrameArgument(Final(StoredOverPush(), Start(index))) == 0
  {
    hide Final;
    hide Exec;
    hide FrameArgument;
    var s := Start(index);
    var mul, arg, flags, put := Multiply(), Push(Reg(Eax)), Push(Const(Some(0))), StoreArgument(Ecx);
    AtStart(index);
    Grows([], mul, s);
    RunMultiply(s, index, 0, 3, 0x1000, 0);
    var t := Final([] + [mul], s);
    Grows([] + [mul], arg, s);
    RunPush(t, Reg(Eax), index * STRIDE, 0, 3, 0x1000);
    var u := Final([] + [mul] + [arg], s);
    Grows([] + [mul] + [arg], flags, s);
    RunPush(u, Const(Some(0)), index * STRIDE, 0, 3, 0xFFC);
    var v := Final([] + [mul] + [arg] + [flags], s);
    Grows([] + [mul] + [arg] + [flags], put, s);
    RunStore(v, Ecx, index * STRIDE, 0, 3, 0xFF8, FrameArgument(v));
    assert [] + [mul] + [arg] + [flags] + [put] == StoredOverPush();
  }

  /** Two pushes, the argument and then a constant. */
  lemma PushesKnown()
    ensures Knows([] + [Multiply()] + [Push(Reg(Eax))] + [Push(Const(Some(0)))], STRIDE, 0, [Some(STRIDE), Some(0)], map[], Standing(2, false))
  {
    hide Knows;
    KnowsStart();
    KnowsWrite([], Multiply(), 1, 0);
    KnowsPush([] + [Multiply()], Reg(Eax), STRIDE, 0, [], NOTHING_STANDS);
    assert [] + [Some(STRIDE)] == [Some(STRIDE)] && [Some(STRIDE)] + [Some(0)] == [Some(STRIDE), Some(0)];
    KnowsPush([] + [Multiply()] + [Push(Reg(Eax))], Const(Some(0)), STRIDE, 0, [Some(STRIDE)], Standing(1, false));
  }

  lemma StoredOverPushKnows()
    ensures Knows(StoredOverPush(), STRIDE, 0, [Some(STRIDE), Some(0)], map[4 := Some(0)], Standing(1, true))
  {
    hide Knows;
    PushesKnown();
    KnowsStore([] + [Multiply()] + [Push(Reg(Eax))] + [Push(Const(Some(0)))], Ecx, STRIDE, 0, [Some(STRIDE),
               Some(0)], Standing(2, false));
    assert [] + [Multiply()] + [Push(Reg(Eax))] + [Push(Const(Some(0)))] + [StoreArgument(Ecx)] == StoredOverPush();
  }

  /** A store of a constant over the pushed argument; the recovery keeps the push as the only plausible argument. */
  lemma StoredOverPushMisleads()
    ensures MisleadsWith(Code(StoredOverPush()), 5, true, true, false)
  {
    hide Knows;
    hide Final;
    hide MisleadsWith;
    hide Code;
    StoredOverPushRuns(0);
    StoredOverPushRuns(1);
    StoredOverPushKnows();
    assert map[4 := Some(0)][4] != map[4 := Some(STRIDE)][4];
    Finding(StoredOverPush(), STRIDE, 0, [Some(STRIDE), Some(0)], map[4 := Some(0)], Standing(1, true), 0);
  }

  lemma DroppedPushesRuns(index: Word)
    requires index < 2
    ensures FrameArgument(Final(DroppedPushes(), Start(index))) == 0
  {
    hide Final;
    hide Exec;
    hide FrameArgument;
    hide WordAt;
    var s := Start(index);
    var mul, arg, flags, drop := Multiply(), Push(Reg(Eax)), Push(Const(Some(0))), Add(Reg(Esp), Const(Some(8)));
    AtStart(index);
    Grows([], mul, s);
    RunMultiply(s, index, 0, 3, 0x1000, 0);
    var t := Final([] + [mul], s);
    Grows([] + [mul], arg, s);
    RunPush(t, Reg(Eax), index * STRIDE, 0, 3, 0x1000);
    AbovePush(t, Reg(Eax));
    var u := Final([] + [mul] + [arg], s);
    Grows([] + [mul] + [arg], flags, s);
    RunPush(u, Const(Some(0)), index * STRIDE, 0, 3, 0xFFC);
    AbovePush(u, Const(Some(0)));
    var v := Final([] + [mul] + [arg] + [flags], s);
    Grows([] + [mul] + [arg] + [flags], drop, s);
    RunDrop(v, index * STRIDE, 0, 3);
    MultiplyMemory(s);
    assert [] + [mul] + [arg] + [flags] + [drop] == DroppedPushes();
  }

  lemma MultiplyMemory(s: State)
    requires forall y :: s.memory(y) == 0
    ensures Exec(NoSymbols(), Multiply(), s).memory == s.memory && WordAt(s.memory, 0x1004) == 0
  {}

  lemma DroppedPushesKnows()
    ensures Knows(DroppedPushes(), STRIDE, 0, [Some(STRIDE), Some(0)], map[], NOTHING_STANDS)
  {
    hide Knows;
    PushesKnown();
    KnowsDropped([] + [Multiply()] + [Push(Reg(Eax))] + [Push(Const(Some(0)))], STRIDE, 0, [Some(STRIDE), Some(0)],
                 Standing(2, false));
    assert [] + [Multiply()] + [Push(Reg(Eax))] + [Push(Const(Some(0)))] + [Add(Reg(Esp), Const(Some(8)))] == DroppedPushes();
  }

  /** The pushes are dropped before the call; the recovery still takes them for its arguments. */
  lemma DroppedPushesMislead()
    ensures MisleadsWith(Code(DroppedPushes()), 5, true, true, false)
  {
    hide Knows;
    hide Final;
    hide MisleadsWith;
    hide Code;
    DroppedPushesRuns(0);
    DroppedPushesRuns(1);
    DroppedPushesKnows();
    Finding(DroppedPushes(), STRIDE, 0, [Some(STRIDE), Some(0)], map[], NOTHING_STANDS, 0);
  }

  lemma ThroughPointerRuns(index: Word)
    requires index < 2
    ensures FrameArgument(Final(StoredThroughPointer(), Start(index))) == 0
  {
    hide Final;
    hide Exec;
    hide FrameArgument;
    var s := Start(index);
    var mul, put, over := Multiply(), StoreArgument(Eax), Mov(Cell(), Reg(Ecx));
    AtStart(index);
    Grows([], mul, s);
    RunMultiply(s, index, 0, 3, 0x1000, 0);
    Grows([] + [mul], put, s);
    RunStore(Final([] + [mul], s), Eax, index * STRIDE, 0, 3, 0x1000, 0);
    Grows([] + [mul] + [put], over, s);
    RunPointer(Final([] + [mul] + [put], s), Ecx, index * STRIDE, 0, 3, index * STRIDE);
    assert [] + [mul] + [put] + [over] == StoredThroughPointer();
  }

  lemma ThroughPointerKnows()
    ensures Knows(StoredThroughPointer(), STRIDE, 0, [], map[4 := Some(STRIDE)], NOTHING_STANDS)
  {
    hide Knows;
    KnowsStart();
    KnowsWrite([], Multiply(), 1, 0);
    KnowsStore([] + [Multiply()], Eax, STRIDE, 0, [], NOTHING_STANDS);
    KnowsOverwritten([] + [Multiply()] + [StoreArgument(Eax)], Mov(Cell(), Reg(Ecx)), STRIDE, 0,
                     map[4 := Some(STRIDE)], Standing(0, true));
    assert [] + [Multiply()] + [StoreArgument(Eax)] + [Mov(Cell(), Reg(Ecx))] == StoredThroughPointer();
  }

  /** The stored argument is overwritten through a register that points at it. */
  lemma StoredThroughPointerMisleads()
    ensures MisleadsWith(Code(StoredThroughPointer()), 4, true, true, false)
  {
    hide Knows;
    hide Final;
    hide MisleadsWith;
    hide Code;
    ThroughPointerRuns(0);
    ThroughPointerRuns(1);
    ThroughPointerKnows();
    Finding(StoredThroughPointer(), STRIDE, 0, [], map[4 := Some(STRIDE)], NOTHING_STANDS, 0);
  }

  /** The index has been stored and loaded back. */
  lemma IndexCopied(index: Word)
    requires index < 2
    ensures At(Final([] + [Mov(Cell(), Reg(Eax))] + [Mov(Reg(Ecx), Cell())], Start(index)), index, index, 3, 0x1000, index)
  {
    hide Final;
    hide Exec;
    hide FrameArgument;
    var s := Start(index);
    var save, load := Mov(Cell(), Reg(Eax)), Mov(Reg(Ecx), Cell());
    AtStart(index);
    Grows([], save, s);
    RunPointer(s, Eax, index, 0, 3, 0);
    Grows([] + [save], load, s);
    RunLoad(Final([] + [save], s), index, 0, 3, index);
  }

  lemma LoadedIndexRuns(index: Word)
    requires index < 2
    ensures FrameArgument(Final(LoadedIndex(), Start(index))) == index * STRIDE + index
  {
    hide Final;
    hide Exec;
    hide FrameArgument;
    hide Start;
    var s := Start(index);
    var before := [] + [Mov(Cell(), Reg(Eax))] + [Mov(Reg(Ecx), Cell())];
    IndexCopied(index);
    Grows(before, Multiply(), s);
    RunMultiply(Final(before, s), index, index, 3, 0x1000, index);
    Grows(before + [Multiply()], Add(Reg(Eax), Reg(Ecx)), s);
    RunSum(Final(before + [Multiply()], s), index * STRIDE, index, 3, 0x1000, index);
    var summed := before + [Multiply()] + [Add(Reg(Eax), Reg(Ecx))];
    Grows(summed, StoreArgument(Eax), s);
    RunStore(Final(summed, s), Eax, index * STRIDE + index, index, 3, 0x1000, index);
    assert summed + [StoreArgument(Eax)] == LoadedIndex();
  }

  lemma LoadedIndexKnows()
    ensures Knows(LoadedIndex(), STRIDE, 0, [], map[4 := Some(STRIDE)], Standing(0, true))
  {
    hide Knows;
    var save, load, mul, sum, put := Mov(Cell(), Reg(Eax)), Mov(Reg(Ecx), Cell()), Multiply(), Add(Reg(Eax), Reg(Ecx)), StoreArgument(Eax);
    KnowsStart();
    KnowsOverwritten([], save, 1, 0, map[], NOTHING_STANDS);
    KnowsWrite([] + [save], load, 1, 0);
    KnowsWrite([] + [save] + [load], mul, 1, 0);
    KnowsWrite([] + [save] + [load] + [mul], sum, STRIDE, 0);
    KnowsStore([] + [save] + [load] + [mul] + [sum], Eax, STRIDE, 0, [], NOTHING_STANDS);
    assert [] + [save] + [load] + [mul] + [sum] + [put] == LoadedIndex();
  }

  /** The index is saved, loaded back and added: the stride is one more than the recovery says. */
  lemma LoadedIndexMisleads()
    ensures MisleadsWith(Code(LoadedIndex()), 6, true, false, true)
  {
    hide Knows;
    hide Final;
    hide MisleadsWith;
    hide Code;
    LoadedIndexRuns(0);
    LoadedIndexRuns(1);
    LoadedIndexKnows();
    assert WritesMemory(LoadedIndex()[0]) && Source(LoadedIndex()[1]).value.Mem?;
    Finding(LoadedIndex(), STRIDE, 0, [], map[4 := Some(STRIDE)], Standing(0, true), STRIDE + 1);
  }

  lemma WidelyMultipliedRuns(index: Word)
    requires index < 2
    ensures FrameArgument(Final(WidelyMultiplied(), Start(index))) == 3 * index * STRIDE
  {
    hide Final;
    hide Exec;
    hide FrameArgument;
    var s := Start(index);
    var wide, mul, put := WideImul(Reg(Edx)), Multiply(), StoreArgument(Eax);
    AtStart(index);
    Grows([], wide, s);
    RunWide(s, index, 0, 0x1000, 0);
    Grows([] + [wide], mul, s);
    RunMultiply(Final([] + [wide], s), 3 * index, 0, 0, 0x1000, 0);
    Grows([] + [wide] + [mul], put, s);
    RunStore(Final([] + [wide] + [mul], s), Eax, 3 * index * STRIDE, 0, 0, 0x1000, 0);
    assert [] + [wide] + [mul] + [put] == WidelyMultiplied();
  }

  lemma WidelyMultipliedKnows()
    ensures Knows(WidelyMultiplied(), STRIDE, 0, [], map[4 := Some(STRIDE)], Standing(0, true))
  {
    hide Knows;
    var wide, mul, put := WideImul(Reg(Edx)), Multiply(), StoreArgument(Eax);
    KnowsStart();
    KnowsWrite([], wide, 1, 0);
    KnowsWrite([] + [wide], mul, 1, 0);
    KnowsStore([] + [wide] + [mul], Eax, STRIDE, 0, [], NOTHING_STANDS);
    assert [] + [wide] + [mul] + [put] == WidelyMultiplied();
  }

  /** The one-operand multiplication by 3 is missed. */
  lemma WidelyMultipliedMisleads()
    ensures MisleadsWith(Code(WidelyMultiplied()), 4, false, true, true)
  {
    hide Knows;
    hide Final;
    hide MisleadsWith;
    hide Code;
    WidelyMultipliedRuns(0);
    WidelyMultipliedRuns(1);
    WidelyMultipliedKnows();
    assert !Tracked(WidelyMultiplied()[0]);
    Finding(WidelyMultiplied(), STRIDE, 0, [], map[4 := Some(STRIDE)], Standing(0, true), 3 * STRIDE);
  }

  lemma HalfPushedRuns(index: Word)
    requires index < 2
    ensures FrameArgument(Final(HalfPushed(), Start(index))) == 0
  {
    hide Final;
    hide Exec;
    hide FrameArgument;
    var s := Start(index);
    var mul, arg, half := Multiply(), Push(Reg(Eax)), Push(Part(Ecx, LowHalf));
    AtStart(index);
    Grows([], mul, s);
    RunMultiply(s, index, 0, 3, 0x1000, 0);
    MultiplyMemory(s);
    Grows([] + [mul], arg, s);
    Grows([] + [mul] + [arg], half, s);
    RunHalfPush(Final([] + [mul], s), index * STRIDE);
    assert [] + [mul] + [arg] + [half] == HalfPushed();
  }

  lemma HalfPushedKnows()
    ensures Knows(HalfPushed(), STRIDE, 0, [Some(STRIDE), Some(0)], map[], Standing(2, false))
  {
    hide Knows;
    var mul, arg, half := Multiply(), Push(Reg(Eax)), Push(Part(Ecx, LowHalf));
    KnowsStart();
    KnowsWrite([], mul, 1, 0);
    KnowsPush([] + [mul], Reg(Eax), STRIDE, 0, [], NOTHING_STANDS);
    assert [] + [Some(STRIDE)] == [Some(STRIDE)] && [Some(STRIDE)] + [Some(0)] == [Some(STRIDE), Some(0)];
    KnowsPush([] + [mul] + [arg], Part(Ecx, LowHalf), STRIDE, 0, [Some(STRIDE)], Standing(1, false));
    assert [] + [mul] + [arg] + [half] == HalfPushed();
  }

  /** A 16-bit push leaves the pushed argument two bytes below the place where the call looks for it. */
  lemma HalfPushedMisleads()
    ensures MisleadsWith(Code(HalfPushed()), 4, false, true, true)
  {
    hide Knows;
    hide Final;
    hide MisleadsWith;
    hide Code;
    HalfPushedRuns(0);
    HalfPushedRuns(1);
    HalfPushedKnows();
    assert !Tracked(HalfPushed()[2]);
    Finding(HalfPushed(), STRIDE, 0, [Some(STRIDE), Some(0)], map[], Standing(2, false), 0);
  }
}
