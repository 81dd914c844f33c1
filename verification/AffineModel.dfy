/** Straight-line x86 code as the stride recovery sees it, and how it runs. */
module AffineModel {
  import opened Outcomes
  import opened Bytes

  datatype Register = Eax | Ebx | Ecx | Edx | Esi | Edi | Ebp | Esp

  /** A 16- or 8-bit name inside a register, such as ax, al and ah. */
  datatype Piece = LowHalf | LowByte | HighByte

  /** One register of an address expression, with its sign and scale. */
  datatype Term = Term(negative: bool, register: Register, scale: nat)

  /** Memory operands are double words. */
  datatype Operand =
    | Reg(register: Register)
    | Part(parent: Register, piece: Piece)
    | Const(number: Option<int>)          // a literal, or a symbol whose value the text does not give
    | Mem(terms: seq<Term>, displacement: int, slot: Option<int>) // with its stack slot where that was decoded

  datatype Operation =
    | And(dst: Operand)
    | Branch                              // any jump, loop or return
    | Call(player: bool)                  // whether it is the draw-player call
    | Push(src: Operand)
    | Mov(dst: Operand, src: Operand)
    | Lea(dst: Operand, src: Operand)
    | Add(dst: Operand, src: Operand)
    | Sub(dst: Operand, src: Operand)
    | Inc(dst: Operand)
    | Dec(dst: Operand)
    | WideImul(src: Operand)              // the one-operand form
    | Imul(dst: Operand, src: Operand, factor: Operand)
    | Shl(dst: Operand, count: Operand)
    | Xor(dst: Operand, src: Operand)
    | Compare                             // cmp, test, nop
    | Other

  datatype Instruction = Instruction(join: bool, operation: Operation)

  // Machine states

  const WORD: int := 0x1_0000_0000

  type Word = x: int | 0 <= x < 0x1_0000_0000

  type Memory = int -> Byte

  datatype State = State(registers: Register -> Word, memory: Memory)

  /** The double word at an address; addresses wrap around. */
  function WordAt(m: Memory, x: int): Word {
    m(x % WORD) + 0x100 * m((x + 1) % WORD) + 0x1_0000 * m((x + 2) % WORD) + 0x100_0000 * m((x + 3) % WORD)
  }

  function TermSum(terms: seq<Term>, registers: Register -> Word): int {
    if terms == [] then 0
    else
      var t := terms[|terms| - 1];
      TermSum(terms[..|terms| - 1], registers) + Scaled(t) * registers(t.register)
  }

  function Scaled(t: Term): int {
    (if t.negative then -1 else 1) * t.scale
  }

  function Address(m: Operand, s: State): Word
    requires m.Mem?
  {
    (TermSum(m.terms, s.registers) + m.displacement) % WORD
  }

  function PieceOf(piece: Piece, w: Word): Word {
    match piece
    case LowHalf => w % 0x1_0000
    case LowByte => w % 0x100
    case HighByte => w / 0x100 % 0x100
  }

  /** The value of an operand. A symbol has some fixed value that the analysis does not know. */
  function ValueOf(symbols: Operand -> Word, o: Operand, s: State): Word {
    match o
    case Reg(r) => s.registers(r)
    case Part(r, piece) => PieceOf(piece, s.registers(r))
    case Const(number) => if number.Some? then number.value % WORD else symbols(o)
    case Mem(_, _, _) => WordAt(s.memory, Address(o, s))
  }

  // What an instruction reads and writes

  /** The operand whose value the instruction uses. */
  function Source(op: Operation): Option<Operand> {
    match op
    case Push(src) => Some(src)
    case Mov(_, src) => Some(src)
    case Add(_, src) => Some(src)
    case Sub(_, src) => Some(src)
    case Imul(_, src, _) => Some(src)
    case _ => None
  }

  /** The register that an instruction writes, in full or in part. */
  function Written(op: Operation): Option<Register> {
    match op
    case Mov(dst, _) => Parent(dst)
    case Lea(dst, _) => Parent(dst)
    case Add(dst, _) => Parent(dst)
    case Sub(dst, _) => Parent(dst)
    case Inc(dst) => Parent(dst)
    case Dec(dst) => Parent(dst)
    case Imul(dst, _, _) => Parent(dst)
    case Shl(dst, _) => Parent(dst)
    case Xor(dst, _) => Parent(dst)
    case _ => None
  }

  function Parent(o: Operand): Option<Register> {
    match o
    case Reg(r) => Some(r)
    case Part(r, _) => Some(r)
    case _ => None
  }

  predicate WritesMemory(op: Operation) {
    op.Push? || ((op.Mov? || op.Add? || op.Sub? || op.Inc? || op.Dec? || op.Shl? || op.Xor?) && op.dst.Mem?)
  }

  /** How many bytes a push or a write to memory covers. */
  function Width(op: Operation): (w: nat)
    ensures w == 1 || w == 2 || w == 4
  {
    if (op.Push? || op.Mov? || op.Add? || op.Sub?) && op.src.Part? then if op.src.piece.LowHalf? then 2 else 1 else 4
  }

  function Limit(width: nat): int {
    if width == 1 then 0x100 else if width == 2 then 0x1_0000 else WORD
  }

  function WriteAddress(op: Operation, s: State): Word
    requires WritesMemory(op)
  {
    if op.Push? then (s.registers(Esp) - Width(op)) % WORD else Address(op.dst, s)
  }

  /** A move into a stack slot whose displacement was decoded. */
  function SlotOf(op: Operation): Option<int> {
    if op.Mov? && op.dst.Mem? then op.dst.slot else None
  }

  /** What the processor can encode: `lea` takes an address, operand sizes agree, the wide multiplication has no literal;
      and a decoded stack slot is the displacement of an operand that names esp alone. */
  predicate Encodable(op: Operation) {
    && (op.Lea? ==> op.src.Mem?)
    && (op.WideImul? ==> !op.src.Const?)
    && (op.Push? && op.src.Part? ==> op.src.piece.LowHalf?)
    && (Source(op).Some? && Source(op).value.Part? && !op.Push? ==> !op.dst.Reg?)
    && (SlotOf(op).Some? ==> op.dst == StackOperand(SlotOf(op).value))
  }

  function StackOperand(k: int): Operand {
    Mem([Term(false, Esp, 1)], k, Some(k))
  }

  // Runs

  /** What an instruction leaves in its destination, which held `p`; an unlisted form may leave anything. */
  predicate Leaves(symbols: Operand -> Word, op: Operation, s: State, p: Word, v: Word) {
    match op
    case Push(src) => v % Limit(Width(op)) == ValueOf(symbols, src, s)
    case Mov(_, src) => v % Limit(Width(op)) == ValueOf(symbols, src, s)
    case Lea(_, Mem(_, _, _)) => v == Address(op.src, s)
    case Add(_, src) => Width(op) == 4 ==> v == (p + ValueOf(symbols, src, s)) % WORD
    case Sub(_, src) => Width(op) == 4 ==> v == (p - ValueOf(symbols, src, s)) % WORD
    case Inc(_) => v == (p + 1) % WORD
    case Dec(_) => v == (p - 1) % WORD
    case Imul(_, src, Const(Some(n))) => v == (n * ValueOf(symbols, src, s)) % WORD
    case Shl(_, Const(Some(n))) => 0 <= n <= 31 ==> v == (Power2(n) * p) % WORD
    case Xor(dst, Reg(other)) => dst == Reg(other) ==> v == 0
    case _ => true
  }

  function Signed(w: int, bits: nat): int {
    if 2 * w < Power2(bits) then w else w - Power2(bits)
  }

  /** The signed product of the wide multiplication: eax, ax or al by the operand. */
  function WideProduct(o: Operand, eax: Word, v: Word): int {
    if !o.Part? then Signed(eax, 32) * Signed(v, 32)
    else if o.piece.LowHalf? then Signed(eax % 0x1_0000, 16) * Signed(v, 16)
    else Signed(eax % 0x100, 8) * Signed(v, 8)
  }

  /** A register whose low half is replaced. */
  function WithLow(w: Word, low: int): Word {
    w / 0x1_0000 * 0x1_0000 + low % 0x1_0000
  }

  /** Its low half goes to eax or ax, a byte product to ax. */
  function WideEax(o: Operand, eax: Word, v: Word): Word {
    var p := WideProduct(o, eax, v);
    if !o.Part? then p % WORD else WithLow(eax, p)
  }

  /** Its high half goes to edx or dx, unless it is a byte product. */
  function WideEdx(o: Operand, eax: Word, edx: Word, v: Word): Word {
    var p := WideProduct(o, eax, v);
    if !o.Part? then p / WORD % WORD
    else if o.piece.LowHalf? then WithLow(edx, p / 0x1_0000)
    else edx
  }

  ghost predicate RegistersRun(symbols: Operand -> Word, op: Operation, s: State, t: State) {
    if op.Push? then
      && t.registers(Esp) == WriteAddress(op, s)
      && forall r :: r != Esp ==> t.registers(r) == s.registers(r)
    else if op.WideImul? then
      && (forall r :: r != Eax && r != Edx ==> t.registers(r) == s.registers(r))
      && t.registers(Eax) == WideEax(op.src, s.registers(Eax), ValueOf(symbols, op.src, s))
      && t.registers(Edx) == WideEdx(op.src, s.registers(Eax), s.registers(Edx), ValueOf(symbols, op.src, s))
    else if Written(op).Some? then
      && (forall r :: r != Written(op).value ==> t.registers(r) == s.registers(r))
      && (op.dst.Reg? ==> Leaves(symbols, op, s, s.registers(op.dst.register), t.registers(op.dst.register)))
    else forall r :: t.registers(r) == s.registers(r)
  }

  /** No byte outside the `width` bytes at `x` has changed. */
  ghost predicate KeptOutside(m: Memory, m': Memory, x: int, width: nat) {
    forall y :: 0 <= y < WORD && (y - x) % WORD >= width ==> m'(y) == m(y)
  }

  ghost predicate MemoryRuns(symbols: Operand -> Word, op: Operation, s: State, t: State) {
    if WritesMemory(op) then
      var x := WriteAddress(op, s);
      && KeptOutside(s.memory, t.memory, x, Width(op))
      && Leaves(symbols, op, s, WordAt(s.memory, x), WordAt(t.memory, x))
    else t.memory == s.memory
  }

  /** One instruction turns `s` into `t`. */
  ghost predicate Runs(symbols: Operand -> Word, op: Operation, s: State, t: State) {
    RegistersRun(symbols, op, s, t) && MemoryRuns(symbols, op, s, t)
  }

  /** Two runs that load from the same address at this instruction load the same value. */
  ghost predicate LoadsAgree(op: Operation, a: State, b: State) {
    Source(op).Some? && Source(op).value.Mem? && Address(Source(op).value, a) == Address(Source(op).value, b) ==>
      WordAt(a.memory, Address(Source(op).value, a)) == WordAt(b.memory, Address(Source(op).value, b))
  }

  // Running an instruction

  function PutByte(v: Word, j: int): Byte {
    (if j == 0 then v else if j == 1 then v / 0x100 else if j == 2 then v / 0x1_0000 else v / 0x100_0000) % 0x100
  }

  function Put(m: Memory, x: int, v: Word, width: nat): Memory {
    y => if (y - x) % WORD < width then PutByte(v, (y - x) % WORD) else m(y)
  }

  function Changed(registers: Register -> Word, r: Register, v: Word): Register -> Word {
    x => if x == r then v else registers(x)
  }

  /** A value that the instruction can leave in a destination that held `p`. */
  function ValueLeft(symbols: Operand -> Word, op: Operation, s: State, p: Word): Word {
    match op
    case Push(src) => ValueOf(symbols, src, s)
    case Mov(_, src) => ValueOf(symbols, src, s)
    case Lea(_, Mem(_, _, _)) => Address(op.src, s)
    case Add(_, src) => (p + ValueOf(symbols, src, s)) % WORD
    case Sub(_, src) => (p - ValueOf(symbols, src, s)) % WORD
    case Inc(_) => (p + 1) % WORD
    case Dec(_) => (p - 1) % WORD
    case Imul(_, src, Const(Some(n))) => (n * ValueOf(symbols, src, s)) % WORD
    case Shl(_, Const(Some(n))) => if 0 <= n <= 31 then (Power2(n) * p) % WORD else p
    case Xor(dst, Reg(other)) => if dst == Reg(other) then 0 else p
    case _ => p
  }

  function Exec(symbols: Operand -> Word, op: Operation, s: State): State {
    var memory :=
      if WritesMemory(op) then
        var x := WriteAddress(op, s);
        Put(s.memory, x, ValueLeft(symbols, op, s, WordAt(s.memory, x)), Width(op))
      else s.memory;
    var registers :=
      if op.Push? then Changed(s.registers, Esp, WriteAddress(op, s))
      else if op.WideImul? then
        var v := ValueOf(symbols, op.src, s);
        Changed(Changed(s.registers, Eax, WideEax(op.src, s.registers(Eax), v)),
                Edx, WideEdx(op.src, s.registers(Eax), s.registers(Edx), v))
      else if Written(op).Some? && op.dst.Reg? then
        Changed(s.registers, op.dst.register, ValueLeft(symbols, op, s, s.registers(op.dst.register)))
      else s.registers;
    State(registers, memory)
  }

  lemma TurnsVanish(j: int, q: int)
    ensures (j + q * WORD) % WORD == j % WORD
  {}

  lemma PutOffset(x: int, j: int)
    requires 0 <= j < 4
    ensures ((x + j) % WORD - x) % WORD == j
  {
    var q := (x + j) / WORD;
    assert (x + j) % WORD - x == j + (-q) * WORD;
    TurnsVanish(j, -q);
  }

  lemma BytesOfWord(v: Word)
    ensures v == PutByte(v, 0) + 0x100 * PutByte(v, 1) + 0x1_0000 * PutByte(v, 2) + 0x100_0000 * PutByte(v, 3)
  {}

  lemma LowBytes(b: Byte, c: Byte, d: Byte, e: Byte)
    ensures (b + 0x100 * c + 0x1_0000 * d + 0x100_0000 * e) % 0x100 == b
    ensures (b + 0x100 * c + 0x1_0000 * d + 0x100_0000 * e) % 0x1_0000 == b + 0x100 * c
  {}

  lemma PutByteReads(m: Memory, x: int, v: Word, width: nat, j: int)
    requires 0 <= j < width <= 4
    ensures Put(m, x, v, width)((x + j) % WORD) == PutByte(v, j)
  {
    hide PutByte;
    PutOffset(x, j);
  }

  /** What is put can be read again. */
  lemma PutReads(m: Memory, x: int, v: Word, width: nat)
    requires width == 1 || width == 2 || width == 4
    ensures WordAt(Put(m, x, v, width), x) % Limit(width) == v % Limit(width)
  {
    BytesOfWord(v);
    hide PutByte;
    var m' := Put(m, x, v, width);
    PutByteReads(m, x, v, width, 0);
    LowBytes(PutByte(v, 0), PutByte(v, 1), PutByte(v, 2), PutByte(v, 3));
    LowBytes(m'((x + 0) % WORD), m'((x + 1) % WORD), m'((x + 2) % WORD), m'((x + 3) % WORD));
    if width >= 2 {
      PutByteReads(m, x, v, width, 1);
    }
    if width == 4 {
      PutByteReads(m, x, v, width, 2);
      PutByteReads(m, x, v, width, 3);
    }
  }

  lemma SourceFits(symbols: Operand -> Word, op: Operation, s: State)
    requires op.Push? || op.Mov?
    ensures ValueOf(symbols, Source(op).value, s) % Limit(Width(op)) == ValueOf(symbols, Source(op).value, s)
  {
    hide WordAt;
    hide Address;
  }

  lemma ExecLeaves(symbols: Operand -> Word, op: Operation, s: State, p: Word, v: Word)
    requires v % Limit(Width(op)) == ValueLeft(symbols, op, s, p) % Limit(Width(op))
    ensures Leaves(symbols, op, s, p, v)
  {
    hide WordAt;
    hide Address;
    hide Power2;
    if op.Push? || op.Mov? {
      SourceFits(symbols, op, s);
    } else {
      hide ValueOf;
      if Width(op) == 4 {
        assert v == ValueLeft(symbols, op, s, p);
      }
    }
  }

  lemma ExecMemory(symbols: Operand -> Word, op: Operation, s: State)
    ensures MemoryRuns(symbols, op, s, Exec(symbols, op, s))
  {
    hide WordAt;
    hide WriteAddress;
    hide Leaves;
    hide ValueLeft;
    hide Width;
    if WritesMemory(op) {
      var x := WriteAddress(op, s);
      var v := ValueLeft(symbols, op, s, WordAt(s.memory, x));
      PutReads(s.memory, x, v, Width(op));
      ExecLeaves(symbols, op, s, WordAt(s.memory, x), WordAt(Put(s.memory, x, v, Width(op)), x));
    }
  }

  lemma ExecRegisters(symbols: Operand -> Word, op: Operation, s: State)
    ensures RegistersRun(symbols, op, s, Exec(symbols, op, s))
  {
    hide WordAt;
    hide WriteAddress;
    hide Leaves;
    hide ValueLeft;
    hide WideEax;
    hide WideEdx;
    hide ValueOf;
    hide Put;
    if Written(op).Some? && op.dst.Reg? {
      var p := s.registers(op.dst.register);
      ExecLeaves(symbols, op, s, p, ValueLeft(symbols, op, s, p));
    }
  }

  /** Every instruction can run from every state. */
  lemma ExecRuns(symbols: Operand -> Word, op: Operation, s: State)
    ensures Runs(symbols, op, s, Exec(symbols, op, s))
  {
    hide RegistersRun;
    hide MemoryRuns;
    ExecMemory(symbols, op, s);
    ExecRegisters(symbols, op, s);
  }
}
