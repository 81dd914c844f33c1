/** The affine dataflow that recovers the stride of a masked index. */
module AffineFlow {
  import opened Outcomes
  import opened Bytes
  import opened AffineModel

  const MIN_FRAME_STRIDE: int := 0x4000
  const MAX_CHAIN_INSTRUCTIONS: nat := 96

  /** How a value depends on the masked register: a known coefficient, or unknown. */
  type Coefficient = Option<int>

  datatype Facts = Facts(registers: Register -> Coefficient, pushed: seq<Coefficient>, stores: map<int, Coefficient>)

  /** The coefficient of an address expression: that of its registers' sum, unless one is unknown. */
  function AddressCoefficient(terms: seq<Term>, registers: Register -> Coefficient): Coefficient {
    if terms == [] then Some(0)
    else
      var t := terms[|terms| - 1];
      var front, last := AddressCoefficient(terms[..|terms| - 1], registers), registers(t.register);
      if front.None? || last.None? then None else Some(front.value + Scaled(t) * last.value)
  }

  predicate Independent(terms: seq<Term>, registers: Register -> Coefficient) {
    forall i :: 0 <= i < |terms| ==> registers(terms[i].register) == Some(0)
  }

  function CoefficientOf(o: Operand, registers: Register -> Coefficient): Coefficient {
    match o
    case Reg(r) => registers(r)
    case Mem(terms, _, _) => if Independent(terms, registers) then Some(0) else None
    case _ => Some(0)
  }

  function LeaCoefficient(o: Operand, registers: Register -> Coefficient): Coefficient {
    if o.Mem? then AddressCoefficient(o.terms, registers) else CoefficientOf(o, registers)
  }

  /** The new coefficient of a register that is written in full. */
  function NewCoefficient(op: Operation, r: Register, registers: Register -> Coefficient): Coefficient {
    match op
    case Inc(_) => registers(r)
    case Dec(_) => registers(r)
    case Mov(_, src) => CoefficientOf(src, registers)
    case Lea(_, src) => LeaCoefficient(src, registers)
    case Add(_, src) =>
      var other := CoefficientOf(src, registers);
      if registers(r).Some? && other.Some? then Some(registers(r).value + other.value) else None
    case Sub(_, src) =>
      var other := CoefficientOf(src, registers);
      if registers(r).Some? && other.Some? then Some(registers(r).value - other.value) else None
    case Imul(_, src, factor) =>
      var source := CoefficientOf(src, registers);
      if factor.Const? && factor.number.Some? && source.Some? then Some(source.value * factor.number.value) else None
    case Shl(_, count) =>
      if count.Const? && count.number.Some? && 0 <= count.number.value <= 31 && registers(r).Some?
      then Some(registers(r).value * Power2(count.number.value))
      else None
    case Xor(_, src) => if src == Reg(r) then Some(0) else None
    case _ => None
  }

  function Updated(registers: Register -> Coefficient, r: Register, c: Coefficient): Register -> Coefficient {
    x => if x == r then c else registers(x)
  }

  predicate Affects(o: Operand, r: Register) {
    o.Mem? && exists i :: 0 <= i < |o.terms| && o.terms[i].register == r
  }

  /** The facts after one instruction, or none where the chain ends. */
  function Transfer(f: Facts, op: Operation): Option<Facts> {
    if op.Push? then
      if f.stores != map[] then None
      else Some(f.(pushed := f.pushed + [CoefficientOf(op.src, f.registers)]))
    else if op.Mov? && Affects(op.dst, Esp) then
      if op.dst.slot.None? then None
      else Some(f.(stores := f.stores[op.dst.slot.value := CoefficientOf(op.src, f.registers)]))
    else if op.Compare? then Some(f)
    else if op.And? || op.Branch? || op.Call? || op.Other? then None
    else
      var dst := if op.WideImul? then op.src else op.dst;
      var parent := Parent(dst);
      if parent.None? then Some(f)
      else if parent.value == Esp && f.stores != map[] then None
      else
        var value := if dst.Reg? then NewCoefficient(op, parent.value, f.registers) else None;
        Some(f.(registers := Updated(f.registers, parent.value, value)))
  }

  function Seed(masked: Register): Facts {
    Facts(r => if r == masked then Some(1) else Some(0), [], map[])
  }
}
