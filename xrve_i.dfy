// XRVE: the reference handlers for the base integer ALU instructions, OP and OP-IMM.
// The result is a pure choice on funct7/funct3; the handler then writes it to rd.
// Neither handler advances the program counter.

module XrveI {
  import opened Common
  import opened Bits
  import opened XrveState
  import opened Registers

  // The standard 32-bit instruction fields.

  function Rd(w: bv32): (r: bv8) ensures r < 32 { ((w >> 7) & 0x1F) as bv8 }
  function Rs1(w: bv32): (r: bv8) ensures r < 32 { ((w >> 15) & 0x1F) as bv8 }
  function Rs2(w: bv32): (r: bv8) ensures r < 32 { ((w >> 20) & 0x1F) as bv8 }
  function Funct3(w: bv32): (r: bv8) ensures r < 8 { ((w >> 12) & 0x7) as bv8 }
  function Funct7(w: bv32): (r: bv8) ensures r < 128 { (w >> 25) as bv8 }
  /** The I-type immediate: bits 31:20, sign-extended. */
  function ImmI(w: bv32): bv32 { Sra(w, 20) }
  /** The shift amount of SLLI/SRLI/SRAI: bits 24:20. */
  function Shamt(w: bv32): (r: bv32) ensures r < 32 { (w >> 20) & 0x1F }

  /** The I-type immediate keeps bits 31:20 as its low twelve bits and copies bit 31 above them. */
  lemma ImmISignExtends(w: bv32)
    ensures ImmI(w) & 0xFFF == w >> 20
    ensures Neg(w) ==> ImmI(w) & 0xFFFF_F000 == 0xFFFF_F000
    ensures !Neg(w) ==> ImmI(w) & 0xFFFF_F000 == 0
  {
  }

  /** The major opcodes the two handlers declare (bits 6:2 of the instruction). */
  const OP_OPCODE: nat := 0x0C
  const OP_IMM_OPCODE: nat := 0x04

  /** The ALU operations the two handlers perform. */
  datatype AluOp = ADD | SUB | SLL | SLT | SLTU | XOR | SRL | SRA | OR | AND

  /** What an ALU operation yields; shifts use only the low five bits of the second operand. */
  function Alu(op: AluOp, a: bv32, b: bv32): bv32
  {
    match op
    case ADD => a + b
    case SUB => a - b
    case SLL => a << (b & 0x1F)
    case SLT => if Slt(a, b) then 1 else 0
    case SLTU => if a < b then 1 else 0
    case XOR => a ^ b
    case SRL => a >> (b & 0x1F)
    case SRA => Sra(a, b & 0x1F)
    case OR => a | b
    case AND => a & b
  }

  /** The OP operation for `(funct7, funct3)`, or `None` where the source panics on an invalid combination. */
  function OpKind(funct7: bv8, funct3: bv8): Option<AluOp>
  {
    if funct7 == 0x00 && funct3 == 0 then Some(ADD)
    else if funct7 == 0x20 && funct3 == 0 then Some(SUB)
    else if funct7 == 0x00 && funct3 == 1 then Some(SLL)
    else if funct7 == 0x00 && funct3 == 2 then Some(SLT)
    else if funct7 == 0x00 && funct3 == 3 then Some(SLTU)
    else if funct7 == 0x00 && funct3 == 4 then Some(XOR)
    else if funct7 == 0x00 && funct3 == 5 then Some(SRL)
    else if funct7 == 0x20 && funct3 == 5 then Some(SRA)
    else if funct7 == 0x00 && funct3 == 6 then Some(OR)
    else if funct7 == 0x00 && funct3 == 7 then Some(AND)
    else None
  }

  /** The OP-IMM operation for `funct3` (and `funct7` for shifts right), or `None` where the source panics. */
  function OpImmKind(funct3: bv8, funct7: bv8): Option<AluOp>
  {
    if funct3 == 0 then Some(ADD)
    else if funct3 == 1 then Some(SLL)
    else if funct3 == 2 then Some(SLT)
    else if funct3 == 3 then Some(SLTU)
    else if funct3 == 4 then Some(XOR)
    else if funct3 == 5 then
      (if funct7 == 0x00 then Some(SRL)
       else if funct7 == 0x20 then Some(SRA)
       else None)
    else if funct3 == 6 then Some(OR)
    else if funct3 == 7 then Some(AND)
    else None
  }

  /** OP accepts exactly funct7 = 0 with any funct3, and funct7 = 0b0100000 with SUB's or SRA's funct3. */
  lemma OpLegalExactly(funct7: bv8, funct3: bv8)
    requires funct3 < 8
    ensures OpKind(funct7, funct3).Some? <==> funct7 == 0 || (funct7 == 0x20 && (funct3 == 0 || funct3 == 5))
  {
  }

  /** OP-IMM rejects only a shift right with funct7 outside {0, 0b0100000}; funct7 = 0b0100000 selects SRAI. */
  lemma OpImmLegalExactly(funct3: bv8, funct7: bv8)
    requires funct3 < 8
    ensures OpImmKind(funct3, funct7).None? <==> funct3 == 5 && funct7 != 0 && funct7 != 0x20
    ensures funct3 == 5 && funct7 == 0x20 ==> OpImmKind(funct3, funct7) == Some(SRA)
    ensures funct3 != 5 ==> OpImmKind(funct3, funct7) == OpKind(0, funct3)
  {
  }

  lemma AluAdd(a: bv32, b: bv32) ensures Alu(ADD, a, b) == a + b {}
  lemma AluSub(a: bv32, b: bv32) ensures Alu(SUB, a, b) == a - b {}
  lemma AluXor(a: bv32, b: bv32) ensures Alu(XOR, a, b) == a ^ b {}

  /** SUB undoes ADD, and XOR undoes itself. */
  lemma SubUndoesAdd(a: bv32, b: bv32)
    ensures Alu(SUB, Alu(ADD, a, b), b) == a
    ensures Alu(XOR, Alu(XOR, a, b), b) == a
  {
    AluAdd(a, b);
    AluSub(a + b, b);
    AluXor(a, b);
    AluXor(a ^ b, b);
  }

  /** SLT is signed and SLTU unsigned: SLT agrees with the unsigned order of the sign-flipped operands. */
  lemma SetLessThanMeaning(a: bv32, b: bv32)
    ensures Alu(SLT, 0x8000_0000, 1) == 1 && Alu(SLTU, 0x8000_0000, 1) == 0
    ensures Alu(SLT, a, b) == if (a ^ 0x8000_0000) < (b ^ 0x8000_0000) then 1 else 0
  {
    SltIsFlippedUnsigned(a, b);
  }

  /** SRL zero-fills; SRA sign-fills, and agrees with SRL on non-negative words. */
  lemma ShiftRightFill(a: bv32, b: bv32)
    ensures b & 0x1F != 0 ==> Alu(SRL, a, b) & 0x8000_0000 == 0
    ensures Neg(a) ==> Neg(Alu(SRA, a, b))
    ensures !Neg(a) ==> Alu(SRA, a, b) == Alu(SRL, a, b)
  {
    SraSignFill(a, b & 0x1F);
  }

  /** ADDI adds the sign-extended immediate; SLTIU compares against it unsigned. */
  lemma ImmediateExamples()
    ensures Alu(ADD, 5, ImmI(0xFFF0_0000)) == 4
    ensures Alu(SLTU, 1, ImmI(0xFFF0_0000)) == 1 && Alu(SLT, 1, ImmI(0xFFF0_0000)) == 0
  {
    ImmISignExtends(0xFFF0_0000);
  }

  /** The two handlers the model registers. */
  datatype Handler = OpHandler | OpImmHandler

  /** `get_major_opcode_handled`. */
  function MajorOpcodeHandled(h: Handler): (op: nat)
    ensures op < 32
    ensures h.OpHandler? <==> op == OP_OPCODE
  {
    match h
    case OpHandler => OP_OPCODE
    case OpImmHandler => OP_IMM_OPCODE
  }

  /** What handler `h` computes for instruction `w` over the register file `regs`; `None` is a panic. */
  function HandlerResult(h: Handler, w: bv32, regs: seq<bv32>): Option<bv32>
    requires |regs| == 31
  {
    match h
    case OpHandler =>
      (match OpKind(Funct7(w), Funct3(w))
       case None => None
       case Some(op) => Some(Alu(op, RegValue(regs, Rs1(w)), RegValue(regs, Rs2(w)))))
    case OpImmHandler =>
      (match OpImmKind(Funct3(w), Funct7(w))
       case None => None
       case Some(op) => Some(Alu(op, RegValue(regs, Rs1(w)), if op == SLL || op == SRL || op == SRA then Shamt(w) else ImmI(w))))
  }

  datatype HandleOutcome = Handled | Panicked

  /** `handle`: the only state effect is one `set_r(rd, result)`; a panic leaves the registers as they were. */
  method Handle(h: Handler, state: State, w: bv32) returns (o: HandleOutcome)
    requires state.Valid()
    modifies state.registers
    ensures state.Valid()
    ensures var res := HandlerResult(h, w, old(state.registers[..]));
      (o == Panicked <==> res.None?) &&
      state.registers[..] == if res.None? then old(state.registers[..]) else Written(old(state.registers[..]), Rd(w), res.value)
  {
    var rs1 := state.GetR(Rs1(w));
    var kind: Option<AluOp>;
    var operand: bv32;
    match h {
      case OpHandler =>
        kind := OpKind(Funct7(w), Funct3(w));
        operand := state.GetR(Rs2(w));
      case OpImmHandler =>
        kind := OpImmKind(Funct3(w), Funct7(w));
        operand := if kind == Some(SLL) || kind == Some(SRL) || kind == Some(SRA) then Shamt(w) else ImmI(w);
    }
    if kind.None? {
      return Panicked;
    }
    state.SetR(Rd(w), Alu(kind.value, rs1, operand));
    o := Handled;
  }
}
