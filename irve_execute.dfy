// IRVE: the semantics of each major opcode (RV32IMA, Zicsr and the privileged instructions).
//
// The pure part describes an instruction's effect on a `Machine` — the registers, the pc,
// the reservation flag and the memory state (which holds the CSR file). Each function yields
// the state after the instruction and what it threw; as in the source, a throw can follow
// state changes already made (a clobbered rd, a written CSR, a misaligned RAM store).
// The handler methods at the end run on the `CpuState` and `Memory` objects and are proved
// to produce exactly those states.

module IrveExecute {
  import opened Common
  import opened Bits
  import opened Registers
  import opened IrveTrap
  import opened IrveWord
  import opened IrveDecode
  import opened IrveCsr
  import opened IrveMemory
  import opened IrveCpuState
  import opened IrveCsrFacts

  /** Everything an instruction can read or change. */
  datatype Machine = Machine(regs: seq<bv32>, pc: bv32, reservation: bool, mem: MemState)

  predicate Ready(x: Machine)
  {
    |x.regs| == 31 && WellFormed(x.mem)
  }

  /** The state after an instruction, and whether it completed or threw. */
  datatype Executed = Executed(after: Machine, result: Outcome<()>)

  /** The field widths the decoder guarantees. */
  predicate Decoded(d: DecodedInst)
  {
    d.rd < 32 && d.rs1 < 32 && d.rs2 < 32 && d.funct3 < 8 && d.funct5 < 32 && d.funct7 < 128
  }

  function Reg(x: Machine, n: bv8): bv32
    requires Ready(x) && n < 32
  {
    RegValue(x.regs, n)
  }

  function SetRd(x: Machine, n: bv8, v: bv32): (y: Machine)
    requires Ready(x) && n < 32
    ensures Ready(y)
  {
    x.(regs := Written(x.regs, n, v))
  }

  function Next(x: Machine): Machine
  {
    x.(pc := x.pc + 4)
  }

  function Done(x: Machine): Executed
  {
    Executed(x, Normal(()))
  }

  /** The instruction is rejected before it changes anything. */
  function Illegal(x: Machine): Executed
  {
    Executed(x, Raise(ILLEGAL_INSTRUCTION))
  }

  /** The usual end of an instruction: rd takes `v` and the pc advances by 4. */
  function Retire(x: Machine, rd: bv8, v: bv32): Executed
    requires Ready(x) && rd < 32
  {
    Done(Next(SetRd(x, rd, v)))
  }

  /** A base plus an immediate, modulo 2^32: load and store addresses, jump and branch targets. */
  function Offset(base: bv32, imm: bv32): bv32
  {
    base + imm
  }

  // ---------------------------------------------------------------------------------------
  // Integer views of words, for the M extension (C's int64 and uint64 arithmetic).

  /** `w.s`: the two's-complement value. */
  function Signed(w: bv32): int
  {
    if Neg(w) then w as int - TWO32 else w as int
  }

  /** `w.u`. */
  function Unsigned(w: bv32): int
  {
    w as int
  }

  /** The cast of an integer result to `uint32_t`: its value modulo 2^32. */
  function ToWord(i: int): bv32
  {
    (i % TWO32) as bv32
  }

  function Abs(i: int): nat
  {
    if i < 0 then -i else i
  }

  /** C's `/` on signed integers: the quotient rounded toward zero. */
  function TruncDiv(x: int, y: int): int
    requires y != 0
  {
    var q := Abs(x) / Abs(y);
    if (x < 0) != (y < 0) then -q else q
  }

  /** C's `%` on signed integers: the remainder takes the sign of the dividend. */
  function TruncRem(x: int, y: int): int
    requires y != 0
  {
    var r := Abs(x) % Abs(y);
    if x < 0 then -r else r
  }

  // ---------------------------------------------------------------------------------------
  // OP and OP-IMM.

  /**
   * The M extension (funct7 = 1), selected by funct3. The high multiplies take bits 63:32 of
   * the 64-bit product (C's `>> 32` of an int64 rounds toward minus infinity). Division by zero
   * and the one overflowing signed division give the values RISC-V fixes for them.
   */
  function MulDiv(funct3: bv8, a: bv32, b: bv32): bv32
    requires funct3 < 8
  {
    if funct3 == 0 then a * b
    else if funct3 == 1 then ToWord((Signed(a) * Signed(b)) / TWO32)
    else if funct3 == 2 then ToWord((Signed(a) * Unsigned(b)) / TWO32)
    else if funct3 == 3 then ToWord((Unsigned(a) * Unsigned(b)) / TWO32)
    else if funct3 == 4 then
      (if b == 0 then 0xFFFF_FFFF
       else if a == 0x8000_0000 && b == 0xFFFF_FFFF then 0x8000_0000
       else ToWord(TruncDiv(Signed(a), Signed(b))))
    else if funct3 == 5 then
      (if b == 0 then 0xFFFF_FFFF else ToWord(Unsigned(a) / Unsigned(b)))
    else if funct3 == 6 then
      (if b == 0 then a
       else if a == 0x8000_0000 && b == 0xFFFF_FFFF then 0
       else ToWord(TruncRem(Signed(a), Signed(b))))
    else
      (if b == 0 then a else ToWord(Unsigned(a) % Unsigned(b)))
  }

  /**
   * The base OP instructions: funct3 selects the operation; ADD/SUB and SRL/SRA are told
   * apart by funct7 0 or 0b0100000, and every other operation needs funct7 0. `None` is an
   * illegal instruction. Shifts use bits 4:0 of the second operand.
   */
  function BaseOp(funct7: bv8, funct3: bv8, a: bv32, b: bv32): Option<bv32>
  {
    if funct3 == 0 then
      (if funct7 == 0 then Some(a + b) else if funct7 == 0x20 then Some(a - b) else None)
    else if funct3 == 5 then
      (if funct7 == 0 then Some(Srl(a, b & 0x1F))
       else if funct7 == 0x20 then Some(Sra(a, b & 0x1F)) else None)
    else if funct7 != 0 then None
    else if funct3 == 1 then Some(Shl(a, b & 0x1F))
    else if funct3 == 2 then Some(if Slt(a, b) then 1 else 0)
    else if funct3 == 3 then Some(if a < b then 1 else 0)
    else if funct3 == 4 then Some(a ^ b)
    else if funct3 == 6 then Some(a | b)
    else if funct3 == 7 then Some(a & b)
    else None
  }

  /** The OP result: the M extension for funct7 = 1, the base instructions otherwise. */
  function OpValue(funct7: bv8, funct3: bv8, a: bv32, b: bv32): Option<bv32>
    requires funct3 < 8
  {
    if funct7 == 1 then Some(MulDiv(funct3, a, b)) else BaseOp(funct7, funct3, a, b)
  }

  /**
   * The OP-IMM result. Imm bits 11:5 tell SRLI (0) from SRAI (0b0100000) and anything else
   * there is illegal; SLLI does not look at them. Shifts use imm bits 4:0.
   */
  function OpImmValue(funct3: bv8, a: bv32, imm: bv32): Option<bv32>
    requires funct3 < 8
  {
    var funct7 := (imm >> 5) & 0x7F;
    if funct3 == 0 then Some(a + imm)
    else if funct3 == 1 then Some(Shl(a, imm & 0x1F))
    else if funct3 == 2 then Some(if Slt(a, imm) then 1 else 0)
    else if funct3 == 3 then Some(if a < imm then 1 else 0)
    else if funct3 == 4 then Some(a ^ imm)
    else if funct3 == 5 then
      (if funct7 == 0 then Some(Srl(a, imm & 0x1F))
       else if funct7 == 0x20 then Some(Sra(a, imm & 0x1F)) else None)
    else if funct3 == 6 then Some(a | imm)
    else Some(a & imm)
  }

  function OpSpec(x: Machine, d: DecodedInst): (r: Executed)
    requires Ready(x) && Decoded(d)
    ensures Ready(r.after)
  {
    match OpValue(d.funct7, d.funct3, Reg(x, d.rs1), Reg(x, d.rs2))
    case None => Illegal(x)
    case Some(v) => Retire(x, d.rd, v)
  }

  function OpImmSpec(x: Machine, d: DecodedInst): (r: Executed)
    requires Ready(x) && Decoded(d)
    ensures Ready(r.after)
  {
    match OpImmValue(d.funct3, Reg(x, d.rs1), d.immI)
    case None => Illegal(x)
    case Some(v) => Retire(x, d.rd, v)
  }

  function LuiSpec(x: Machine, d: DecodedInst): (r: Executed)
    requires Ready(x) && Decoded(d)
    ensures Ready(r.after)
  {
    Retire(x, d.rd, d.immU)
  }

  function AuipcSpec(x: Machine, d: DecodedInst): (r: Executed)
    requires Ready(x) && Decoded(d)
    ensures Ready(r.after)
  {
    Retire(x, d.rd, Offset(x.pc, d.immU))
  }

  // ---------------------------------------------------------------------------------------
  // Control transfer.

  /** Whether a branch is taken; funct3 010 and 011 are illegal. */
  function BranchTaken(funct3: bv8, a: bv32, b: bv32): Option<bool>
  {
    if funct3 == 0 then Some(a == b)
    else if funct3 == 1 then Some(a != b)
    else if funct3 == 4 then Some(Slt(a, b))
    else if funct3 == 5 then Some(!Slt(a, b))
    else if funct3 == 6 then Some(a < b)
    else if funct3 == 7 then Some(a >= b)
    else None
  }

  /** A taken branch to a target not divisible by 4 raises instruction-address-misaligned. */
  function BranchSpec(x: Machine, d: DecodedInst): (r: Executed)
    requires Ready(x) && Decoded(d)
    ensures Ready(r.after)
  {
    match BranchTaken(d.funct3, Reg(x, d.rs1), Reg(x, d.rs2))
    case None => Illegal(x)
    case Some(taken) => Branched(x, taken, Offset(x.pc, d.immB))
  }

  /** The end of a legal branch: fall through, or jump to `target` if it is divisible by 4. */
  function Branched(x: Machine, taken: bool, target: bv32): Executed
  {
    if !taken then Done(Next(x))
    else if target % 4 != 0 then Executed(x, Raise(INSTRUCTION_ADDRESS_MISALIGNED))
    else Done(x.(pc := target))
  }

  /** JAL: the pc moves by the immediate and rd links to the old pc plus 4. */
  function JalSpec(x: Machine, d: DecodedInst): (r: Executed)
    requires Ready(x) && Decoded(d)
    ensures Ready(r.after)
  {
    Done(SetRd(x.(pc := Offset(x.pc, d.immJ)), d.rd, x.pc + 4))
  }

  /** JALR: the target is rs1 (read before the link is written) plus the immediate. */
  function JalrSpec(x: Machine, d: DecodedInst): (r: Executed)
    requires Ready(x) && Decoded(d)
    ensures Ready(r.after)
  {
    Done(SetRd(x.(pc := Offset(Reg(x, d.rs1), d.immI)), d.rd, x.pc + 4))
  }

  // ---------------------------------------------------------------------------------------
  // Loads and stores.

  /** LB, LH, LW, LBU and LHU; the other funct3 values are illegal. */
  predicate LoadWidth(funct3: bv8)
  {
    funct3 == DT_SIGNED_BYTE || funct3 == DT_SIGNED_HALFWORD || funct3 == DT_WORD ||
    funct3 == DT_UNSIGNED_BYTE || funct3 == DT_UNSIGNED_HALFWORD
  }

  function LoadInstSpec(x: Machine, d: DecodedInst): (r: Executed)
    requires Ready(x) && Decoded(d)
    ensures Ready(r.after)
  {
    if !LoadWidth(d.funct3) then Illegal(x)
    else Loaded(x, d.rd, LoadSpec(x.mem, Offset(Reg(x, d.rs1), d.immI), d.funct3))
  }

  /** A load's end: a fault leaves the machine as it was; a value goes to rd. */
  function Loaded(x: Machine, rd: bv8, loaded: Outcome<bv32>): Executed
    requires Ready(x) && rd < 32
  {
    match loaded
    case Throw(t) => Executed(x, Throw(t))
    case Normal(v) => Retire(x, rd, v)
  }

  /** The state after a memory store, with its outcome. */
  function AfterStore(x: Machine, s: Stored): Executed
  {
    if s.result.Throw? then Executed(x.(mem := s.mem), s.result) else Done(Next(x.(mem := s.mem)))
  }

  /** SB, SH and SW; the other funct3 values are illegal. */
  function StoreInstSpec(x: Machine, d: DecodedInst): (r: Executed)
    requires Ready(x) && Decoded(d)
    ensures Ready(r.after)
  {
    if d.funct3 > DT_WORD then Illegal(x)
    else AfterStore(x, StoreSpec(x.mem, Offset(Reg(x, d.rs1), d.immS), d.funct3, Reg(x, d.rs2)))
  }

  // ---------------------------------------------------------------------------------------
  // The A extension.

  const LR_W: bv8 := 0x02
  const SC_W: bv8 := 0x03
  const AMOSWAP_W: bv8 := 0x01
  const AMOADD_W: bv8 := 0x00
  const AMOXOR_W: bv8 := 0x04
  const AMOAND_W: bv8 := 0x0C
  const AMOOR_W: bv8 := 0x08
  const AMOMIN_W: bv8 := 0x10
  const AMOMAX_W: bv8 := 0x14
  const AMOMINU_W: bv8 := 0x18
  const AMOMAXU_W: bv8 := 0x1C

  predicate ReadModifyWrite(funct5: bv8)
  {
    funct5 == AMOSWAP_W || funct5 == AMOADD_W || funct5 == AMOXOR_W || funct5 == AMOAND_W ||
    funct5 == AMOOR_W || funct5 == AMOMIN_W || funct5 == AMOMAX_W || funct5 == AMOMINU_W ||
    funct5 == AMOMAXU_W
  }

  /** The word a read-modify-write AMO stores; MIN/MAX compare signed, MINU/MAXU unsigned. */
  function AmoValue(funct5: bv8, loaded: bv32, r2: bv32): bv32
  {
    if funct5 == AMOSWAP_W then r2
    else if funct5 == AMOADD_W then loaded + r2
    else if funct5 == AMOXOR_W then loaded ^ r2
    else if funct5 == AMOAND_W then loaded & r2
    else if funct5 == AMOOR_W then loaded | r2
    else if funct5 == AMOMIN_W then (if Slt(r2, loaded) then r2 else loaded)
    else if funct5 == AMOMAX_W then (if Slt(loaded, r2) then r2 else loaded)
    else if funct5 == AMOMINU_W then MinUnsigned(loaded, r2)
    else MaxUnsigned(loaded, r2)
  }

  /** std::min on two unsigned words: `b` only when it is strictly below `a`. */
  function MinUnsigned(a: bv32, b: bv32): bv32
  {
    if Unsigned(b) < Unsigned(a) then b else a
  }

  /** std::max on two unsigned words: `b` only when `a` is strictly below it. */
  function MaxUnsigned(a: bv32, b: bv32): bv32
  {
    if Unsigned(a) < Unsigned(b) then b else a
  }

  /**
   * The rethrow of the AMO `catch` blocks: a load access fault or load page fault becomes the
   * store/AMO one, and any other RISC-V exception is a failed assertion.
   */
  function AmoRethrow(t: Thrown): Thrown
  {
    match t
    case RvException(cause, _) =>
      if cause == LOAD_ACCESS_FAULT then RvException(STORE_OR_AMO_ACCESS_FAULT, 0)
      else if cause == LOAD_PAGE_FAULT then RvException(STORE_OR_AMO_PAGE_FAULT, 0)
      else AssertionFailure
    case _ => t
  }

  /** An AMO's load outcome, with its exceptions rethrown as store/AMO ones. */
  function AmoLoaded(loaded: Outcome<bv32>): Outcome<bv32>
  {
    match loaded
    case Throw(t) => Throw(AmoRethrow(t))
    case Normal(v) => Normal(v)
  }

  /** LR.W: rd takes the loaded word and the reservation becomes valid. */
  function LrSpec(x: Machine, d: DecodedInst): (r: Executed)
    requires Ready(x) && Decoded(d)
    ensures Ready(r.after)
  {
    var r1 := Reg(x, d.rs1);
    if r1 % 4 != 0 then Executed(x, Raise(STORE_OR_AMO_ADDRESS_MISALIGNED))
    else Reserved(x, d.rd, AmoLoaded(LoadSpec(x.mem, r1, DT_WORD)))
  }

  /** The end of LR.W, once the load has answered. */
  function Reserved(x: Machine, rd: bv8, loaded: Outcome<bv32>): Executed
    requires Ready(x) && rd < 32
  {
    match loaded
    case Throw(t) => Executed(x, Throw(t))
    case Normal(v) => Done(Next(SetRd(x, rd, v).(reservation := true)))
  }

  /**
   * SC.W as written: without a reservation rd takes 1 and nothing is stored; with one the
   * reservation is dropped, rs2 is stored and rd takes 0. The store's exceptions pass through
   * the same rethrow as the loads', which names only load causes, so every store fault becomes
   * a failed assertion.
   */
  function ScSpecAsWritten(x: Machine, d: DecodedInst): (r: Executed)
    requires Ready(x) && Decoded(d)
    ensures Reg(x, d.rs1) % 4 == 0 ==> !r.after.reservation
    ensures Reg(x, d.rs1) % 4 == 0 && !x.reservation ==> r.result == Normal(()) && r.after.mem == x.mem
    ensures r.result.Throw? && r.result.thrown.RvException? ==>
      r.result.thrown.cause in {STORE_OR_AMO_ADDRESS_MISALIGNED, STORE_OR_AMO_ACCESS_FAULT, STORE_OR_AMO_PAGE_FAULT}
  {
    var r1 := Reg(x, d.rs1);
    if r1 % 4 != 0 then Executed(x, Raise(STORE_OR_AMO_ADDRESS_MISALIGNED))
    else if !x.reservation then Retire(x, d.rd, 1)
    else
      var s := StoreSpec(x.mem, r1, DT_WORD, Reg(x, d.rs2));
      var y := x.(reservation := false, mem := s.mem);
      if s.result.Throw? then Executed(y, Throw(AmoRethrow(s.result.thrown)))
      else Retire(y, d.rd, 0)
  }

  /** SC.W with the store's own exception raised unchanged (a store/AMO fault already). */
  function ScSpec(x: Machine, d: DecodedInst): (r: Executed)
    requires Ready(x) && Decoded(d)
    ensures Ready(r.after)
  {
    var r1 := Reg(x, d.rs1);
    if r1 % 4 != 0 then Executed(x, Raise(STORE_OR_AMO_ADDRESS_MISALIGNED))
    else if !x.reservation then Retire(x, d.rd, 1)
    else Conditional(x.(reservation := false), d.rd, StoreSpec(x.mem, r1, DT_WORD, Reg(x, d.rs2)))
  }

  /** The end of a reserved SC.W, once the store has answered: rd takes 0 if it completed. */
  function Conditional(x: Machine, rd: bv8, s: Stored): Executed
    requires Ready(x) && rd < 32 && WellFormed(s.mem)
  {
    var y := x.(mem := s.mem);
    if s.result.Throw? then Executed(y, s.result) else Retire(y, rd, 0)
  }

  /**
   * A read-modify-write AMO: rd takes the old word before the new one is stored, so a store
   * that faults leaves rd written. The store's exceptions are not rethrown.
   */
  function RmwSpec(x: Machine, d: DecodedInst): (r: Executed)
    requires Ready(x) && Decoded(d)
    ensures Ready(r.after)
  {
    var r1 := Reg(x, d.rs1);
    if r1 % 4 != 0 then Executed(x, Raise(STORE_OR_AMO_ADDRESS_MISALIGNED))
    else Modified(x, d.rd, d.funct5, r1, Reg(x, d.rs2), AmoLoaded(LoadSpec(x.mem, r1, DT_WORD)))
  }

  /** The end of a read-modify-write AMO, once the load has answered. */
  function Modified(x: Machine, rd: bv8, funct5: bv8, addr: bv32, r2: bv32, loaded: Outcome<bv32>): (r: Executed)
    requires Ready(x) && rd < 32
    ensures Ready(r.after)
  {
    match loaded
    case Throw(t) => Executed(x, Throw(t))
    case Normal(v) =>
      var y := SetRd(x, rd, v);
      AfterStore(y, StoreSpec(y.mem, addr, DT_WORD, AmoValue(funct5, v, r2)))
  }

  /** The AMO opcode: funct3 must be 010 (word); funct5 selects the operation. */
  function AmoSpec(x: Machine, d: DecodedInst): (r: Executed)
    requires Ready(x) && Decoded(d)
    ensures Ready(r.after)
  {
    if d.funct3 != 2 then Illegal(x)
    else if d.funct5 == LR_W then LrSpec(x, d)
    else if d.funct5 == SC_W then ScSpec(x, d)
    else if ReadModifyWrite(d.funct5) then RmwSpec(x, d)
    else Illegal(x)
  }

  // ---------------------------------------------------------------------------------------
  // MISC-MEM, CUSTOM-0 and SYSTEM.

  /** FENCE and FENCE.I do nothing; other funct3 values are illegal. */
  function MiscMemSpec(x: Machine, d: DecodedInst): (r: Executed)
    requires Ready(x) && Decoded(d)
    ensures Ready(r.after)
  {
    if d.funct3 == 0 || d.funct3 == 1 then Done(Next(x)) else Illegal(x)
  }

  /** The emulator's exit instruction: every field zero, in machine mode. */
  function Custom0Spec(x: Machine, d: DecodedInst): (r: Executed)
    requires Ready(x) && Decoded(d)
    ensures Ready(r.after)
  {
    if d.rd == 0 && d.funct3 == 0 && d.rs1 == 0 && d.rs2 == 0 && d.funct7 == 0 then
      (if x.mem.csr.mode == MACHINE_MODE then Executed(x, Throw(ExitRequest)) else Illegal(x))
    else Illegal(x)
  }

  /** The machine after the CSR file changes. */
  function WithCsr(x: Machine, c: CsrFile): Machine
  {
    x.(mem := x.mem.(csr := c))
  }

  /**
   * minstret less one, written back to the low half only (the source reads and writes
   * the 32-bit `minstret` CSR), undoing the tick's count for an instruction that traps.
   */
  function UncountInstruction(c: CsrFile): CsrFile
  {
    var n := c.counters.minstret;
    c.(counters := c.counters.(minstret := n.(low := n.low - 1)))
  }

  /** The environment-call cause of each mode; other modes fail an assertion. */
  function EcallCause(mode: bv8): Option<bv32>
  {
    if mode == MACHINE_MODE then Some(MMODE_ECALL)
    else if mode == SUPERVISOR_MODE then Some(SMODE_ECALL)
    else if mode == USER_MODE then Some(UMODE_ECALL)
    else None
  }

  function EcallSpec(x: Machine): (r: Executed)
    ensures r.after.regs == x.regs && r.after.pc == x.pc && r.after.reservation == x.reservation
    ensures r.after.mem == x.mem.(csr := UncountInstruction(x.mem.csr))
    ensures r.result.Throw?
    ensures x.mem.csr.mode == USER_MODE ==> r.result == Raise(UMODE_ECALL)
    ensures x.mem.csr.mode == SUPERVISOR_MODE ==> r.result == Raise(SMODE_ECALL)
    ensures x.mem.csr.mode == MACHINE_MODE ==> r.result == Raise(MMODE_ECALL)
  {
    var y := WithCsr(x, UncountInstruction(x.mem.csr));
    match EcallCause(x.mem.csr.mode)
    case Some(cause) => Executed(y, Raise(cause))
    case None => Executed(y, Throw(AssertionFailure))
  }

  /** mstatus after MRET: MPP cleared, MPIE set, MIE takes the old MPIE. */
  function MretStatus(mstatus: bv32): bv32
  {
    (mstatus & 0xFFFF_E777) | 0x80 | (((mstatus >> 7) & 1) << 3)
  }

  /** sstatus after SRET: SPP cleared, SPIE set, SIE takes the old SPIE. */
  function SretStatus(sstatus: bv32): bv32
  {
    (sstatus & 0xFFFF_FEDD) | 0x20 | (((sstatus >> 5) & 1) << 1)
  }

  /** The CSR file after MRET: the mode becomes MPP and the mstatus stack pops. */
  function Mreturned(c: CsrFile): CsrFile
  {
    c.(mode := ((c.m.mstatus >> 11) & 3) as bv8, m := c.m.(mstatus := MretStatus(c.m.mstatus)))
  }

  /** MRET: the CSR file returns, the reservation is dropped, pc := mepc. */
  function MretSpec(x: Machine): (r: Executed)
    ensures r.result == Normal(()) && r.after.pc == x.mem.csr.m.mepc && !r.after.reservation
    ensures r.after.regs == x.regs && r.after.mem.csr.mode == ((x.mem.csr.m.mstatus >> 11) & 3) as bv8
    ensures r.after.mem == x.mem.(csr := Mreturned(x.mem.csr))
  {
    Done(WithCsr(x, Mreturned(x.mem.csr)).(reservation := false, pc := x.mem.csr.m.mepc))
  }

  /** The CSR file after SRET: the mode becomes S or U from SPP and the sstatus stack pops. */
  function Sreturned(c: CsrFile): CsrFile
  {
    var sstatus := Masked(c.m.mstatus, SSTATUS_MASK);
    var mode := if sstatus & 0x100 != 0 then SUPERVISOR_MODE else USER_MODE;
    c.(mode := mode, m := c.m.(mstatus := Merge(c.m.mstatus, SretStatus(sstatus), SSTATUS_MASK)))
  }

  /** SRET: the CSR file returns, the reservation is dropped, pc := sepc. */
  function SretSpec(x: Machine): (r: Executed)
    ensures r.result == Normal(()) && r.after.pc == x.mem.csr.s.sepc && !r.after.reservation
    ensures r.after.regs == x.regs && r.after.mem.csr.mode in {SUPERVISOR_MODE, USER_MODE}
    ensures r.after.mem == x.mem.(csr := Sreturned(x.mem.csr))
  {
    Done(WithCsr(x, Sreturned(x.mem.csr)).(reservation := false, pc := x.mem.csr.s.sepc))
  }

  /**
   * SYSTEM with funct3 000, told apart by the immediate (ECALL 0, EBREAK 1, WFI 0x105) or by
   * funct7 and rs2 (MRET, SRET) or funct7 and rd (SFENCE.VMA). WFI and SFENCE.VMA do nothing.
   */
  function PrivSpec(x: Machine, d: DecodedInst): (r: Executed)
    requires Ready(x) && Decoded(d)
    ensures Ready(r.after)
  {
    if d.immI == 0 then EcallSpec(x)
    else if d.immI == 1 then EbreakSpec(x)
    else if d.immI == 0x105 then Done(Next(x))
    else ReturnOrFenceSpec(x, d)
  }

  /** EBREAK: the count is undone and a breakpoint is raised. */
  function EbreakSpec(x: Machine): (r: Executed)
    ensures r.after.regs == x.regs && r.after.pc == x.pc && r.after.reservation == x.reservation
    ensures r.after.mem == x.mem.(csr := UncountInstruction(x.mem.csr))
    ensures r.result == Raise(BREAKPOINT)
  {
    Executed(WithCsr(x, UncountInstruction(x.mem.csr)), Raise(BREAKPOINT))
  }

  /** The funct3-000 instructions told apart by funct7: MRET, SRET and SFENCE.VMA. */
  function ReturnOrFenceSpec(x: Machine, d: DecodedInst): (r: Executed)
    requires Ready(x) && Decoded(d)
    ensures Ready(r.after)
  {
    if d.funct7 == 0x18 && d.rs2 == 2 then MretSpec(x)
    else if d.funct7 == 0x08 && d.rs2 == 2 then SretSpec(x)
    else if d.funct7 == 0x09 && d.rd == 0 then Done(Next(x))
    else Illegal(x)
  }

  /**
   * The value a Zicsr instruction writes back, or `None` when it does not write: CSRRW and
   * CSRRWI always write, CSRRS/CSRRC only when the rs1 field is not x0, and CSRRSI/CSRRCI
   * only when the immediate (the rs1 field) is not 0.
   */
  function CsrWriteValue(funct3: bv8, csr: bv32, r1: bv32, rs1: bv8): Option<bv32>
  {
    var uimm := rs1 as bv32;
    if funct3 == 1 then Some(r1)
    else if funct3 == 2 then (if rs1 != 0 then Some(csr | r1) else None)
    else if funct3 == 3 then (if rs1 != 0 then Some(csr & !r1) else None)
    else if funct3 == 5 then Some(uimm)
    else if funct3 == 6 then (if uimm != 0 then Some(csr | uimm) else None)
    else (if uimm != 0 then Some(csr & !uimm) else None)
  }

  /** The CSR address: the low 12 bits of the immediate, not sign-extended. */
  function CsrAddress(d: DecodedInst): bv16
  {
    (d.immI & 0xFFF) as bv16
  }

  /**
   * A Zicsr instruction. The CSR is read with the privilege check, rd takes the old value, and
   * then the write (if any) is made with its own check; a refused write raises
   * illegal-instruction after rd has been written.
   */
  function CsrSpec(x: Machine, d: DecodedInst): (r: Executed)
    requires Ready(x) && Decoded(d) && d.funct3 != 0 && d.funct3 != 4
    ensures Ready(r.after)
  {
    var a := CsrAddress(d);
    match ExplicitRead(x.mem.csr, a)
    case Throw(t) => Executed(x, Throw(t))
    case Normal(value) =>
      CsrWritten(SetRd(x, d.rd, value), a, CsrWriteValue(d.funct3, value, Reg(x, d.rs1), d.rs1))
  }

  /** The end of a Zicsr instruction, once rd holds the old value: the write, if any. */
  function CsrWritten(y: Machine, a: bv16, write: Option<bv32>): Executed
    requires Ready(y)
  {
    match write
    case None => Done(Next(y))
    case Some(v) => CsrStored(y, ExplicitWrite(y.mem.csr, a, v))
  }

  /** The end of a Zicsr instruction that writes, once `explicit_write` has answered. */
  function CsrStored(y: Machine, written: Outcome<CsrFile>): Executed
  {
    match written
    case Throw(t) => Executed(y, Throw(t))
    case Normal(c) => Done(Next(WithCsr(y, c)))
  }

  function SystemSpec(x: Machine, d: DecodedInst): (r: Executed)
    requires Ready(x) && Decoded(d)
    ensures Ready(r.after)
  {
    if d.funct3 == 0 then PrivSpec(x, d)
    else if d.funct3 == 4 then Illegal(x)
    else CsrSpec(x, d)
  }

  /** `emulator_t::execute`: the handler of the opcode; the decoder admits no other opcode. */
  function ExecuteSpec(x: Machine, d: DecodedInst): (r: Executed)
    requires Ready(x) && Decoded(d)
    ensures Ready(r.after)
  {
    if d.opcode == LOAD then LoadInstSpec(x, d)
    else if d.opcode == CUSTOM_0 then Custom0Spec(x, d)
    else if d.opcode == MISC_MEM then MiscMemSpec(x, d)
    else if d.opcode == OP_IMM then OpImmSpec(x, d)
    else if d.opcode == AUIPC then AuipcSpec(x, d)
    else if d.opcode == STORE then StoreInstSpec(x, d)
    else if d.opcode == AMO then AmoSpec(x, d)
    else if d.opcode == OP then OpSpec(x, d)
    else if d.opcode == LUI then LuiSpec(x, d)
    else if d.opcode == BRANCH then BranchSpec(x, d)
    else if d.opcode == JALR then JalrSpec(x, d)
    else if d.opcode == JAL then JalSpec(x, d)
    else if d.opcode == SYSTEM then SystemSpec(x, d)
    else Executed(x, Throw(AssertionFailure))
  }

  // ---------------------------------------------------------------------------------------
  // The CSR accesses the privileged instructions make with `implicit_read`/`implicit_write`.

  lemma MinstretAccess(c: CsrFile, d: bv32)
    requires Wf(c)
    ensures Read(c, MINSTRET) == Normal(c.counters.minstret.low)
    ensures Write(c, MINSTRET, d) == Normal(c.(counters := c.counters.(minstret := c.counters.minstret.(low := d))))
  {
    MachineCounterNames();
  }

  lemma MstatusAccess(c: CsrFile, d: bv32)
    requires Wf(c)
    ensures Read(c, MSTATUS) == Normal(c.m.mstatus)
    ensures Write(c, MSTATUS, d) == Normal(c.(m := c.m.(mstatus := d)))
    ensures Read(c, MEPC) == Normal(c.m.mepc)
  {
    MachineSetupNames();
    MachineHandlingNames();
  }

  lemma SstatusAccess(c: CsrFile, d: bv32)
    requires Wf(c)
    ensures Read(c, SSTATUS) == Normal(Masked(c.m.mstatus, SSTATUS_MASK))
    ensures Write(c, SSTATUS, d) == Normal(c.(m := c.m.(mstatus := Merge(c.m.mstatus, d, SSTATUS_MASK))))
    ensures Read(c, SEPC) == Normal(c.s.sepc)
  {
    SupervisorNames();
  }

  // ---------------------------------------------------------------------------------------
  // The handlers, on the emulator's objects.

  /** The CPU state and the memory (with its CSR file) are usable and do not share arrays. */
  ghost predicate Wired(cpu: CpuState, mem: Memory)
    reads cpu, mem, mem.csr
  {
    cpu.Valid() && mem.Valid() && cpu.regs != mem.csr.pmpcfg && cpu.regs != mem.csr.pmpaddr
  }

  /** The machine the objects hold. */
  ghost function MachineOf(cpu: CpuState, mem: Memory): (x: Machine)
    requires Wired(cpu, mem)
    reads cpu, cpu.regs, mem, mem.csr, mem.csr.pmpcfg, mem.csr.pmpaddr, mem.userRam, mem.kernelRam
    ensures Ready(x)
  {
    Machine(cpu.Registers(), cpu.pc, cpu.reservationValid, mem.Snapshot())
  }

  /** The usual end of an instruction, on the objects: rd takes `v` and the pc advances by 4. */
  method WriteBack(cpu: CpuState, mem: Memory, rd: bv8, v: bv32)
    requires Wired(cpu, mem) && rd < 32
    modifies cpu, cpu.regs
    ensures Wired(cpu, mem)
    ensures MachineOf(cpu, mem) == Next(SetRd(old(MachineOf(cpu, mem)), rd, v))
  {
    cpu.SetR(rd, v);
    cpu.GotoNextSequentialPc();
  }

  /** An instruction that completes without a result: the pc advances by 4. */
  method Advance(cpu: CpuState, mem: Memory) returns (r: Outcome<()>)
    requires Wired(cpu, mem)
    modifies cpu
    ensures Wired(cpu, mem)
    ensures Executed(MachineOf(cpu, mem), r) == Done(Next(old(MachineOf(cpu, mem))))
  {
    cpu.GotoNextSequentialPc();
    r := Normal(());
  }

  /** `load`. */
  method Load(d: DecodedInst, cpu: CpuState, mem: Memory) returns (r: Outcome<()>)
    requires Wired(cpu, mem) && Decoded(d)
    modifies cpu, cpu.regs
    ensures Wired(cpu, mem)
    ensures Executed(MachineOf(cpu, mem), r) == LoadInstSpec(old(MachineOf(cpu, mem)), d)
  {
    var r1 := cpu.GetR(d.rs1);
    if !LoadWidth(d.funct3) {
      return Raise(ILLEGAL_INSTRUCTION);
    }
    var loaded := mem.Load(Offset(r1, d.immI), d.funct3);
    r := FinishLoad(cpu, mem, d.rd, loaded);
  }

  /** The end of `load`, once the memory has answered. */
  method FinishLoad(cpu: CpuState, mem: Memory, rd: bv8, loaded: Outcome<bv32>) returns (r: Outcome<()>)
    requires Wired(cpu, mem) && rd < 32
    modifies cpu, cpu.regs
    ensures Wired(cpu, mem)
    ensures Executed(MachineOf(cpu, mem), r) == Loaded(old(MachineOf(cpu, mem)), rd, loaded)
  {
    if loaded.Throw? {
      return Throw(loaded.thrown);
    }
    WriteBack(cpu, mem, rd, loaded.value);
    r := Normal(());
  }

  /** `custom_0`. */
  method Custom0(d: DecodedInst, cpu: CpuState, mem: Memory) returns (r: Outcome<()>)
    requires Wired(cpu, mem) && Decoded(d)
    ensures Executed(MachineOf(cpu, mem), r) == Custom0Spec(MachineOf(cpu, mem), d)
  {
    if d.rd == 0 && d.funct3 == 0 && d.rs1 == 0 && d.rs2 == 0 && d.funct7 == 0 {
      if mem.csr.GetPrivilegeMode() == MACHINE_MODE {
        r := Throw(ExitRequest);
      } else {
        r := Raise(ILLEGAL_INSTRUCTION);
      }
    } else {
      r := Raise(ILLEGAL_INSTRUCTION);
    }
  }

  /** `misc_mem`. */
  method MiscMem(d: DecodedInst, cpu: CpuState, mem: Memory) returns (r: Outcome<()>)
    requires Wired(cpu, mem) && Decoded(d)
    modifies cpu
    ensures Wired(cpu, mem)
    ensures Executed(MachineOf(cpu, mem), r) == MiscMemSpec(old(MachineOf(cpu, mem)), d)
  {
    if d.funct3 != 0 && d.funct3 != 1 {
      return Raise(ILLEGAL_INSTRUCTION);
    }
    cpu.GotoNextSequentialPc();
    r := Normal(());
  }

  /** `op_imm`. */
  method OpImm(d: DecodedInst, cpu: CpuState, mem: Memory) returns (r: Outcome<()>)
    requires Wired(cpu, mem) && Decoded(d)
    modifies cpu, cpu.regs
    ensures Wired(cpu, mem)
    ensures Executed(MachineOf(cpu, mem), r) == OpImmSpec(old(MachineOf(cpu, mem)), d)
  {
    var r1 := cpu.GetR(d.rs1);
    var result := OpImmValue(d.funct3, r1, d.immI);
    if result.None? {
      return Raise(ILLEGAL_INSTRUCTION);
    }
    WriteBack(cpu, mem, d.rd, result.value);
    r := Normal(());
  }

  /** `auipc`. */
  method Auipc(d: DecodedInst, cpu: CpuState, mem: Memory) returns (r: Outcome<()>)
    requires Wired(cpu, mem) && Decoded(d)
    modifies cpu, cpu.regs
    ensures Wired(cpu, mem)
    ensures Executed(MachineOf(cpu, mem), r) == AuipcSpec(old(MachineOf(cpu, mem)), d)
  {
    WriteBack(cpu, mem, d.rd, Offset(cpu.GetPc(), d.immU));
    r := Normal(());
  }

  /** `store`: memory may change even when the store throws (a misaligned RAM store). */
  method Store(d: DecodedInst, cpu: CpuState, mem: Memory) returns (r: Outcome<()>)
    requires Wired(cpu, mem) && Decoded(d)
    modifies cpu, mem, mem.csr, mem.userRam, mem.kernelRam
    ensures Wired(cpu, mem)
    ensures Executed(MachineOf(cpu, mem), r) == StoreInstSpec(old(MachineOf(cpu, mem)), d)
  {
    var r1 := cpu.GetR(d.rs1);
    var r2 := cpu.GetR(d.rs2);
    if d.funct3 > DT_WORD {
      return Raise(ILLEGAL_INSTRUCTION);
    }
    r := StoreAndAdvance(cpu, mem, Offset(r1, d.immS), d.funct3, r2);
  }

  /** The store itself, then the pc advances by 4 unless the store threw. */
  method StoreAndAdvance(cpu: CpuState, mem: Memory, va: bv32, dt: bv8, v: bv32) returns (r: Outcome<()>)
    requires Wired(cpu, mem) && dt <= DT_WORD
    modifies cpu, mem, mem.csr, mem.userRam, mem.kernelRam
    ensures Wired(cpu, mem)
    ensures Executed(MachineOf(cpu, mem), r) == AfterStore(old(MachineOf(cpu, mem)), StoreSpec(old(mem.Snapshot()), va, dt, v))
  {
    r := mem.Store(va, dt, v);
    if r.Normal? {
      cpu.GotoNextSequentialPc();
    }
  }

  /** `op`. */
  method Op(d: DecodedInst, cpu: CpuState, mem: Memory) returns (r: Outcome<()>)
    requires Wired(cpu, mem) && Decoded(d)
    modifies cpu, cpu.regs
    ensures Wired(cpu, mem)
    ensures Executed(MachineOf(cpu, mem), r) == OpSpec(old(MachineOf(cpu, mem)), d)
  {
    var r1 := cpu.GetR(d.rs1);
    var r2 := cpu.GetR(d.rs2);
    var result := OpValue(d.funct7, d.funct3, r1, r2);
    if result.None? {
      return Raise(ILLEGAL_INSTRUCTION);
    }
    WriteBack(cpu, mem, d.rd, result.value);
    r := Normal(());
  }

  /** `lui`. */
  method Lui(d: DecodedInst, cpu: CpuState, mem: Memory) returns (r: Outcome<()>)
    requires Wired(cpu, mem) && Decoded(d)
    modifies cpu, cpu.regs
    ensures Wired(cpu, mem)
    ensures Executed(MachineOf(cpu, mem), r) == LuiSpec(old(MachineOf(cpu, mem)), d)
  {
    WriteBack(cpu, mem, d.rd, d.immU);
    r := Normal(());
  }

  /** `branch`. */
  method Branch(d: DecodedInst, cpu: CpuState, mem: Memory) returns (r: Outcome<()>)
    requires Wired(cpu, mem) && Decoded(d)
    modifies cpu
    ensures Wired(cpu, mem)
    ensures Executed(MachineOf(cpu, mem), r) == BranchSpec(old(MachineOf(cpu, mem)), d)
  {
    var r1 := cpu.GetR(d.rs1);
    var r2 := cpu.GetR(d.rs2);
    var taken := BranchTaken(d.funct3, r1, r2);
    if taken.None? {
      return Raise(ILLEGAL_INSTRUCTION);
    }
    r := TakeBranch(cpu, mem, taken.value, Offset(cpu.GetPc(), d.immB));
  }

  /** The end of `branch`, once the condition is known. */
  method TakeBranch(cpu: CpuState, mem: Memory, taken: bool, target: bv32) returns (r: Outcome<()>)
    requires Wired(cpu, mem)
    modifies cpu
    ensures Wired(cpu, mem)
    ensures Executed(MachineOf(cpu, mem), r) == Branched(old(MachineOf(cpu, mem)), taken, target)
  {
    r := Normal(());
    if !taken {
      cpu.GotoNextSequentialPc();
    } else if target % 4 != 0 {
      r := Raise(INSTRUCTION_ADDRESS_MISALIGNED);
    } else {
      cpu.SetPc(target);
    }
  }

  /** `jalr`: the link is written after the jump, from the old pc. */
  method Jalr(d: DecodedInst, cpu: CpuState, mem: Memory) returns (r: Outcome<()>)
    requires Wired(cpu, mem) && Decoded(d)
    modifies cpu, cpu.regs
    ensures Wired(cpu, mem)
    ensures Executed(MachineOf(cpu, mem), r) == JalrSpec(old(MachineOf(cpu, mem)), d)
  {
    var oldPc := cpu.GetPc();
    var rs1 := cpu.GetR(d.rs1);
    cpu.SetPc(Offset(rs1, d.immI));
    cpu.SetR(d.rd, oldPc + 4);
    r := Normal(());
  }

  /** `jal`. */
  method Jal(d: DecodedInst, cpu: CpuState, mem: Memory) returns (r: Outcome<()>)
    requires Wired(cpu, mem) && Decoded(d)
    modifies cpu, cpu.regs
    ensures Wired(cpu, mem)
    ensures Executed(MachineOf(cpu, mem), r) == JalSpec(old(MachineOf(cpu, mem)), d)
  {
    var oldPc := cpu.GetPc();
    cpu.SetPc(Offset(oldPc, d.immJ));
    cpu.SetR(d.rd, oldPc + 4);
    r := Normal(());
  }

  /** `amo`: funct3 must be 010; LR.W, SC.W and the read-modify-write operations by funct5. */
  method Amo(d: DecodedInst, cpu: CpuState, mem: Memory) returns (r: Outcome<()>)
    requires Wired(cpu, mem) && Decoded(d)
    modifies cpu, cpu.regs, mem, mem.csr, mem.userRam, mem.kernelRam
    ensures Wired(cpu, mem)
    ensures Executed(MachineOf(cpu, mem), r) == AmoSpec(old(MachineOf(cpu, mem)), d)
  {
    if d.funct3 != 2 {
      r := Raise(ILLEGAL_INSTRUCTION);
    } else if d.funct5 == LR_W {
      r := LoadReserved(d, cpu, mem);
    } else if d.funct5 == SC_W {
      r := StoreConditionalInst(d, cpu, mem);
    } else if ReadModifyWrite(d.funct5) {
      r := ReadModifyWriteInst(d, cpu, mem);
    } else {
      r := Raise(ILLEGAL_INSTRUCTION);
    }
  }

  /** LR.W: the address must be word-aligned; the load's exceptions are rethrown. */
  method LoadReserved(d: DecodedInst, cpu: CpuState, mem: Memory) returns (r: Outcome<()>)
    requires Wired(cpu, mem) && Decoded(d)
    modifies cpu, cpu.regs
    ensures Wired(cpu, mem)
    ensures Executed(MachineOf(cpu, mem), r) == LrSpec(old(MachineOf(cpu, mem)), d)
  {
    var r1 := cpu.GetR(d.rs1);
    if r1 % 4 != 0 {
      return Raise(STORE_OR_AMO_ADDRESS_MISALIGNED);
    }
    var loaded := mem.Load(r1, DT_WORD);
    r := Reserve(cpu, mem, d.rd, AmoLoaded(loaded));
  }

  /** SC.W: the alignment check comes before the reservation is looked at. */
  method StoreConditionalInst(d: DecodedInst, cpu: CpuState, mem: Memory) returns (r: Outcome<()>)
    requires Wired(cpu, mem) && Decoded(d)
    modifies cpu, cpu.regs, mem, mem.csr, mem.userRam, mem.kernelRam
    ensures Wired(cpu, mem)
    ensures Executed(MachineOf(cpu, mem), r) == ScSpec(old(MachineOf(cpu, mem)), d)
  {
    var r1 := cpu.GetR(d.rs1);
    var r2 := cpu.GetR(d.rs2);
    if r1 % 4 != 0 {
      return Raise(STORE_OR_AMO_ADDRESS_MISALIGNED);
    }
    if !cpu.ReservationSetValid() {
      WriteBack(cpu, mem, d.rd, 1);
      return Normal(());
    }
    cpu.InvalidateReservationSet();
    r := StoreConditional(cpu, mem, d.rd, r1, r2);
  }

  /** AMOSWAP.W, AMOADD.W and the rest: the address must be word-aligned. */
  method ReadModifyWriteInst(d: DecodedInst, cpu: CpuState, mem: Memory) returns (r: Outcome<()>)
    requires Wired(cpu, mem) && Decoded(d)
    modifies cpu, cpu.regs, mem, mem.csr, mem.userRam, mem.kernelRam
    ensures Wired(cpu, mem)
    ensures Executed(MachineOf(cpu, mem), r) == RmwSpec(old(MachineOf(cpu, mem)), d)
  {
    var r1 := cpu.GetR(d.rs1);
    var r2 := cpu.GetR(d.rs2);
    if r1 % 4 != 0 {
      return Raise(STORE_OR_AMO_ADDRESS_MISALIGNED);
    }
    var loaded := mem.Load(r1, DT_WORD);
    r := Modify(cpu, mem, d.rd, d.funct5, r1, r2, AmoLoaded(loaded));
  }

  /** The end of LR.W: rd takes the word, the reservation becomes valid, the pc advances. */
  method Reserve(cpu: CpuState, mem: Memory, rd: bv8, loaded: Outcome<bv32>) returns (r: Outcome<()>)
    requires Wired(cpu, mem) && rd < 32
    modifies cpu, cpu.regs
    ensures Wired(cpu, mem)
    ensures Executed(MachineOf(cpu, mem), r) == Reserved(old(MachineOf(cpu, mem)), rd, loaded)
  {
    if loaded.Throw? {
      return Throw(loaded.thrown);
    }
    cpu.SetR(rd, loaded.value);
    cpu.ValidateReservationSet();
    cpu.GotoNextSequentialPc();
    r := Normal(());
  }

  /** The store of a reserved SC.W, then rd takes 0 unless it threw. */
  method StoreConditional(cpu: CpuState, mem: Memory, rd: bv8, va: bv32, v: bv32) returns (r: Outcome<()>)
    requires Wired(cpu, mem) && rd < 32
    modifies cpu, cpu.regs, mem, mem.csr, mem.userRam, mem.kernelRam
    ensures Wired(cpu, mem)
    ensures Executed(MachineOf(cpu, mem), r) == Conditional(old(MachineOf(cpu, mem)), rd, StoreSpec(old(mem.Snapshot()), va, DT_WORD, v))
  {
    r := mem.Store(va, DT_WORD, v);
    if r.Normal? {
      WriteBack(cpu, mem, rd, 0);
    }
  }

  /** The end of a read-modify-write AMO: rd takes the old word, then the new one is stored. */
  method Modify(cpu: CpuState, mem: Memory, rd: bv8, funct5: bv8, va: bv32, r2: bv32, loaded: Outcome<bv32>) returns (r: Outcome<()>)
    requires Wired(cpu, mem) && rd < 32
    modifies cpu, cpu.regs, mem, mem.csr, mem.userRam, mem.kernelRam
    ensures Wired(cpu, mem)
    ensures Executed(MachineOf(cpu, mem), r) == Modified(old(MachineOf(cpu, mem)), rd, funct5, va, r2, loaded)
  {
    if loaded.Throw? {
      return Throw(loaded.thrown);
    }
    cpu.SetR(rd, loaded.value);
    r := StoreAndAdvance(cpu, mem, va, DT_WORD, AmoValue(funct5, loaded.value, r2));
  }

  /** `system`: funct3 000 holds the privileged instructions, 100 is illegal, the rest are Zicsr. */
  method System(d: DecodedInst, cpu: CpuState, mem: Memory) returns (r: Outcome<()>)
    requires Wired(cpu, mem) && Decoded(d)
    modifies cpu, cpu.regs, mem.csr, mem.csr.pmpcfg, mem.csr.pmpaddr
    ensures Wired(cpu, mem)
    ensures Executed(MachineOf(cpu, mem), r) == SystemSpec(old(MachineOf(cpu, mem)), d)
  {
    if d.funct3 == 0 {
      r := Privileged(d, cpu, mem);
    } else if d.funct3 == 4 {
      r := Raise(ILLEGAL_INSTRUCTION);
    } else {
      r := CsrInst(d, cpu, mem);
    }
  }

  /** ECALL, EBREAK, WFI, MRET, SRET and SFENCE.VMA. */
  method Privileged(d: DecodedInst, cpu: CpuState, mem: Memory) returns (r: Outcome<()>)
    requires Wired(cpu, mem) && Decoded(d)
    modifies cpu, mem.csr, mem.csr.pmpcfg, mem.csr.pmpaddr
    ensures Wired(cpu, mem)
    ensures Executed(MachineOf(cpu, mem), r) == PrivSpec(old(MachineOf(cpu, mem)), d)
  {
    if d.immI == 0 {
      r := Ecall(cpu, mem);
    } else if d.immI == 1 {
      r := Ebreak(cpu, mem);
    } else if d.immI == 0x105 {
      r := Advance(cpu, mem);
    } else {
      r := ReturnOrFence(d, cpu, mem);
    }
  }

  /** MRET, SRET, SFENCE.VMA, or an illegal instruction. */
  method ReturnOrFence(d: DecodedInst, cpu: CpuState, mem: Memory) returns (r: Outcome<()>)
    requires Wired(cpu, mem) && Decoded(d)
    modifies cpu, mem.csr, mem.csr.pmpcfg, mem.csr.pmpaddr
    ensures Wired(cpu, mem)
    ensures Executed(MachineOf(cpu, mem), r) == ReturnOrFenceSpec(old(MachineOf(cpu, mem)), d)
  {
    if d.funct7 == 0x18 && d.rs2 == 2 {
      r := Mret(cpu, mem);
    } else if d.funct7 == 0x08 && d.rs2 == 2 {
      r := Sret(cpu, mem);
    } else if d.funct7 == 0x09 && d.rd == 0 {
      r := Advance(cpu, mem);
    } else {
      r := Raise(ILLEGAL_INSTRUCTION);
    }
  }

  /** MRET; the reservation is dropped, as it could have interrupted an LR/SC sequence. */
  method Mret(cpu: CpuState, mem: Memory) returns (r: Outcome<()>)
    requires Wired(cpu, mem)
    modifies cpu, mem.csr, mem.csr.pmpcfg, mem.csr.pmpaddr
    ensures Wired(cpu, mem)
    ensures Executed(MachineOf(cpu, mem), r) == MretSpec(old(MachineOf(cpu, mem)))
  {
    var pc := MretCsr(mem.csr);
    cpu.InvalidateReservationSet();
    cpu.SetPc(pc);
    r := Normal(());
  }

  /** SRET; the reservation is dropped likewise. */
  method Sret(cpu: CpuState, mem: Memory) returns (r: Outcome<()>)
    requires Wired(cpu, mem)
    modifies cpu, mem.csr, mem.csr.pmpcfg, mem.csr.pmpaddr
    ensures Wired(cpu, mem)
    ensures Executed(MachineOf(cpu, mem), r) == SretSpec(old(MachineOf(cpu, mem)))
  {
    var pc := SretCsr(mem.csr);
    cpu.InvalidateReservationSet();
    cpu.SetPc(pc);
    r := Normal(());
  }

  /** minstret := minstret - 1, through `implicit_read` and `implicit_write`. */
  method Uncount(csr: Csr)
    requires csr.Valid()
    modifies csr, csr.pmpcfg, csr.pmpaddr
    ensures csr.Valid() && csr.Snapshot() == UncountInstruction(old(csr.Snapshot()))
  {
    var n := csr.ImplicitRead(MINSTRET);
    MinstretAccess(csr.Snapshot(), n.value - 1);
    var _ := csr.ImplicitWrite(MINSTRET, n.value - 1);
  }

  /** ECALL: the count is undone and the environment call of the current mode is raised. */
  method Ecall(cpu: CpuState, mem: Memory) returns (r: Outcome<()>)
    requires Wired(cpu, mem)
    modifies mem.csr, mem.csr.pmpcfg, mem.csr.pmpaddr
    ensures Wired(cpu, mem)
    ensures Executed(MachineOf(cpu, mem), r) == EcallSpec(old(MachineOf(cpu, mem)))
  {
    var mode := mem.csr.GetPrivilegeMode();
    Uncount(mem.csr);
    if mode == MACHINE_MODE {
      r := Raise(MMODE_ECALL);
    } else if mode == SUPERVISOR_MODE {
      r := Raise(SMODE_ECALL);
    } else if mode == USER_MODE {
      r := Raise(UMODE_ECALL);
    } else {
      r := Throw(AssertionFailure);
    }
  }

  /** EBREAK. */
  method Ebreak(cpu: CpuState, mem: Memory) returns (r: Outcome<()>)
    requires Wired(cpu, mem)
    modifies mem.csr, mem.csr.pmpcfg, mem.csr.pmpaddr
    ensures Wired(cpu, mem)
    ensures Executed(MachineOf(cpu, mem), r) == EbreakSpec(old(MachineOf(cpu, mem)))
  {
    Uncount(mem.csr);
    r := Raise(BREAKPOINT);
  }

  /** The CSR side of MRET: the mode is set from MPP before mstatus is rewritten; yields mepc. */
  method MretCsr(csr: Csr) returns (pc: bv32)
    requires csr.Valid()
    modifies csr, csr.pmpcfg, csr.pmpaddr
    ensures csr.Valid() && csr.Snapshot() == Mreturned(old(csr.Snapshot()))
    ensures pc == old(csr.Snapshot()).m.mepc
  {
    MstatusAccess(csr.Snapshot(), 0);
    var mstatus := csr.ImplicitRead(MSTATUS).value;
    csr.SetPrivilegeMode(((mstatus >> 11) & 3) as bv8);
    MstatusAccess(csr.Snapshot(), MretStatus(mstatus));
    var _ := csr.ImplicitWrite(MSTATUS, MretStatus(mstatus));
    MstatusAccess(csr.Snapshot(), 0);
    pc := csr.ImplicitRead(MEPC).value;
  }

  /** The CSR side of SRET: the mode is set from SPP before sstatus is rewritten; yields sepc. */
  method SretCsr(csr: Csr) returns (pc: bv32)
    requires csr.Valid()
    modifies csr, csr.pmpcfg, csr.pmpaddr
    ensures csr.Valid() && csr.Snapshot() == Sreturned(old(csr.Snapshot()))
    ensures pc == old(csr.Snapshot()).s.sepc
  {
    SstatusAccess(csr.Snapshot(), 0);
    var sstatus := csr.ImplicitRead(SSTATUS).value;
    csr.SetPrivilegeMode(if sstatus & 0x100 != 0 then SUPERVISOR_MODE else USER_MODE);
    SstatusAccess(csr.Snapshot(), SretStatus(sstatus));
    var _ := csr.ImplicitWrite(SSTATUS, SretStatus(sstatus));
    SstatusAccess(csr.Snapshot(), 0);
    pc := csr.ImplicitRead(SEPC).value;
  }

  /** CSRRW, CSRRS, CSRRC and their immediate forms: rd takes the old value before the write. */
  method CsrInst(d: DecodedInst, cpu: CpuState, mem: Memory) returns (r: Outcome<()>)
    requires Wired(cpu, mem) && Decoded(d) && d.funct3 != 0 && d.funct3 != 4
    modifies cpu, cpu.regs, mem.csr, mem.csr.pmpcfg, mem.csr.pmpaddr
    ensures Wired(cpu, mem)
    ensures Executed(MachineOf(cpu, mem), r) == CsrSpec(old(MachineOf(cpu, mem)), d)
  {
    var r1 := cpu.GetR(d.rs1);
    var a := CsrAddress(d);
    var value := mem.csr.ExplicitReadCsr(a);
    if value.Throw? {
      return Throw(value.thrown);
    }
    cpu.SetR(d.rd, value.value);
    r := WriteCsr(cpu, mem, a, CsrWriteValue(d.funct3, value.value, r1, d.rs1));
  }

  /** The write of a Zicsr instruction, if it makes one, then the pc advances unless refused. */
  method WriteCsr(cpu: CpuState, mem: Memory, a: bv16, write: Option<bv32>) returns (r: Outcome<()>)
    requires Wired(cpu, mem)
    modifies cpu, mem.csr, mem.csr.pmpcfg, mem.csr.pmpaddr
    ensures Wired(cpu, mem)
    ensures Executed(MachineOf(cpu, mem), r) == CsrWritten(old(MachineOf(cpu, mem)), a, write)
  {
    if write.None? {
      r := Advance(cpu, mem);
    } else {
      r := StoreCsr(cpu, mem, a, write.value);
    }
  }

  /** `explicit_write`, then the pc advances unless the write was refused. */
  method StoreCsr(cpu: CpuState, mem: Memory, a: bv16, v: bv32) returns (r: Outcome<()>)
    requires Wired(cpu, mem)
    modifies cpu, mem.csr, mem.csr.pmpcfg, mem.csr.pmpaddr
    ensures Wired(cpu, mem)
    ensures Executed(MachineOf(cpu, mem), r) == CsrStored(old(MachineOf(cpu, mem)), ExplicitWrite(old(mem.csr.Snapshot()), a, v))
  {
    r := mem.csr.ExplicitWriteCsr(a, v);
    if r.Normal? {
      r := Advance(cpu, mem);
    }
  }
}
