// IRVE: what branches, jumps and the A and Zicsr extensions promise, stated over the spec
// functions of IrveExecute.

module IrveControlFacts {
  import opened Common
  import opened Bits
  import opened Registers
  import opened IrveTrap
  import opened IrveWord
  import opened IrveDecode
  import opened IrveCsr
  import opened IrveMemory
  import opened IrveMemoryFacts
  import opened IrveExecute

  // ---------------------------------------------------------------------------------------
  // Branches and jumps.

  /** Exactly funct3 010 and 011 are illegal branches. */
  lemma BranchLegality(funct3: bv8, a: bv32, b: bv32)
    requires funct3 < 8
    ensures BranchTaken(funct3, a, b).None? <==> funct3 == 2 || funct3 == 3
  {
  }

  /** BNE, BGE and BGEU are taken exactly when BEQ, BLT and BLTU are not; BLT is signed, BLTU unsigned. */
  lemma BranchPairs(a: bv32, b: bv32)
    ensures BranchTaken(1, a, b) == Some(!BranchTaken(0, a, b).value)
    ensures BranchTaken(5, a, b) == Some(!BranchTaken(4, a, b).value)
    ensures BranchTaken(7, a, b) == Some(!BranchTaken(6, a, b).value)
    ensures BranchTaken(4, 0xFFFF_FFFF, 0) == Some(true) && BranchTaken(6, 0xFFFF_FFFF, 0) == Some(false)
  {
  }

  /**
   * A legal branch either falls through to pc + 4, jumps to pc + imm, or, when the taken
   * target is not divisible by 4, raises instruction-address-misaligned and changes nothing.
   */
  lemma BranchEffect(x: Machine, d: DecodedInst, taken: bool)
    requires Ready(x) && Decoded(d) && BranchTaken(d.funct3, Reg(x, d.rs1), Reg(x, d.rs2)) == Some(taken)
    ensures !taken ==> BranchSpec(x, d) == Executed(Next(x), Normal(()))
    ensures taken && Offset(x.pc, d.immB) % 4 != 0 ==> BranchSpec(x, d) == Executed(x, Raise(INSTRUCTION_ADDRESS_MISALIGNED))
    ensures taken && Offset(x.pc, d.immB) % 4 == 0 ==> BranchSpec(x, d) == Executed(x.(pc := Offset(x.pc, d.immB)), Normal(()))
  {
    assert BranchSpec(x, d) == Branched(x, taken, Offset(x.pc, d.immB));
  }

  /**
   * JAL and JALR link rd to the old pc plus 4 and change no other register. JALR's target
   * uses rs1 as it was before the link, so it holds when rd and rs1 are the same register.
   */
  lemma JalLinks(x: Machine, d: DecodedInst, other: bv8)
    requires Ready(x) && Decoded(d) && other < 32
    ensures JalSpec(x, d).result == Normal(()) && JalSpec(x, d).after.pc == Offset(x.pc, d.immJ)
    ensures JalSpec(x, d).after.mem == x.mem && JalSpec(x, d).after.reservation == x.reservation
    ensures d.rd != 0 ==> Reg(JalSpec(x, d).after, d.rd) == x.pc + 4
    ensures other != d.rd ==> Reg(JalSpec(x, d).after, other) == Reg(x, other)
  {
    var y := JalSpec(x, d).after;
    WrittenReadsBack(x.regs, d.rd, x.pc + 4, other);
    assert Reg(y, other) == RegValue(y.regs, other) && Reg(y, d.rd) == RegValue(y.regs, d.rd);
  }

  lemma JalrLinks(x: Machine, d: DecodedInst, other: bv8)
    requires Ready(x) && Decoded(d) && other < 32
    ensures JalrSpec(x, d).result == Normal(()) && JalrSpec(x, d).after.pc == Offset(Reg(x, d.rs1), d.immI)
    ensures JalrSpec(x, d).after.mem == x.mem && JalrSpec(x, d).after.reservation == x.reservation
    ensures d.rd != 0 ==> Reg(JalrSpec(x, d).after, d.rd) == x.pc + 4
    ensures other != d.rd ==> Reg(JalrSpec(x, d).after, other) == Reg(x, other)
  {
    var y := JalrSpec(x, d).after;
    WrittenReadsBack(x.regs, d.rd, x.pc + 4, other);
    assert Reg(y, other) == RegValue(y.regs, other) && Reg(y, d.rd) == RegValue(y.regs, d.rd);
  }

  /** LUI writes the U immediate to rd, advances the pc by 4, and changes no other register. */
  lemma LuiLoads(x: Machine, d: DecodedInst, other: bv8)
    requires Ready(x) && Decoded(d) && other < 32
    ensures LuiSpec(x, d).result == Normal(()) && LuiSpec(x, d).after.pc == x.pc + 4
    ensures LuiSpec(x, d).after.mem == x.mem && LuiSpec(x, d).after.reservation == x.reservation
    ensures d.rd != 0 ==> Reg(LuiSpec(x, d).after, d.rd) == d.immU
    ensures other != d.rd ==> Reg(LuiSpec(x, d).after, other) == Reg(x, other)
  {
    var y := LuiSpec(x, d).after;
    WrittenReadsBack(x.regs, d.rd, d.immU, other);
    assert Reg(y, other) == RegValue(y.regs, other) && Reg(y, d.rd) == RegValue(y.regs, d.rd);
  }

  /** AUIPC writes the pc plus the U immediate to rd, advances the pc by 4, and changes no other register. */
  lemma AuipcAdds(x: Machine, d: DecodedInst, other: bv8)
    requires Ready(x) && Decoded(d) && other < 32
    ensures AuipcSpec(x, d).result == Normal(()) && AuipcSpec(x, d).after.pc == x.pc + 4
    ensures AuipcSpec(x, d).after.mem == x.mem && AuipcSpec(x, d).after.reservation == x.reservation
    ensures d.rd != 0 ==> Reg(AuipcSpec(x, d).after, d.rd) == Offset(x.pc, d.immU)
    ensures other != d.rd ==> Reg(AuipcSpec(x, d).after, other) == Reg(x, other)
  {
    var y := AuipcSpec(x, d).after;
    WrittenReadsBack(x.regs, d.rd, Offset(x.pc, d.immU), other);
    assert Reg(y, other) == RegValue(y.regs, other) && Reg(y, d.rd) == RegValue(y.regs, d.rd);
  }

  /**
   * FENCE (funct3 000) and FENCE.I (001) only advance the pc: there is one hart and no cache
   * to order. Every other funct3 raises illegal-instruction and changes nothing.
   */
  lemma FenceOnlyAdvances(x: Machine, d: DecodedInst)
    requires Ready(x) && Decoded(d)
    ensures d.funct3 <= 1 ==> MiscMemSpec(x, d) == Executed(x.(pc := x.pc + 4), Normal(()))
    ensures d.funct3 > 1 ==> MiscMemSpec(x, d) == Executed(x, Raise(ILLEGAL_INSTRUCTION))
  {
  }

  // ---------------------------------------------------------------------------------------
  // The A extension.

  /** Signed less-than is irreflexive and asymmetric. */
  lemma SltOrder(a: bv32, b: bv32)
    ensures !Slt(a, a)
    ensures Slt(a, b) ==> !Slt(b, a)
  {
  }

  /** AMOMIN and AMOMAX pick the signed extreme of the loaded word and rs2. */
  lemma AmoSignedExtremes(loaded: bv32, r2: bv32)
    ensures var m := AmoValue(AMOMIN_W, loaded, r2);
      (m == loaded || m == r2) && !Slt(loaded, m) && !Slt(r2, m)
    ensures var m := AmoValue(AMOMAX_W, loaded, r2);
      (m == loaded || m == r2) && !Slt(m, loaded) && !Slt(m, r2)
  {
    SltOrder(loaded, r2);
    SltOrder(r2, loaded);
    var lo, hi := AmoValue(AMOMIN_W, loaded, r2), AmoValue(AMOMAX_W, loaded, r2);
    if Slt(r2, loaded) {
      assert lo == r2 && !Slt(loaded, lo) && !Slt(r2, lo);
    } else {
      assert lo == loaded && !Slt(loaded, lo) && !Slt(r2, lo);
    }
    if Slt(loaded, r2) {
      assert hi == r2 && !Slt(hi, loaded) && !Slt(hi, r2);
    } else {
      assert hi == loaded && !Slt(hi, loaded) && !Slt(hi, r2);
    }
  }

  /** The unsigned minimum is one of its operands and no larger than either. */
  lemma UnsignedMinimum(a: bv32, b: bv32)
    ensures var m := MinUnsigned(a, b);
      (m == a || m == b) && Unsigned(m) <= Unsigned(a) && Unsigned(m) <= Unsigned(b)
  {
  }

  /** The unsigned maximum is one of its operands and no smaller than either. */
  lemma UnsignedMaximum(a: bv32, b: bv32)
    ensures var m := MaxUnsigned(a, b);
      (m == a || m == b) && Unsigned(m) >= Unsigned(a) && Unsigned(m) >= Unsigned(b)
  {
  }

  /** AMOMINU stores the unsigned minimum, and AMOSWAP stores rs2 itself. */
  lemma AmoUnsignedMin(loaded: bv32, r2: bv32)
    ensures AmoValue(AMOSWAP_W, loaded, r2) == r2
    ensures var m := AmoValue(AMOMINU_W, loaded, r2);
      (m == loaded || m == r2) && Unsigned(m) <= Unsigned(loaded) && Unsigned(m) <= Unsigned(r2)
  {
    assert AmoValue(AMOMINU_W, loaded, r2) == MinUnsigned(loaded, r2);
    UnsignedMinimum(loaded, r2);
  }

  /** AMOMAXU stores the unsigned maximum. */
  lemma AmoUnsignedMax(loaded: bv32, r2: bv32)
    ensures var m := AmoValue(AMOMAXU_W, loaded, r2);
      (m == loaded || m == r2) && Unsigned(m) >= Unsigned(loaded) && Unsigned(m) >= Unsigned(r2)
  {
    assert AmoValue(AMOMAXU_W, loaded, r2) == MaxUnsigned(loaded, r2);
    UnsignedMaximum(loaded, r2);
  }

  /** The signed and the unsigned minimum differ on -1 and 1. */
  lemma AmoMinExample()
    ensures AmoValue(AMOMIN_W, 0xFFFF_FFFF, 1) == 0xFFFF_FFFF
    ensures AmoValue(AMOMINU_W, 0xFFFF_FFFF, 1) == 1
    ensures AmoValue(AMOMAX_W, 0xFFFF_FFFF, 1) == 1
    ensures AmoValue(AMOMAXU_W, 0xFFFF_FFFF, 1) == 0xFFFF_FFFF
  {
  }

  /**
   * The end of LR.W: a completed load writes rd, makes the reservation valid and advances the
   * pc; a faulting one changes nothing.
   */
  lemma LrReserves(x: Machine, rd: bv8, loaded: Outcome<bv32>)
    requires Ready(x) && rd < 32
    ensures loaded.Normal? ==> Reserved(x, rd, loaded).after.reservation && Reserved(x, rd, loaded).result == Normal(())
    ensures loaded.Normal? && rd != 0 ==> Reg(Reserved(x, rd, loaded).after, rd) == loaded.value
    ensures loaded.Normal? ==> Reserved(x, rd, loaded).after.pc == x.pc + 4
    ensures loaded.Throw? ==> Reserved(x, rd, loaded) == Executed(x, Throw(loaded.thrown))
  {
    if loaded.Normal? {
      WrittenReadsBack(x.regs, rd, loaded.value, rd);
    }
  }

  /** The load faults of an AMO are reported as the matching store/AMO faults. */
  lemma AmoFaultCauses(t: bv32)
    ensures AmoRethrow(RvException(LOAD_ACCESS_FAULT, t)) == RvException(STORE_OR_AMO_ACCESS_FAULT, 0)
    ensures AmoRethrow(RvException(LOAD_PAGE_FAULT, t)) == RvException(STORE_OR_AMO_PAGE_FAULT, 0)
    ensures AmoRethrow(ExitRequest) == ExitRequest && AmoRethrow(AssertionFailure) == AssertionFailure
  {
  }

  /**
   * SC.W without a valid reservation stores nothing and writes 1 to rd; an aligned SC.W
   * always leaves the reservation invalid.
   */
  lemma ScWithoutReservation(x: Machine, d: DecodedInst)
    requires Ready(x) && Decoded(d) && Reg(x, d.rs1) % 4 == 0
    ensures !ScSpec(x, d).after.reservation
    ensures !x.reservation ==> ScSpec(x, d) == Retire(x, d.rd, 1)
  {
  }

  /** SC.W with a valid reservation writes 0 to rd exactly when its store completes. */
  lemma ScWithReservation(x: Machine, rd: bv8, s: Stored)
    requires Ready(x) && rd < 32 && WellFormed(s.mem)
    ensures Conditional(x, rd, s).after.mem == s.mem
    ensures s.result.Normal? ==> Conditional(x, rd, s) == Retire(x.(mem := s.mem), rd, 0)
    ensures s.result.Throw? ==> Conditional(x, rd, s) == Executed(x.(mem := s.mem), s.result)
  {
  }

  /** The AMO rethrow names only load causes, so every store fault it meets becomes a failed assertion. */
  lemma StoreFaultsBecomeAssertions(cause: bv32, t: bv32)
    requires cause in {STORE_OR_AMO_ADDRESS_MISALIGNED, STORE_OR_AMO_ACCESS_FAULT, STORE_OR_AMO_PAGE_FAULT}
    ensures AmoRethrow(RvException(cause, t)) == AssertionFailure
  {
  }

  /**
   * SC.W as written and corrected reach the same state and agree on every result except a
   * faulting store under a valid reservation, which the source rethrows through the load
   * rethrow and so turns into a failed assertion.
   */
  lemma ScAsWrittenAgreement(x: Machine, d: DecodedInst)
    requires Ready(x) && Decoded(d)
    ensures ScSpecAsWritten(x, d).after == ScSpec(x, d).after
    ensures ScSpec(x, d).result.Normal? ==> ScSpecAsWritten(x, d).result == ScSpec(x, d).result
    ensures Reg(x, d.rs1) % 4 != 0 || !x.reservation ==> ScSpecAsWritten(x, d) == ScSpec(x, d)
    ensures ScSpec(x, d).result.Throw? && Reg(x, d.rs1) % 4 == 0 && x.reservation ==>
      ScSpecAsWritten(x, d).result == Throw(AssertionFailure)
  {
    var r1 := Reg(x, d.rs1);
    if r1 % 4 == 0 && x.reservation {
      var s := StoreSpec(x.mem, r1, DT_WORD, Reg(x, d.rs2));
      if s.result.Throw? {
        StoreThrows(x.mem, r1, DT_WORD, Reg(x, d.rs2));
        if s.result.thrown.RvException? {
          StoreFaultsBecomeAssertions(s.result.thrown.cause, s.result.thrown.tval);
        }
      }
    }
  }

  /**
   * A store to an address no device answers, made without address translation, raises the
   * store/AMO access fault and changes nothing.
   */
  lemma UnmappedStore(m: MemState, va: bv32, dt: bv8, v: bv32)
    requires WellFormed(m) && NoTranslation(m.csr, StoreAccess) && Unmapped(va as int) && va as int != DEBUG_ADDR
    ensures StoreSpec(m, va, dt, v) == Stored(m, Raise(STORE_OR_AMO_ACCESS_FAULT))
  {
    Untranslated(m, va, StoreAccess);
    UnmappedAccesses(m, va as int, dt, v);
    RefusedStore(m, va, dt, v, va as int);
  }

  /** A store whose physical write violates the PMAs raises the access fault and changes nothing. */
  lemma RefusedStore(m: MemState, va: bv32, dt: bv8, v: bv32, pa: int)
    requires WellFormed(m) && Translate(m, va, StoreAccess) == Normal(pa)
    requires WritePhysical(m, pa, dt, v) == Writing(m, ViolatesPma)
    ensures StoreSpec(m, va, dt, v) == Stored(m, Raise(STORE_OR_AMO_ACCESS_FAULT))
  {
  }

  /**
   * The SC.W discrepancy on a concrete address: with a valid reservation and no translation,
   * an SC.W to 0x1000_0000 (between the user and the kernel RAM) should raise the store/AMO
   * access fault, but the source's rethrow turns it into a failed assertion.
   */
  lemma ScUnmappedCounterexample(x: Machine, d: DecodedInst)
    requires Ready(x) && Decoded(d) && x.reservation && NoTranslation(x.mem.csr, StoreAccess)
    requires Reg(x, d.rs1) == 0x1000_0000
    ensures ScSpec(x, d).result == Raise(STORE_OR_AMO_ACCESS_FAULT)
    ensures ScSpecAsWritten(x, d).result == Throw(AssertionFailure)
    ensures !ScSpec(x, d).after.reservation && ScSpec(x, d).after.mem == x.mem
  {
    UnmappedStore(x.mem, 0x1000_0000, DT_WORD, Reg(x, d.rs2));
    ScAsWrittenAgreement(x, d);
  }

  // ---------------------------------------------------------------------------------------
  // Zicsr and the environment call.

  /**
   * A Zicsr instruction leaves the CSR unwritten exactly when it is CSRRS or CSRRC with rs1 = x0,
   * or CSRRSI or CSRRCI with a zero immediate.
   */
  lemma CsrWriteSuppression(funct3: bv8, csr: bv32, r1: bv32, rs1: bv8)
    requires funct3 in {1, 2, 3, 5, 6, 7} && rs1 < 32
    ensures CsrWriteValue(funct3, csr, r1, rs1).None? <==> funct3 in {2, 3, 6, 7} && rs1 == 0
  {
    if funct3 == 1 {
    } else if funct3 == 2 {
    } else if funct3 == 3 {
    } else if funct3 == 5 {
    } else if funct3 == 6 {
      assert (rs1 as bv32 == 0) == (rs1 == 0);
    } else {
      assert (rs1 as bv32 == 0) == (rs1 == 0);
    }
  }

  /** Setting bits turns on exactly the bits of the mask, and clearing turns them off; others keep their value. */
  lemma SetAndClear(csr: bv32, mask: bv32)
    ensures (csr | mask) & mask == mask && (csr | mask) & !mask == csr & !mask
    ensures (csr & !mask) & mask == 0 && (csr & !mask) & !mask == csr & !mask
  {
  }

  /**
   * CSRRS and CSRRSI set the bits of rs1 or the immediate, CSRRC and CSRRCI clear them, and
   * CSRRW and CSRRWI write the operand itself.
   */
  lemma CsrWriteMeaning(csr: bv32, r1: bv32, rs1: bv8)
    requires 0 < rs1 < 32
    ensures CsrWriteValue(1, csr, r1, rs1) == Some(r1) && CsrWriteValue(5, csr, r1, rs1) == Some(rs1 as bv32)
    ensures CsrWriteValue(2, csr, r1, rs1) == Some(csr | r1) && CsrWriteValue(3, csr, r1, rs1) == Some(csr & !r1)
    ensures CsrWriteValue(6, csr, r1, rs1) == Some(csr | rs1 as bv32) && CsrWriteValue(7, csr, r1, rs1) == Some(csr & !(rs1 as bv32))
  {
    CsrWriteOperand(csr, r1, rs1);
    CsrSetBits(csr, r1, rs1);
    CsrClearBits(csr, r1, rs1);
  }

  lemma CsrWriteOperand(csr: bv32, r1: bv32, rs1: bv8)
    ensures CsrWriteValue(1, csr, r1, rs1) == Some(r1) && CsrWriteValue(5, csr, r1, rs1) == Some(rs1 as bv32)
  {
  }

  lemma CsrSetBits(csr: bv32, r1: bv32, rs1: bv8)
    requires 0 < rs1 < 32
    ensures CsrWriteValue(2, csr, r1, rs1) == Some(csr | r1) && CsrWriteValue(6, csr, r1, rs1) == Some(csr | rs1 as bv32)
  {
    ImmediateOperandNonzero(rs1);
  }

  lemma CsrClearBits(csr: bv32, r1: bv32, rs1: bv8)
    requires 0 < rs1 < 32
    ensures CsrWriteValue(3, csr, r1, rs1) == Some(csr & !r1) && CsrWriteValue(7, csr, r1, rs1) == Some(csr & !(rs1 as bv32))
  {
    ImmediateOperandNonzero(rs1);
  }

  /** A non-zero register index is also a non-zero immediate operand. */
  lemma ImmediateOperandNonzero(rs1: bv8)
    requires 0 < rs1 < 32
    ensures rs1 as bv32 != 0
  {
    assert rs1 as int != 0;
  }

  /**
   * A Zicsr instruction whose read is allowed writes the old value to rd. Without a write it
   * then advances; with a write the CSR file takes the written value and the pc advances, and
   * a refused write raises its exception with rd already written and the pc unchanged.
   */
  lemma CsrEffect(x: Machine, d: DecodedInst, value: bv32)
    requires Ready(x) && Decoded(d) && d.funct3 != 0 && d.funct3 != 4
    requires ExplicitRead(x.mem.csr, CsrAddress(d)) == Normal(value)
    ensures var r := CsrSpec(x, d); d.rd != 0 ==> Reg(r.after, d.rd) == value
    ensures var w := CsrWriteValue(d.funct3, value, Reg(x, d.rs1), d.rs1);
      w.None? ==> CsrSpec(x, d) == Done(Next(SetRd(x, d.rd, value)))
    ensures var w := CsrWriteValue(d.funct3, value, Reg(x, d.rs1), d.rs1);
      w.Some? && ExplicitWrite(x.mem.csr, CsrAddress(d), w.value).Normal? ==>
        CsrSpec(x, d) == Done(Next(WithCsr(SetRd(x, d.rd, value), ExplicitWrite(x.mem.csr, CsrAddress(d), w.value).value)))
    ensures var w := CsrWriteValue(d.funct3, value, Reg(x, d.rs1), d.rs1);
      w.Some? && ExplicitWrite(x.mem.csr, CsrAddress(d), w.value).Throw? ==>
        CsrSpec(x, d) == Executed(SetRd(x, d.rd, value), Throw(ExplicitWrite(x.mem.csr, CsrAddress(d), w.value).thrown))
  {
    WrittenReadsBack(x.regs, d.rd, value, d.rd);
  }

  /** A Zicsr instruction whose read is refused changes nothing. */
  lemma CsrReadRefused(x: Machine, d: DecodedInst)
    requires Ready(x) && Decoded(d) && d.funct3 != 0 && d.funct3 != 4
    requires ExplicitRead(x.mem.csr, CsrAddress(d)).Throw?
    ensures CsrSpec(x, d) == Executed(x, Throw(ExplicitRead(x.mem.csr, CsrAddress(d)).thrown))
  {
  }

  /** The environment-call cause is 8 plus the mode's number. */
  lemma EcallCauses(mode: bv8)
    ensures EcallCause(mode).Some? <==> mode == USER_MODE || mode == SUPERVISOR_MODE || mode == MACHINE_MODE
    ensures EcallCause(mode).Some? ==> EcallCause(mode).value == UMODE_ECALL + mode as bv32
  {
  }
}
