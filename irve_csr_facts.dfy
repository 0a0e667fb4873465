// IRVE: what the CSR file promises — reset values, the masked views, the WARL writes, the
// counter halves, the ignored and refused writes, the legal-value invariant and the
// privilege checks — stated over the functions of IrveCsr.

module IrveCsrFacts {
  import opened Common
  import opened IrveTrap
  import opened IrveCsr

  /** The case labels of the supervisor-level addresses. */
  lemma SupervisorNames()
    ensures NameOf(SSTATUS) == Some(Supervisor(Sstatus)) && NameOf(SIE) == Some(Supervisor(Sie)) && NameOf(SIP) == Some(Supervisor(Sip))
    ensures NameOf(SENVCFG) == Some(Supervisor(Senvcfg)) && NameOf(SEPC) == Some(Supervisor(Sepc)) && NameOf(SATP) == Some(Supervisor(Satp))
  {
  }

  /** The case labels of the supervisor-level trap-handling addresses. */
  lemma SupervisorTrapNames()
    ensures NameOf(STVEC) == Some(Supervisor(Stvec)) && NameOf(SCAUSE) == Some(Supervisor(Scause)) && NameOf(STVAL) == Some(Supervisor(Stval))
  {
  }

  /** The case labels of the machine-level trap-setup addresses. */
  lemma MachineSetupNames()
    ensures NameOf(MSTATUS) == Some(MachineSetup(Mstatus)) && NameOf(MTVEC) == Some(MachineSetup(Mtvec)) && NameOf(MIE) == Some(MachineSetup(Mie))
    ensures NameOf(MEDELEG) == Some(MachineSetup(Medeleg)) && NameOf(MIDELEG) == Some(MachineSetup(Mideleg)) && NameOf(MENVCFG) == Some(MachineSetup(Menvcfg))
    ensures NameOf(MISA) == Some(MachineSetup(Misa)) && NameOf(MSTATUSH) == Some(MachineSetup(Mstatush))
  {
  }

  /** The case labels of the machine-level trap-handling addresses. */
  lemma MachineHandlingNames()
    ensures NameOf(MCAUSE) == Some(MachineHandling(Mcause)) && NameOf(MIP) == Some(MachineHandling(Mip)) && NameOf(MEPC) == Some(MachineHandling(Mepc))
    ensures NameOf(MENVCFGH) == Some(MachineSetup(Menvcfgh)) && NameOf(MCOUNTINHIBIT) == Some(MachineSetup(Mcountinhibit))
    ensures NameOf(MTVAL) == Some(MachineHandling(Mtval))
  {
  }

  /** The case labels of the machine counter addresses. */
  lemma MachineCounterNames()
    ensures NameOf(MINSTRET) == Some(Count(Minstret)) && NameOf(MINSTRETH) == Some(Count(Minstreth))
    ensures NameOf(MCYCLE) == Some(Count(Mcycle)) && NameOf(MCYCLEH) == Some(Count(Mcycleh))
  {
  }

  /** The case labels of the machine timer addresses. */
  lemma MachineTimerNames()
    ensures NameOf(MTIME) == Some(Timer(Mtime)) && NameOf(MTIMEH) == Some(Timer(Mtimeh))
    ensures NameOf(MTIMECMP) == Some(Timer(Mtimecmp)) && NameOf(MTIMECMPH) == Some(Timer(Mtimecmph))
  {
  }

  /** The case labels of the unprivileged counter addresses. */
  lemma UserCounterNames()
    ensures NameOf(CYCLE) == Some(ReadOnly(Cycle)) && NameOf(CYCLEH) == Some(ReadOnly(Cycleh))
    ensures NameOf(TIME) == Some(ReadOnly(Time)) && NameOf(TIMEH) == Some(ReadOnly(Timeh))
  {
  }

  /** The case labels of instret, instreth and the information addresses. */
  lemma InformationNames()
    ensures NameOf(INSTRET) == Some(ReadOnly(Instret)) && NameOf(INSTRETH) == Some(ReadOnly(Instreth))
    ensures NameOf(MVENDORID) == Some(ReadOnly(Mvendorid)) && NameOf(MHARTID) == Some(ReadOnly(Mhartid))
  {
  }

  /** The reset values of the machine-level registers: machine mode, mstatus, mcause, mtvec 5. */
  lemma ResetMachineValues(sscratch: bv32, mscratch: bv32, stval: bv32, pmpaddr: seq<bv32>)
    requires |pmpaddr| == 64
    ensures var c := Reset(sscratch, mscratch, stval, pmpaddr);
      c.mode == MACHINE_MODE
      && ReadNamed(c, MachineSetup(Mstatus)) == 0 && ReadNamed(c, MachineHandling(Mcause)) == 0 && ReadNamed(c, MachineSetup(Mtvec)) == 5
      && ReadNamed(c, MachineSetup(Mie)) == 0 && ReadNamed(c, MachineHandling(Mip)) == 0
    ensures forall i :: 0 <= i < 64 ==> Reset(sscratch, mscratch, stval, pmpaddr).pmpcfg[i] == 0
  {
  }

  /** The reset values of minstret and mcycle: 0. */
  lemma ResetCounterValues(sscratch: bv32, mscratch: bv32, stval: bv32, pmpaddr: seq<bv32>)
    requires |pmpaddr| == 64
    ensures var c := Reset(sscratch, mscratch, stval, pmpaddr);
      ReadNamed(c, Count(Minstret)) == 0 && ReadNamed(c, Count(Minstreth)) == 0
      && ReadNamed(c, Count(Mcycle)) == 0 && ReadNamed(c, Count(Mcycleh)) == 0
  {
  }

  /** The reset values of the timer: mtime 0, mtimecmp all ones. */
  lemma ResetTimerValues(sscratch: bv32, mscratch: bv32, stval: bv32, pmpaddr: seq<bv32>)
    requires |pmpaddr| == 64
    ensures var c := Reset(sscratch, mscratch, stval, pmpaddr);
      ReadNamed(c, Timer(Mtime)) == 0 && ReadNamed(c, Timer(Mtimeh)) == 0
      && ReadNamed(c, Timer(Mtimecmp)) == 0xFFFF_FFFF && ReadNamed(c, Timer(Mtimecmph)) == 0xFFFF_FFFF
  {
  }

  /** A write through a masked view keeps the bits outside the mask and takes those inside it. */
  lemma MergeBits(field: bv32, d: bv32, mask: bv32)
    ensures Masked(Merge(field, d, mask), mask) == Masked(d, mask)
    ensures Masked(Merge(field, d, mask), !mask) == Masked(field, !mask)
  {
    MergeInside(field, d, mask);
    MergeOutside(field, d, mask);
  }

  lemma MergeInside(field: bv32, d: bv32, mask: bv32)
    ensures ((field & !mask) | (d & mask)) & mask == d & mask
  {
  }

  lemma MergeOutside(field: bv32, d: bv32, mask: bv32)
    ensures ((field & !mask) | (d & mask)) & !mask == field & !mask
  {
  }

  /**
   * sstatus, sie and sip are views of mstatus, mie and mip: after a write through the view,
   * the view reads back the masked data and the machine register keeps its other bits;
   * nothing else changes.
   */
  lemma SstatusView(c: CsrFile, d: bv32)
    requires Wf(c)
    ensures var w := WriteNamed(c, Supervisor(Sstatus), d);
      w.Normal? && ReadNamed(w.value, Supervisor(Sstatus)) == d & SSTATUS_MASK
      && w.value.m.mstatus & !SSTATUS_MASK == c.m.mstatus & !SSTATUS_MASK
      && w.value == c.(m := c.m.(mstatus := w.value.m.mstatus))
  {
    var f := Merge(c.m.mstatus, d, SSTATUS_MASK);
    assert WriteNamed(c, Supervisor(Sstatus), d) == Normal(c.(m := c.m.(mstatus := f)));
    MergeBits(c.m.mstatus, d, SSTATUS_MASK);
  }

  lemma SieView(c: CsrFile, d: bv32)
    requires Wf(c)
    ensures var w := WriteNamed(c, Supervisor(Sie), d);
      w.Normal? && ReadNamed(w.value, Supervisor(Sie)) == d & SIE_MASK
      && w.value.m.mie & !SIE_MASK == c.m.mie & !SIE_MASK
      && w.value == c.(m := c.m.(mie := w.value.m.mie))
  {
    var f := Merge(c.m.mie, d, SIE_MASK);
    assert WriteNamed(c, Supervisor(Sie), d) == Normal(c.(m := c.m.(mie := f)));
    MergeBits(c.m.mie, d, SIE_MASK);
  }

  lemma SipView(c: CsrFile, d: bv32)
    requires Wf(c)
    ensures var w := WriteNamed(c, Supervisor(Sip), d);
      w.Normal? && ReadNamed(w.value, Supervisor(Sip)) == d & SIP_MASK
      && w.value.m.mip & !SIP_MASK == c.m.mip & !SIP_MASK
      && w.value == c.(m := c.m.(mip := w.value.m.mip))
  {
    var f := Merge(c.m.mip, d, SIP_MASK);
    assert WriteNamed(c, Supervisor(Sip), d) == Normal(c.(m := c.m.(mip := f)));
    MergeBits(c.m.mip, d, SIP_MASK);
  }

  /** Reads of sstatus, sie and sip see only the masked bits of the machine registers. */
  lemma MaskedReads(c: CsrFile)
    requires Wf(c)
    ensures ReadNamed(c, Supervisor(Sstatus)) == c.m.mstatus & SSTATUS_MASK
    ensures ReadNamed(c, Supervisor(Sie)) == c.m.mie & SIE_MASK
    ensures ReadNamed(c, Supervisor(Sip)) == c.m.mip & SIP_MASK
  {
  }

  /** sepc and mepc drop the low two bits of the written value (IALIGN=32). */
  lemma ExceptionPcWrites(c: CsrFile, d: bv32)
    requires Wf(c)
    ensures var w := WriteNamed(c, Supervisor(Sepc), d); w.Normal? && ReadNamed(w.value, Supervisor(Sepc)) == d & 0xFFFF_FFFC
    ensures var w := WriteNamed(c, MachineHandling(Mepc), d); w.Normal? && ReadNamed(w.value, MachineHandling(Mepc)) == d & 0xFFFF_FFFC
  {
    var v := d & 0xFFFF_FFFC;
    assert WriteNamed(c, Supervisor(Sepc), d) == Normal(c.(s := c.s.(sepc := v)));
    assert WriteNamed(c, MachineHandling(Mepc), d) == Normal(c.(m := c.m.(mepc := v)));
  }

  /** satp keeps only MODE and PPN: ASIDs are not supported. */
  lemma SatpWrite(c: CsrFile, d: bv32)
    requires Wf(c)
    ensures var w := WriteNamed(c, Supervisor(Satp), d); w.Normal? && ReadNamed(w.value, Supervisor(Satp)) == d & SATP_MASK
  {
  }

  /** medeleg keeps only the exceptions that may be delegated (not environment calls from M). */
  lemma MedelegWrite(c: CsrFile, d: bv32)
    requires Wf(c)
    ensures var w := WriteNamed(c, MachineSetup(Medeleg), d); w.Normal? && ReadNamed(w.value, MachineSetup(Medeleg)) == d & MEDELEG_MASK
  {
  }

  /** Only bit 0 of senvcfg and menvcfg is writable. */
  lemma EnvcfgWrites(c: CsrFile, d: bv32)
    requires Wf(c)
    ensures var w := WriteNamed(c, Supervisor(Senvcfg), d); w.Normal? && ReadNamed(w.value, Supervisor(Senvcfg)) == d & 1
    ensures var w := WriteNamed(c, MachineSetup(Menvcfg), d); w.Normal? && ReadNamed(w.value, MachineSetup(Menvcfg)) == d & 1
  {
  }

  /** mideleg and mie keep the six standard interrupt bits. */
  lemma InterruptEnableWrites(c: CsrFile, d: bv32)
    requires Wf(c)
    ensures var w := WriteNamed(c, MachineSetup(Mideleg), d); w.Normal? && ReadNamed(w.value, MachineSetup(Mideleg)) == d & INTERRUPT_MASK
    ensures var w := WriteNamed(c, MachineSetup(Mie), d); w.Normal? && ReadNamed(w.value, MachineSetup(Mie)) == d & INTERRUPT_MASK
  {
  }

  /**
   * mip keeps only the supervisor pending bits, so no machine-level pending bit (0x888) can
   * be set through mip.
   */
  lemma MipWrite(c: CsrFile, d: bv32)
    requires Wf(c)
    ensures var w := WriteNamed(c, MachineHandling(Mip), d);
      w.Normal? && ReadNamed(w.value, MachineHandling(Mip)) == d & MIP_WRITE_MASK && w.value.m.mip & 0x888 == 0
  {
    MipWriteMask(d);
  }

  lemma MipWriteMask(d: bv32)
    ensures (d & 0x222) & 0x888 == 0
  {
  }

  /**
   * mcycle: a write to the low CSR replaces only the low half of the 64-bit value, reads
   * back, and leaves the high CSR as it was.
   */
  lemma CycleLowWrite(c: CsrFile, d: bv32)
    requires Wf(c)
    ensures var w := WriteNamed(c, Count(Mcycle), d);
      w.Normal? && ReadNamed(w.value, Count(Mcycle)) == d && ReadNamed(w.value, Count(Mcycleh)) == ReadNamed(c, Count(Mcycleh))
      && Value(w.value.counters.mcycle) == (Value(c.counters.mcycle) & 0xFFFF_FFFF_0000_0000) | (d as bv64)
  {
    HalfReplacement(c.counters.mcycle, d);
  }

  /** mcycleh: a write replaces only the high half and leaves the low CSR as it was. */
  lemma CycleHighWrite(c: CsrFile, d: bv32)
    requires Wf(c)
    ensures var w := WriteNamed(c, Count(Mcycleh), d);
      w.Normal? && ReadNamed(w.value, Count(Mcycleh)) == d && ReadNamed(w.value, Count(Mcycle)) == ReadNamed(c, Count(Mcycle))
      && Value(w.value.counters.mcycle) == (Value(c.counters.mcycle) & 0x0000_0000_FFFF_FFFF) | ((d as bv64) << 32)
  {
    HalfReplacement(c.counters.mcycle, d);
  }

  /** minstret, like mcycle, is written by halves: the low half. */
  lemma InstretLowWrite(c: CsrFile, d: bv32)
    requires Wf(c)
    ensures var w := WriteNamed(c, Count(Minstret), d);
      w.Normal? && ReadNamed(w.value, Count(Minstret)) == d && ReadNamed(w.value, Count(Minstreth)) == ReadNamed(c, Count(Minstreth))
      && Value(w.value.counters.minstret) == (Value(c.counters.minstret) & 0xFFFF_FFFF_0000_0000) | (d as bv64)
  {
    HalfReplacement(c.counters.minstret, d);
  }

  /** minstreth: the high half. */
  lemma InstretHighWrite(c: CsrFile, d: bv32)
    requires Wf(c)
    ensures var w := WriteNamed(c, Count(Minstreth), d);
      w.Normal? && ReadNamed(w.value, Count(Minstreth)) == d && ReadNamed(w.value, Count(Minstret)) == ReadNamed(c, Count(Minstret))
      && Value(w.value.counters.minstret) == (Value(c.counters.minstret) & 0x0000_0000_FFFF_FFFF) | ((d as bv64) << 32)
  {
    HalfReplacement(c.counters.minstret, d);
  }

  /** cycle and cycleh read as mcycle and mcycleh. */
  lemma CycleReads(c: CsrFile)
    requires Wf(c)
    ensures ReadNamed(c, ReadOnly(Cycle)) == ReadNamed(c, Count(Mcycle)) && ReadNamed(c, ReadOnly(Cycleh)) == ReadNamed(c, Count(Mcycleh))
  {
  }

  /** time and timeh read as mtime and mtimeh. */
  lemma TimeReads(c: CsrFile)
    requires Wf(c)
    ensures ReadNamed(c, ReadOnly(Time)) == ReadNamed(c, Timer(Mtime)) && ReadNamed(c, ReadOnly(Timeh)) == ReadNamed(c, Timer(Mtimeh))
  {
  }

  /** instret and instreth read as minstret and minstreth. */
  lemma InstretReads(c: CsrFile)
    requires Wf(c)
    ensures ReadNamed(c, ReadOnly(Instret)) == ReadNamed(c, Count(Minstret)) && ReadNamed(c, ReadOnly(Instreth)) == ReadNamed(c, Count(Minstreth))
  {
  }

  /** The unprivileged counters and the information registers have no write case: writes throw. */
  lemma ReadOnlyWrites(c: CsrFile, d: bv32)
    requires Wf(c)
    ensures WriteNamed(c, ReadOnly(Cycle), d) == Raise(ILLEGAL_INSTRUCTION) && WriteNamed(c, ReadOnly(Timeh), d) == Raise(ILLEGAL_INSTRUCTION)
    ensures WriteNamed(c, ReadOnly(Mvendorid), d) == Raise(ILLEGAL_INSTRUCTION) && WriteNamed(c, ReadOnly(Hpmcounterh), d) == Raise(ILLEGAL_INSTRUCTION)
  {
  }

  /** A write to mtimecmp clears mip.MTIP (bit 7) and keeps the other mip bits. */
  lemma TimerCompareLowWrite(c: CsrFile, d: bv32)
    requires Wf(c)
    ensures var w := WriteNamed(c, Timer(Mtimecmp), d);
      w.Normal? && ReadNamed(w.value, Timer(Mtimecmp)) == d && TimerPendingCleared(c.m.mip, w.value.m.mip)
  {
    var k := c.counters;
    var x := Masked(c.m.mip, MTIP_CLEAR);
    assert WriteNamed(c, Timer(Mtimecmp), d) == Normal(c.(counters := k.(mtimecmp := k.mtimecmp.(low := d)), m := c.m.(mip := x)));
    ClearBit7(c.m.mip, WriteNamed(c, Timer(Mtimecmp), d).value.m.mip);
  }

  /** So does a write to mtimecmph. */
  lemma TimerCompareHighWrite(c: CsrFile, d: bv32)
    requires Wf(c)
    ensures var w := WriteNamed(c, Timer(Mtimecmph), d);
      w.Normal? && ReadNamed(w.value, Timer(Mtimecmph)) == d && TimerPendingCleared(c.m.mip, w.value.m.mip)
  {
    var k := c.counters;
    var x := Masked(c.m.mip, MTIP_CLEAR);
    assert WriteNamed(c, Timer(Mtimecmph), d) == Normal(c.(counters := k.(mtimecmp := k.mtimecmp.(high := d)), m := c.m.(mip := x)));
    ClearBit7(c.m.mip, WriteNamed(c, Timer(Mtimecmph), d).value.m.mip);
  }

  /** `after` has mip.MTIP (bit 7) clear and every other bit of `before`. */
  predicate TimerPendingCleared(before: bv32, after: bv32)
  {
    after & 0x80 == 0 && after & 0xFFFF_FF7F == before & 0xFFFF_FF7F
  }

  lemma ClearBit7(x: bv32, y: bv32)
    requires y == Masked(x, MTIP_CLEAR)
    ensures TimerPendingCleared(x, y)
  {
  }

  /**
   * Writes that are ignored rather than refused: MISA, MSTATUSH, MENVCFGH and MCOUNTINHIBIT
   * leave every register as it was.
   */
  lemma IgnoredWrites(c: CsrFile, d: bv32)
    requires Wf(c)
    ensures WriteNamed(c, MachineSetup(Misa), d) == Normal(c) && WriteNamed(c, MachineSetup(Mstatush), d) == Normal(c)
    ensures WriteNamed(c, MachineSetup(Menvcfgh), d) == Normal(c) && WriteNamed(c, MachineSetup(Mcountinhibit), d) == Normal(c)
  {
  }

  /** So are writes to MTVAL and to the hpm counters (hpmcounter, mhpmcounter, mhpmcounterh). */
  lemma IgnoredCounterWrites(c: CsrFile, d: bv32)
    requires Wf(c)
    ensures WriteNamed(c, MachineHandling(Mtval), d) == Normal(c) && WriteNamed(c, Count(Hpmcounter), d) == Normal(c)
    ensures WriteNamed(c, Count(Mhpmcounter), d) == Normal(c) && WriteNamed(c, Count(Mhpmcounterh), d) == Normal(c)
  {
  }

  // ---------------------------------------------------------------------------------------
  // Legal values: implicit_write keeps every register legal.

  lemma MaskedWithin(d: bv32, mask: bv32)
    ensures Within(Masked(d, mask), mask)
  {
    MaskedWithinBits(d, mask);
  }

  lemma MaskedWithinBits(d: bv32, mask: bv32)
    ensures (d & mask) & !mask == 0
  {
  }

  /** A write through a supervisor view of an interrupt register stays within the six bits. */
  lemma MergeWithin(field: bv32, d: bv32)
    requires Within(field, INTERRUPT_MASK)
    ensures Within(Merge(field, d, 0x222), INTERRUPT_MASK)
  {
    MergeWithinBits(field, d);
  }

  lemma MergeWithinBits(field: bv32, d: bv32)
    requires field & !0xAAA == 0
    ensures ((field & !0x222) | (d & 0x222)) & !0xAAA == 0
  {
  }

  /** mip, or mie, narrowed by a further mask stays within the six bits. */
  lemma NarrowedWithin(field: bv32, mask: bv32)
    requires Within(field, INTERRUPT_MASK)
    ensures Within(Masked(field, mask), INTERRUPT_MASK)
  {
    NarrowedWithinBits(field, mask);
  }

  lemma NarrowedWithinBits(field: bv32, mask: bv32)
    requires field & !0xAAA == 0
    ensures (field & mask) & !0xAAA == 0
  {
  }

  /** The reset state is legal. */
  lemma ResetIsLegal(sscratch: bv32, mscratch: bv32, stval: bv32, pmpaddr: seq<bv32>)
    requires |pmpaddr| == 64
    ensures Legal(Reset(sscratch, mscratch, stval, pmpaddr))
  {
    MaskedWithin(0, 0);
  }

  /** The supervisor-level writes keep the registers legal. */
  lemma SupervisorWriteKeepsLegal(c: CsrFile, x: SupervisorCsr, d: bv32)
    requires Legal(c)
    ensures Legal(WriteSupervisorRegs(c, x, d))
  {
    if x == Sie || x == Sip {
      InterruptViewKeepsLegal(c, x, d);
    } else if x == Senvcfg || x == Sepc || x == Satp {
      SupervisorMaskedKeepsLegal(c, x, d);
    } else if x == Sstatus {
      SameConstrainedLegal(c, WriteSupervisorRegs(c, x, d));
    } else {
      SupervisorPlainKeepsLegal(c, x, d);
    }
  }

  /** sie and sip write through to mie and mip, within the six standard interrupts. */
  lemma InterruptViewKeepsLegal(c: CsrFile, x: SupervisorCsr, d: bv32)
    requires Legal(c) && (x == Sie || x == Sip)
    ensures Legal(WriteSupervisorRegs(c, x, d))
  {
    if x == Sie {
      MergeWithin(c.m.mie, d);
    } else {
      MergeWithin(c.m.mip, d);
    }
  }

  /** senvcfg, sepc and satp keep only their legal bits. */
  lemma SupervisorMaskedKeepsLegal(c: CsrFile, x: SupervisorCsr, d: bv32)
    requires Legal(c) && (x == Senvcfg || x == Sepc || x == Satp)
    ensures Legal(WriteSupervisorRegs(c, x, d))
  {
    if x == Senvcfg {
      MaskedWithin(d, 1);
    } else if x == Sepc {
      MaskedWithin(d, 0xFFFF_FFFC);
    } else {
      MaskedWithin(d, SATP_MASK);
    }
  }

  /** The other supervisor-level registers are stored as written; none is constrained. */
  lemma SupervisorPlainKeepsLegal(c: CsrFile, x: SupervisorCsr, d: bv32)
    requires Legal(c) && (x == Stvec || x == Scounteren || x == Sscratch || x == Scause || x == Stval)
    ensures Legal(WriteSupervisorRegs(c, x, d))
  {
    var r := WriteSupervisorRegs(c, x, d);
    assert SameConstrained(c, r);
    SameConstrainedLegal(c, r);
  }

  /** `r` holds the same values as `c` in every register `Legal` constrains. */
  predicate SameConstrained(c: CsrFile, r: CsrFile)
  {
    r.s.sepc == c.s.sepc && r.s.satp == c.s.satp && r.s.senvcfg == c.s.senvcfg
    && r.m.mepc == c.m.mepc && r.m.menvcfg == c.m.menvcfg && r.m.medeleg == c.m.medeleg
    && r.m.mideleg == c.m.mideleg && r.m.mie == c.m.mie && r.m.mip == c.m.mip
  }

  lemma SameConstrainedLegal(c: CsrFile, r: CsrFile)
    requires Legal(c) && SameConstrained(c, r)
    ensures Legal(r)
  {
  }

  /** The machine trap-setup writes keep the registers legal. */
  lemma SetupWriteKeepsLegal(c: CsrFile, x: MachineSetupCsr, d: bv32)
    requires Legal(c)
    ensures WriteSetupRegs(c, x, d).Normal? ==> Legal(WriteSetupRegs(c, x, d).value)
  {
    if x == Medeleg || x == Mideleg || x == Mie || x == Menvcfg {
      SetupMaskedKeepsLegal(c, x, d);
    } else if x == Mcounteren || x == Mhpmevent {
      assert WriteSetupRegs(c, x, d) == Raise(ILLEGAL_INSTRUCTION);
    } else {
      SetupPlainKeepsLegal(c, x, d);
    }
  }

  /** medeleg, mideleg, mie and menvcfg keep only their legal bits. */
  lemma SetupMaskedKeepsLegal(c: CsrFile, x: MachineSetupCsr, d: bv32)
    requires Legal(c) && (x == Medeleg || x == Mideleg || x == Mie || x == Menvcfg)
    ensures WriteSetupRegs(c, x, d).Normal? && Legal(WriteSetupRegs(c, x, d).value)
  {
    if x == Medeleg {
      MaskedWithin(d, MEDELEG_MASK);
    } else if x == Menvcfg {
      MaskedWithin(d, 1);
    } else {
      MaskedWithin(d, INTERRUPT_MASK);
    }
  }

  /** The other trap-setup writes that succeed leave every constrained register alone. */
  lemma SetupPlainKeepsLegal(c: CsrFile, x: MachineSetupCsr, d: bv32)
    requires Legal(c)
    requires x == Mstatus || x == Misa || x == Mtvec || x == Mstatush || x == Menvcfgh || x == Mcountinhibit
    ensures WriteSetupRegs(c, x, d).Normal? && Legal(WriteSetupRegs(c, x, d).value)
  {
    var r := WriteSetupRegs(c, x, d).value;
    assert SameConstrained(c, r);
    SameConstrainedLegal(c, r);
  }

  /** The machine trap-handling writes keep the registers legal. */
  lemma HandlingWriteKeepsLegal(c: CsrFile, x: MachineHandlingCsr, d: bv32)
    requires Legal(c)
    ensures Legal(WriteHandlingRegs(c, x, d))
  {
    match x
    case Mscratch =>
    case Mepc => MaskedWithin(d, 0xFFFF_FFFC);
    case Mcause =>
    case Mtval =>
    case Mip => MipWithin(d);
  }

  lemma MipWithin(d: bv32)
    ensures Within(Masked(d, MIP_WRITE_MASK), INTERRUPT_MASK)
  {
    MipWithinBits(d);
  }

  lemma MipWithinBits(d: bv32)
    ensures (d & 0x222) & !0xAAA == 0
  {
  }

  /** The timer writes keep the registers legal: clearing mip.MTIP cannot add a bit. */
  lemma TimerWriteKeepsLegal(c: CsrFile, x: TimerCsr, d: bv32)
    requires Legal(c)
    ensures Legal(WriteTimerRegs(c, x, d))
  {
    if WriteTimerRegs(c, x, d).m != c.m {
      NarrowedWithin(c.m.mip, MTIP_CLEAR);
    }
  }

  /**
   * implicit_write keeps every register legal: from a legal state, a write that does not
   * throw leads to a legal state.
   */
  lemma WriteKeepsLegal(c: CsrFile, a: bv16, d: bv32)
    requires Wf(c) && Legal(c) && Write(c, a, d).Normal?
    ensures Legal(Write(c, a, d).value)
  {
    match NameOf(a).value
    case Supervisor(x) => SupervisorWriteKeepsLegal(c, x, d);
    case MachineSetup(x) => SetupWriteKeepsLegal(c, x, d);
    case MachineHandling(x) => HandlingWriteKeepsLegal(c, x, d);
    case Timer(x) => TimerWriteKeepsLegal(c, x, d);
    case _ =>
  }

  // The privilege checks of `explicit_read` and `explicit_write`.

  /** Machine mode passes every read check; a higher mode passes every check a lower one passes. */
  lemma PrivilegeMonotone(low: bv8, high: bv8, a: bv16)
    requires low <= high
    ensures CanRead(MACHINE_MODE, a)
    ensures CanRead(low, a) ==> CanRead(high, a)
    ensures CanWrite(low, a) ==> CanWrite(high, a)
  {
  }

  /** Addresses with bits 11:10 set are never writable; a writable address is readable. */
  lemma WriteCheckIsStricter(mode: bv8, a: bv16)
    ensures (a >> 10) & 3 == 3 ==> !CanWrite(mode, a)
    ensures CanWrite(mode, a) ==> CanRead(mode, a)
  {
  }

  /**
   * User mode reads neither sstatus nor mstatus but reads cycle; supervisor mode reads
   * sstatus but not mstatus; no mode writes cycle or mvendorid.
   */
  lemma PrivilegeExamples(mode: bv8)
    ensures !CanRead(USER_MODE, SSTATUS) && !CanRead(USER_MODE, MSTATUS) && CanRead(USER_MODE, CYCLE)
    ensures CanRead(SUPERVISOR_MODE, SSTATUS) && !CanRead(SUPERVISOR_MODE, MSTATUS)
    ensures !CanWrite(mode, CYCLE) && !CanWrite(mode, MVENDORID)
  {
  }

  /** A refused explicit access raises illegal-instruction; an allowed one is the implicit access. */
  lemma ExplicitAccessChecks(c: CsrFile, a: bv16, d: bv32)
    requires Wf(c)
    ensures ExplicitRead(c, a) == if CanRead(c.mode, a) then Read(c, a) else Raise(ILLEGAL_INSTRUCTION)
    ensures ExplicitWrite(c, a, d) == if CanWrite(c.mode, a) then Write(c, a, d) else Raise(ILLEGAL_INSTRUCTION)
  {
  }

  /** An address reads successfully exactly when it has a case label; without one, writes fail too. */
  lemma UnknownAddresses(c: CsrFile, a: bv16, d: bv32)
    requires Wf(c)
    ensures Read(c, a).Normal? <==> NameOf(a).Some?
    ensures NameOf(a).None? ==> Read(c, a) == Raise(ILLEGAL_INSTRUCTION) && Write(c, a, d) == Raise(ILLEGAL_INSTRUCTION)
  {
  }

  /** mtinst has no case label: both reading and writing it raise illegal-instruction. */
  lemma MtinstIsUnknown(c: CsrFile, d: bv32)
    requires Wf(c)
    ensures NameOf(MTINST).None?
    ensures Read(c, MTINST) == Raise(ILLEGAL_INSTRUCTION) && Write(c, MTINST, d) == Raise(ILLEGAL_INSTRUCTION)
  {
  }

  /** Whatever an explicit write can reach, an explicit read in the same mode can read. */
  lemma WrittenIsReadable(c: CsrFile, a: bv16, d: bv32)
    requires Wf(c) && ExplicitWrite(c, a, d).Normal?
    ensures ExplicitRead(c, a).Normal?
  {
    WriteCheckIsStricter(c.mode, a);
    assert NameOf(a).Some?;
  }
}
