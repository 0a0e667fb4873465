// IRVE: the emulator's tick loop (lib/emulator.cpp): the decoded-instruction cache, the
// dispatch to the opcode handlers, interrupt selection, trap entry, and the run loop.
//
// The pure part describes the emulator as an `Emu` value: the machine, the instruction cache
// and the two breakpoint flags. The class `Emulator` at the end holds the CPU state and the
// memory (with its CSR file) as objects and is proved to follow the pure description.

module IrveEmulator {
  import opened Common
  import opened IrveTrap
  import opened IrveWord
  import opened IrveDecode
  import opened IrveCsr
  import opened IrveCsrFacts
  import opened IrveMemory
  import opened IrveCpuState
  import opened IrveExecute

  /** The emulator's state: the machine, the icache keyed by pc, and the breakpoint flags. */
  datatype Emu = Emu(x: Machine, icache: map<Line, DecodedInst>, intercept: bool, hit: bool)

  // ---------------------------------------------------------------------------------------
  // The performance counter.

  /** A 64-bit counter plus one, carrying from the low half into the high half. */
  function Incremented(n: Counter): Counter
  {
    if n.low == 0xFFFF_FFFF then Counter(n.high + 1, 0) else n.(low := n.low + 1)
  }

  /** `increment_perf_counters`: minstret counts the instruction about to run. */
  function CountInstruction(c: CsrFile): (r: CsrFile)
    ensures r == c.(counters := c.counters.(minstret := r.counters.minstret))
    ensures r.counters.minstret.low == c.counters.minstret.low + 1
    ensures r.counters.minstret.high == c.counters.minstret.high + (if r.counters.minstret.low == 0 then 1 else 0)
  {
    c.(counters := c.counters.(minstret := Incremented(c.counters.minstret)))
  }

  /** `get_inst_count`: `implicit_read(MINSTRET)`, which is the low half only. */
  function InstCount(x: Machine): int
  {
    x.mem.csr.counters.minstret.low as int
  }

  /** The loop test of `run_until` fails: there is a target and the count has reached it. */
  predicate CountReached(x: Machine, target: nat)
  {
    target != 0 && InstCount(x) >= target
  }

  // ---------------------------------------------------------------------------------------
  // Fetch and decode, through the instruction cache.

  /** FENCE.I and the SYSTEM instructions (satp writes, SFENCE.VMA) may change what a pc holds. */
  predicate Cacheable(d: DecodedInst)
  {
    d.opcode != MISC_MEM && d.opcode != SYSTEM
  }

  /** An icache key: the pc an instruction was fetched from. */
  datatype Line = Line(pc: bv32)

  /** Every cached instruction came out of the decoder and is one that may be cached. */
  predicate CacheOk(icache: map<Line, DecodedInst>)
  {
    forall pc | pc in icache :: Decoded(icache[pc]) && Cacheable(icache[pc])
  }

  /** What `fetch_and_decode` returns, and the icache after it. */
  datatype Fetch = Fetch(inst: Outcome<DecodedInst>, icache: map<Line, DecodedInst>)

  /**
   * `fetch_and_decode`: a hit returns the cached instruction without reading memory. On a miss
   * the word at pc is fetched and decoded; MISC-MEM and SYSTEM instructions flush the cache and
   * are not inserted, every other instruction is inserted at pc.
   */
  function FetchAndDecodeSpec(x: Machine, icache: map<Line, DecodedInst>): (f: Fetch)
    requires Ready(x) && CacheOk(icache)
    ensures CacheOk(f.icache) && (f.inst.Normal? ==> Decoded(f.inst.value))
  {
    var pc := Line(x.pc);
    if pc in icache then Fetch(Normal(icache[pc]), icache)
    else match FetchSpec(x.mem, x.pc)
      case Throw(t) => Fetch(Throw(t), icache)
      case Normal(w) => Cached(pc, Decode(w), icache)
  }

  /** The end of a miss, once the word is decoded. */
  function Cached(pc: Line, decoded: Outcome<DecodedInst>, icache: map<Line, DecodedInst>): Fetch
  {
    match decoded
    case Throw(t) => Fetch(Throw(t), icache)
    case Normal(d) => Fetch(Normal(d), if Cacheable(d) then icache[pc := d] else map[])
  }

  /** The decoder yields the field widths the handlers rely on. */
  lemma DecodedFields(w: bv32)
    requires Decode(w).Normal?
    ensures Decoded(Decode(w).value)
  {
  }

  // ---------------------------------------------------------------------------------------
  // Interrupts (section 3.1.9 of the RISC-V Privileged Architecture, version 20211203).

  /** What `fast_implicit_read_interrupt_regs` yields: the registers interrupt selection reads. */
  datatype InterruptRegs = InterruptRegs(mstatus: bv32, mie: bv32, mip: bv32, mideleg: bv32, mode: bv8)

  function InterruptRegsOf(c: CsrFile): InterruptRegs
  {
    InterruptRegs(c.m.mstatus, c.m.mie, c.m.mip, c.m.mideleg, c.mode)
  }

  /** The global interrupt enable of the current mode: mstatus.MIE in M, mstatus.SIE in S. */
  predicate GlobalEnable(r: InterruptRegs)
  {
    (r.mode == MACHINE_MODE && Bit(r.mstatus, 3) == 1) || (r.mode == SUPERVISOR_MODE && Bit(r.mstatus, 1) == 1)
  }

  /**
   * `is_interrupting(bit)`: pending and enabled, and either aimed at a more privileged mode
   * than the current one or globally enabled there, and not an S-delegated interrupt in M mode.
   */
  predicate Interrupting(r: InterruptRegs, bit: bv32)
    requires bit < 32
  {
    var inM := r.mode == MACHINE_MODE;
    var inS := r.mode == SUPERVISOR_MODE;
    var delegated := Bit(r.mideleg, bit) == 1;
    var higher := !inM && (!inS || !delegated);
    Bit(r.mip, bit) == 1 && Bit(r.mie, bit) == 1 && (higher || GlobalEnable(r)) && !(inM && delegated)
  }

  /** The interrupt taken, in the order MEI, MSI, MTI, SEI, SSI, STI; `None` when none is. */
  function PendingInterrupt(r: InterruptRegs): (p: Option<bv32>)
    ensures p.None? <==> (!Interrupting(r, 11) && !Interrupting(r, 3) && !Interrupting(r, 7) &&
      !Interrupting(r, 9) && !Interrupting(r, 1) && !Interrupting(r, 5))
    ensures Interrupting(r, 11) ==> p == Some(MACHINE_EXTERNAL_INTERRUPT)
    ensures p.Some? ==> p.value in {MACHINE_EXTERNAL_INTERRUPT, MACHINE_SOFTWARE_INTERRUPT, MACHINE_TIMER_INTERRUPT,
      SUPERVISOR_EXTERNAL_INTERRUPT, SUPERVISOR_SOFTWARE_INTERRUPT, SUPERVISOR_TIMER_INTERRUPT}
  {
    if Interrupting(r, 11) then Some(MACHINE_EXTERNAL_INTERRUPT)
    else if Interrupting(r, 3) then Some(MACHINE_SOFTWARE_INTERRUPT)
    else if Interrupting(r, 7) then Some(MACHINE_TIMER_INTERRUPT)
    else if Interrupting(r, 9) then Some(SUPERVISOR_EXTERNAL_INTERRUPT)
    else if Interrupting(r, 1) then Some(SUPERVISOR_SOFTWARE_INTERRUPT)
    else if Interrupting(r, 5) then Some(SUPERVISOR_TIMER_INTERRUPT)
    else None
  }

  // ---------------------------------------------------------------------------------------
  // Trap entry (sections 3.1.6.1, 3.1.7 and 3.1.8 of the Privileged Architecture).

  /** Bit 31 of a cause marks an interrupt. */
  predicate IsInterrupt(cause: bv32)
  {
    cause & 0x8000_0000 != 0
  }

  /** The cause number without the interrupt bit. */
  function CauseCode(cause: bv32): bv32
  {
    cause & 0x7FFF_FFFF
  }

  /**
   * Where the trap is handled: an interrupt in M iff its mideleg bit is clear, an exception in
   * M iff it comes from M mode or its medeleg bit is clear.
   */
  predicate HandledInM(c: CsrFile, cause: bv32)
    requires CauseCode(cause) < 32
  {
    if IsInterrupt(cause) then Bit(c.m.mideleg, CauseCode(cause)) == 0
    else c.mode == MACHINE_MODE || Bit(c.m.medeleg, cause) == 0
  }

  /** mstatus on entry to M: MPP := the mode, MPIE := MIE, MIE := 0. */
  function MTrapStatus(mstatus: bv32, mode: bv8): bv32
  {
    (mstatus & 0xFFFF_E777) | ((mode as bv32) << 11) | (Bit(mstatus, 3) << 7)
  }

  /** sstatus on entry to S: SPP := (the mode is S), SPIE := SIE, SIE := 0. */
  function STrapStatus(sstatus: bv32, mode: bv8): bv32
  {
    (sstatus & 0xFFFF_FEDD) | ((if mode == SUPERVISOR_MODE then 1 else 0) << 8) | (Bit(sstatus, 1) << 5)
  }

  /** The handler address: the vector base, plus 4 * cause for an interrupt in vectored mode. */
  function TrapVector(tvec: bv32, cause: bv32): bv32
  {
    var base := tvec & 0xFFFF_FFFC;
    if tvec & 3 == 1 && IsInterrupt(cause) then base + CauseCode(cause) * 4 else base
  }

  /**
   * The CSR file after entry to M: the status stack pushed, mode M, mcause and mepc (whose low
   * bits a write clears) set. The write to mtval is ignored by the CSR file, so mtval stays 0.
   */
  function MTrapEntered(c: CsrFile, pc: bv32, cause: bv32): CsrFile
  {
    c.(mode := MACHINE_MODE,
       m := c.m.(mstatus := MTrapStatus(c.m.mstatus, c.mode), mcause := cause, mepc := Masked(pc, 0xFFFF_FFFC)))
  }

  /** The CSR file after entry to S: the sstatus bits of mstatus pushed, mode S, scause/sepc/stval set. */
  function STrapEntered(c: CsrFile, pc: bv32, cause: bv32, tval: bv32): CsrFile
  {
    var sstatus := STrapStatus(Masked(c.m.mstatus, SSTATUS_MASK), c.mode);
    c.(mode := SUPERVISOR_MODE,
       m := c.m.(mstatus := Merge(c.m.mstatus, sstatus, SSTATUS_MASK)),
       s := c.s.(scause := cause, sepc := Masked(pc, 0xFFFF_FFFC), stval := tval))
  }

  /** The CSR file after trap entry, in the mode the delegation registers choose. */
  function TrapEnteredCsr(c: CsrFile, pc: bv32, cause: bv32, tval: bv32): CsrFile
    requires CauseCode(cause) < 32
  {
    if HandledInM(c, cause) then MTrapEntered(c, pc, cause) else STrapEntered(c, pc, cause, tval)
  }

  /** The handler address: through mtvec when the trap is handled in M, stvec otherwise. */
  function TrapHandler(c: CsrFile, cause: bv32): bv32
    requires CauseCode(cause) < 32
  {
    if HandledInM(c, cause) then TrapVector(c.m.mtvec, cause) else TrapVector(c.s.stvec, cause)
  }

  /** The machine after trap entry: the CSR side, and the pc at the handler. */
  function TrapEntered(x: Machine, cause: bv32, tval: bv32): (y: Machine)
    requires CauseCode(cause) < 32
    ensures y.regs == x.regs && y.reservation == x.reservation
    ensures y.mem == x.mem.(csr := y.mem.csr)
    ensures y.pc == TrapHandler(x.mem.csr, cause)
    ensures y.mem.csr.mode == if HandledInM(x.mem.csr, cause) then MACHINE_MODE else SUPERVISOR_MODE
  {
    WithCsr(x, TrapEnteredCsr(x.mem.csr, x.pc, cause, tval)).(pc := TrapHandler(x.mem.csr, cause))
  }

  /**
   * `handle_trap`: the icache is flushed first. A breakpoint outside U mode is intercepted
   * (for a debugger) when interception is on: the flag is set and nothing else changes.
   */
  function HandleTrapSpec(e: Emu, cause: bv32, tval: bv32): (r: Emu)
    requires CauseCode(cause) < 32
    ensures Ready(e.x) ==> Ready(r.x)
  {
    var flushed := e.(icache := map[]);
    if cause == BREAKPOINT && e.intercept && e.x.mem.csr.mode != USER_MODE then flushed.(hit := true)
    else flushed.(x := TrapEntered(e.x, cause, tval))
  }

  /** `check_and_handle_interrupts`: the chosen interrupt is trapped with tval 0. */
  function InterruptSpec(e: Emu): (r: Emu)
    ensures Ready(e.x) ==> Ready(r.x)
    ensures CacheOk(e.icache) ==> CacheOk(r.icache)
  {
    match PendingInterrupt(InterruptRegsOf(e.x.mem.csr))
    case None => e
    case Some(cause) => HandleTrapSpec(e, cause, 0)
  }

  // ---------------------------------------------------------------------------------------
  // The tick and the run loop.

  /** What a tick returns: `false` on an exit request; a failed assertion propagates. */
  datatype Ticked = Ticked(after: Emu, result: Outcome<bool>)

  /** The state after fetching and executing one instruction, and whether either threw. */
  datatype Stepped = Stepped(after: Emu, result: Outcome<()>)

  /**
   * `tick`: count the instruction, fetch and decode, execute; a RISC-V exception is trapped and
   * the tick still returns true; an exit request returns false at once. Interrupts are checked
   * at the end of every tick that returns true.
   */
  function TickSpec(e: Emu): (t: Ticked)
    requires Ready(e.x) && CacheOk(e.icache)
    ensures Ready(t.after.x) && CacheOk(t.after.icache)
  {
    var s := StepSpec(e.(x := WithCsr(e.x, CountInstruction(e.x.mem.csr))));
    Caught(s.after, s.result)
  }

  /** The body of the `try` in `tick`: fetch and decode through the icache, then execute. */
  function StepSpec(e: Emu): (s: Stepped)
    requires Ready(e.x) && CacheOk(e.icache)
    ensures Ready(s.after.x) && CacheOk(s.after.icache)
  {
    var f := FetchAndDecodeSpec(e.x, e.icache);
    match f.inst
    case Throw(t) => Stepped(e.(icache := f.icache), Throw(t))
    case Normal(d) =>
      var ex := ExecuteSpec(e.x, d);
      Stepped(e.(x := ex.after, icache := f.icache), ex.result)
  }

  /** The end of a tick, once the instruction has completed or thrown. */
  function Caught(e: Emu, result: Outcome<()>): (t: Ticked)
    ensures Ready(e.x) && CacheOk(e.icache) ==> Ready(t.after.x) && CacheOk(t.after.icache)
  {
    match result
    case Normal(_) => Ticked(InterruptSpec(e), Normal(true))
    case Throw(RvException(cause, tval)) =>
      if cause >= 32 then Ticked(e, Throw(AssertionFailure))
      else Ticked(InterruptSpec(HandleTrapSpec(e, cause, tval)), Normal(true))
    case Throw(ExitRequest) => Ticked(e, Normal(false))
    case Throw(AssertionFailure) => Ticked(e, Throw(AssertionFailure))
  }

  // ---------------------------------------------------------------------------------------
  // The CSR accesses `handle_trap` makes with `implicit_read`/`implicit_write`.

  lemma DelegationAccess(c: CsrFile)
    requires Wf(c)
    ensures Read(c, MIDELEG) == Normal(c.m.mideleg) && Read(c, MEDELEG) == Normal(c.m.medeleg)
    ensures Read(c, MTVEC) == Normal(c.m.mtvec)
  {
    MachineSetupNames();
  }

  lemma MachineHandlerInfoAccess(c: CsrFile, d: bv32)
    requires Wf(c)
    ensures Write(c, MCAUSE, d) == Normal(c.(m := c.m.(mcause := d)))
    ensures Write(c, MEPC, d) == Normal(c.(m := c.m.(mepc := Masked(d, 0xFFFF_FFFC))))
    ensures Write(c, MTVAL, d) == Normal(c)
  {
    MachineHandlingNames();
  }

  lemma SupervisorHandlerInfoAccess(c: CsrFile, d: bv32)
    requires Wf(c)
    ensures Write(c, SCAUSE, d) == Normal(c.(s := c.s.(scause := d)))
    ensures Write(c, SEPC, d) == Normal(c.(s := c.s.(sepc := Masked(d, 0xFFFF_FFFC))))
    ensures Write(c, STVAL, d) == Normal(c.(s := c.s.(stval := d)))
    ensures Read(c, STVEC) == Normal(c.s.stvec)
  {
    SupervisorNames();
    SupervisorTrapNames();
  }

  // ---------------------------------------------------------------------------------------
  // Trap entry on the objects.

  /** The M-mode path of `handle_trap` on the CSR file; yields the handler address. */
  method EnterMachineCsr(csr: Csr, pc: bv32, cause: bv32, tval: bv32) returns (handler: bv32)
    requires csr.Valid()
    modifies csr, csr.pmpcfg, csr.pmpaddr
    ensures csr.Valid() && csr.Snapshot() == MTrapEntered(old(csr.Snapshot()), pc, cause)
    ensures handler == TrapVector(old(csr.Snapshot()).m.mtvec, cause)
  {
    PushMachineStatus(csr);
    RecordMachineTrap(csr, pc, cause, tval);
    DelegationAccess(csr.Snapshot());
    var mtvec := csr.ImplicitRead(MTVEC).value;
    handler := TrapVector(mtvec, cause);
  }

  /** mstatus.MPP/MPIE/MIE pushed, then the mode set to M. */
  method PushMachineStatus(csr: Csr)
    requires csr.Valid()
    modifies csr, csr.pmpcfg, csr.pmpaddr
    ensures csr.Valid()
    ensures csr.Snapshot() == old(csr.Snapshot()).(mode := MACHINE_MODE,
      m := old(csr.Snapshot()).m.(mstatus := MTrapStatus(old(csr.Snapshot()).m.mstatus, old(csr.Snapshot()).mode)))
  {
    MstatusAccess(csr.Snapshot(), 0);
    var mstatus := csr.ImplicitRead(MSTATUS).value;
    mstatus := MTrapStatus(mstatus, csr.GetPrivilegeMode());
    MstatusAccess(csr.Snapshot(), mstatus);
    var _ := csr.ImplicitWrite(MSTATUS, mstatus);
    csr.SetPrivilegeMode(MACHINE_MODE);
  }

  /** The writes of mcause, mepc and mtval (the last ignored by the CSR file). */
  method RecordMachineTrap(csr: Csr, pc: bv32, cause: bv32, tval: bv32)
    requires csr.Valid()
    modifies csr, csr.pmpcfg, csr.pmpaddr
    ensures csr.Valid()
    ensures csr.Snapshot() == old(csr.Snapshot()).(m := old(csr.Snapshot()).m.(mcause := cause, mepc := Masked(pc, 0xFFFF_FFFC)))
  {
    MachineHandlerInfoAccess(csr.Snapshot(), cause);
    var _ := csr.ImplicitWrite(MCAUSE, cause);
    MachineHandlerInfoAccess(csr.Snapshot(), pc);
    var _ := csr.ImplicitWrite(MEPC, pc);
    MachineHandlerInfoAccess(csr.Snapshot(), tval);
    var _ := csr.ImplicitWrite(MTVAL, tval);
  }

  /** The S-mode path of `handle_trap` on the CSR file; yields the handler address. */
  method EnterSupervisorCsr(csr: Csr, pc: bv32, cause: bv32, tval: bv32) returns (handler: bv32)
    requires csr.Valid()
    modifies csr, csr.pmpcfg, csr.pmpaddr
    ensures csr.Valid() && csr.Snapshot() == STrapEntered(old(csr.Snapshot()), pc, cause, tval)
    ensures handler == TrapVector(old(csr.Snapshot()).s.stvec, cause)
  {
    PushSupervisorStatus(csr);
    RecordSupervisorTrap(csr, pc, cause, tval);
    SupervisorHandlerInfoAccess(csr.Snapshot(), 0);
    var stvec := csr.ImplicitRead(STVEC).value;
    handler := TrapVector(stvec, cause);
  }

  /** sstatus.SPP/SPIE/SIE pushed (within mstatus), then the mode set to S. */
  method PushSupervisorStatus(csr: Csr)
    requires csr.Valid()
    modifies csr, csr.pmpcfg, csr.pmpaddr
    ensures csr.Valid()
    ensures csr.Snapshot() == old(csr.Snapshot()).(mode := SUPERVISOR_MODE,
      m := old(csr.Snapshot()).m.(mstatus := Merge(old(csr.Snapshot()).m.mstatus,
        STrapStatus(Masked(old(csr.Snapshot()).m.mstatus, SSTATUS_MASK), old(csr.Snapshot()).mode), SSTATUS_MASK)))
  {
    SstatusAccess(csr.Snapshot(), 0);
    var sstatus := csr.ImplicitRead(SSTATUS).value;
    sstatus := STrapStatus(sstatus, csr.GetPrivilegeMode());
    SstatusAccess(csr.Snapshot(), sstatus);
    var _ := csr.ImplicitWrite(SSTATUS, sstatus);
    csr.SetPrivilegeMode(SUPERVISOR_MODE);
  }

  /** The writes of scause, sepc and stval. */
  method RecordSupervisorTrap(csr: Csr, pc: bv32, cause: bv32, tval: bv32)
    requires csr.Valid()
    modifies csr, csr.pmpcfg, csr.pmpaddr
    ensures csr.Valid()
    ensures csr.Snapshot() == old(csr.Snapshot()).(s := old(csr.Snapshot()).s.(scause := cause, sepc := Masked(pc, 0xFFFF_FFFC), stval := tval))
  {
    SupervisorHandlerInfoAccess(csr.Snapshot(), cause);
    var _ := csr.ImplicitWrite(SCAUSE, cause);
    SupervisorHandlerInfoAccess(csr.Snapshot(), pc);
    var _ := csr.ImplicitWrite(SEPC, pc);
    SupervisorHandlerInfoAccess(csr.Snapshot(), tval);
    var _ := csr.ImplicitWrite(STVAL, tval);
  }

  /** The delegation decision of `handle_trap`, read through `implicit_read`. */
  method HandleInMachineMode(csr: Csr, cause: bv32) returns (inM: bool)
    requires csr.Valid() && CauseCode(cause) < 32
    ensures inM == HandledInM(csr.Snapshot(), cause)
  {
    DelegationAccess(csr.Snapshot());
    if cause & 0x8000_0000 != 0 {
      inM := Bit(csr.ImplicitRead(MIDELEG).value, cause & 0x7FFF_FFFF) == 0;
    } else {
      var fromM := csr.GetPrivilegeMode() == MACHINE_MODE;
      inM := fromM || Bit(csr.ImplicitRead(MEDELEG).value, cause) == 0;
    }
  }

  /** The CSR side of trap entry; yields the handler address. */
  method EnterTrapCsr(csr: Csr, pc: bv32, cause: bv32, tval: bv32) returns (handler: bv32)
    requires csr.Valid() && CauseCode(cause) < 32
    modifies csr, csr.pmpcfg, csr.pmpaddr
    ensures csr.Valid() && csr.Snapshot() == TrapEnteredCsr(old(csr.Snapshot()), pc, cause, tval)
    ensures handler == TrapHandler(old(csr.Snapshot()), cause)
  {
    var inM := HandleInMachineMode(csr, cause);
    if inM {
      handler := EnterMachineCsr(csr, pc, cause, tval);
    } else {
      handler := EnterSupervisorCsr(csr, pc, cause, tval);
    }
  }

  /** Trap entry on the objects: the CSR side, then pc := the handler. */
  method EnterTrap(cpu: CpuState, mem: Memory, cause: bv32, tval: bv32)
    requires Wired(cpu, mem) && CauseCode(cause) < 32
    modifies cpu, mem.csr, mem.csr.pmpcfg, mem.csr.pmpaddr
    ensures Wired(cpu, mem)
    ensures MachineOf(cpu, mem) == TrapEntered(old(MachineOf(cpu, mem)), cause, tval)
  {
    var handler := EnterTrapCsr(mem.csr, cpu.GetPc(), cause, tval);
    cpu.SetPc(handler);
  }

  lemma CounterAccess(c: CsrFile, d: bv32)
    requires Wf(c)
    ensures Read(c, MINSTRET) == Normal(c.counters.minstret.low) && Read(c, MINSTRETH) == Normal(c.counters.minstret.high)
    ensures Write(c, MINSTRET, d) == Normal(c.(counters := c.counters.(minstret := c.counters.minstret.(low := d))))
    ensures Write(c, MINSTRETH, d) == Normal(c.(counters := c.counters.(minstret := c.counters.minstret.(high := d))))
  {
    MachineCounterNames();
  }

  lemma InterruptRegsAccess(c: CsrFile)
    requires Wf(c)
    ensures Read(c, MSTATUS) == Normal(c.m.mstatus) && Read(c, MIE) == Normal(c.m.mie)
    ensures Read(c, MIP) == Normal(c.m.mip) && Read(c, MIDELEG) == Normal(c.m.mideleg)
  {
    MachineSetupNames();
    MachineHandlingNames();
  }

  /** `increment_perf_counters`, through minstret and minstreth. */
  method IncrementPerfCounters(csr: Csr)
    requires csr.Valid()
    modifies csr, csr.pmpcfg, csr.pmpaddr
    ensures csr.Valid() && csr.Snapshot() == CountInstruction(old(csr.Snapshot()))
  {
    CounterAccess(csr.Snapshot(), 0);
    var low := csr.ImplicitRead(MINSTRET).value;
    if low == 0xFFFF_FFFF {
      var high := csr.ImplicitRead(MINSTRETH).value;
      CounterAccess(csr.Snapshot(), high + 1);
      var _ := csr.ImplicitWrite(MINSTRETH, high + 1);
      CounterAccess(csr.Snapshot(), 0);
      var _ := csr.ImplicitWrite(MINSTRET, 0);
    } else {
      CounterAccess(csr.Snapshot(), low + 1);
      var _ := csr.ImplicitWrite(MINSTRET, low + 1);
    }
  }

  /** `fast_implicit_read_interrupt_regs`. */
  method ReadInterruptRegs(csr: Csr) returns (regs: InterruptRegs)
    requires csr.Valid()
    ensures regs == InterruptRegsOf(csr.Snapshot())
  {
    InterruptRegsAccess(csr.Snapshot());
    var mstatus := csr.ImplicitRead(MSTATUS).value;
    var mie := csr.ImplicitRead(MIE).value;
    var mip := csr.ImplicitRead(MIP).value;
    var mideleg := csr.ImplicitRead(MIDELEG).value;
    regs := InterruptRegs(mstatus, mie, mip, mideleg, csr.GetPrivilegeMode());
  }

  /** The dispatch of `execute` for the opcodes that reach memory. */
  method ExecuteMemory(d: DecodedInst, cpu: CpuState, mem: Memory) returns (r: Outcome<()>)
    requires Wired(cpu, mem) && Decoded(d)
    requires d.opcode == LOAD || d.opcode == CUSTOM_0 || d.opcode == MISC_MEM || d.opcode == STORE || d.opcode == AMO
    modifies cpu, cpu.regs, mem, mem.csr, mem.userRam, mem.kernelRam
    ensures Wired(cpu, mem)
    ensures Executed(MachineOf(cpu, mem), r) == ExecuteSpec(old(MachineOf(cpu, mem)), d)
  {
    if d.opcode == LOAD {
      r := Load(d, cpu, mem);
    } else if d.opcode == CUSTOM_0 {
      r := Custom0(d, cpu, mem);
    } else if d.opcode == MISC_MEM {
      r := MiscMem(d, cpu, mem);
    } else if d.opcode == STORE {
      r := Store(d, cpu, mem);
    } else {
      r := Amo(d, cpu, mem);
    }
  }

  /** The dispatch of `execute` for the opcodes that only compute, jump or reach the CSRs. */
  method ExecuteRegisters(d: DecodedInst, cpu: CpuState, mem: Memory) returns (r: Outcome<()>)
    requires Wired(cpu, mem) && Decoded(d)
    requires d.opcode != LOAD && d.opcode != CUSTOM_0 && d.opcode != MISC_MEM && d.opcode != STORE && d.opcode != AMO
    modifies cpu, cpu.regs, mem.csr, mem.csr.pmpcfg, mem.csr.pmpaddr
    ensures Wired(cpu, mem)
    ensures Executed(MachineOf(cpu, mem), r) == ExecuteSpec(old(MachineOf(cpu, mem)), d)
  {
    if d.opcode == OP_IMM {
      r := OpImm(d, cpu, mem);
    } else if d.opcode == AUIPC {
      r := Auipc(d, cpu, mem);
    } else if d.opcode == OP {
      r := Op(d, cpu, mem);
    } else if d.opcode == LUI {
      r := Lui(d, cpu, mem);
    } else if d.opcode == BRANCH {
      r := Branch(d, cpu, mem);
    } else if d.opcode == JALR {
      r := Jalr(d, cpu, mem);
    } else if d.opcode == JAL {
      r := Jal(d, cpu, mem);
    } else if d.opcode == SYSTEM {
      r := System(d, cpu, mem);
    } else {
      r := Throw(AssertionFailure);
    }
  }

  lemma CacheOkInsert(icache: map<Line, DecodedInst>, pc: Line, d: DecodedInst)
    requires CacheOk(icache) && Decoded(d) && Cacheable(d)
    ensures CacheOk(icache[pc := d])
  {
    var c := icache[pc := d];
    forall p | p in c
      ensures Decoded(c[p]) && Cacheable(c[p])
    {
      if p == pc {
        assert c[p] == d;
      } else {
        assert p in icache && c[p] == icache[p];
      }
    }
  }

  /**
   * The work of `fetch_and_decode` on the CPU state and the memory: a hit, or a fetch and a
   * decode whose instruction is cached, or flushes the cache for MISC-MEM and SYSTEM.
   */
  method FetchThroughCache(cpu: CpuState, mem: Memory, icache: map<Line, DecodedInst>) returns (f: Fetch)
    requires Wired(cpu, mem) && CacheOk(icache)
    ensures f == FetchAndDecodeSpec(MachineOf(cpu, mem), icache)
    ensures CacheOk(f.icache) && (f.inst.Normal? ==> Decoded(f.inst.value))
  {
    var at := cpu.GetPc();
    var pc := Line(at);
    if pc in icache {
      return Fetch(Normal(icache[pc]), icache);
    }
    var inst := mem.Instruction(at);
    if inst.Throw? {
      return Fetch(Throw(inst.thrown), icache);
    }
    var decoded := Decode(inst.value);
    if decoded.Throw? {
      return Fetch(decoded, icache);
    }
    DecodedFields(inst.value);
    var d := decoded.value;
    if d.opcode == MISC_MEM {
      f := Fetch(decoded, map[]);
    } else if d.opcode == SYSTEM {
      f := Fetch(decoded, map[]);
    } else {
      CacheOkInsert(icache, pc, d);
      f := Fetch(decoded, icache[pc := d]);
    }
  }

  // ---------------------------------------------------------------------------------------
  // The emulator object.

  /** How `run_until` ended: the count was reached, the guest asked to exit, or the ticks ran out. */
  datatype Stop = Reached | Exited | OutOfTicks

  /** How a run may end: at the count only once it is reached, out of ticks only below it. */
  predicate StoppedRight(r: (Outcome<Stop>, Emu), target: nat)
  {
    (r.0 == Normal(Reached) ==> CountReached(r.1.x, target)) &&
    (r.0 == Normal(OutOfTicks) ==> !CountReached(r.1.x, target))
  }

  /**
   * `run_until`: while the instruction count is below `target` (or for ever, when it is 0) and
   * the tick returns true, tick again. The source's loop is unbounded; here at most
   * `ticksLeft` ticks run. The result is how the run stopped and the emulator at the end.
   */
  function RunSpec(e: Emu, target: nat, ticksLeft: nat): (r: (Outcome<Stop>, Emu))
    requires Ready(e.x) && CacheOk(e.icache)
    ensures StoppedRight(r, target)
    decreases ticksLeft, 1
  {
    if CountReached(e.x, target) then (Normal(Reached), e) else Budgeted(e, target, ticksLeft)
  }

  /** Below the target: the run stops when no ticks are left, and ticks otherwise. */
  function Budgeted(e: Emu, target: nat, ticksLeft: nat): (r: (Outcome<Stop>, Emu))
    requires Ready(e.x) && CacheOk(e.icache) && !CountReached(e.x, target)
    ensures StoppedRight(r, target)
    decreases ticksLeft, 0
  {
    if ticksLeft == 0 then (Normal(OutOfTicks), e) else RunTick(e, target, ticksLeft - 1)
  }

  /** One tick of the run, with `ticksLeft` ticks left after it. */
  function RunTick(e: Emu, target: nat, ticksLeft: nat): (r: (Outcome<Stop>, Emu))
    requires Ready(e.x) && CacheOk(e.icache)
    ensures StoppedRight(r, target)
    decreases ticksLeft, 3
  {
    RunOn(TickSpec(e), target, ticksLeft)
  }

  /** The run after a tick: it stops on an exit request or a failed assertion, else goes on. */
  function RunOn(t: Ticked, target: nat, ticksLeft: nat): (r: (Outcome<Stop>, Emu))
    requires Ready(t.after.x) && CacheOk(t.after.icache)
    ensures StoppedRight(r, target)
    decreases ticksLeft, 2
  {
    match t.result
    case Throw(thrown) => (Throw(thrown), t.after)
    case Normal(running) => if running then RunSpec(t.after, target, ticksLeft) else (Normal(Exited), t.after)
  }

  /** A run below the target with ticks left is one tick, then the rest of the run. */
  lemma RunGoesOn(e: Emu, target: nat, ticksLeft: nat, t: Ticked)
    requires Ready(e.x) && CacheOk(e.icache) && t == TickSpec(e)
    requires !CountReached(e.x, target) && ticksLeft > 0
    ensures t.result.Throw? ==> RunSpec(e, target, ticksLeft) == (Throw(t.result.thrown), t.after)
    ensures t.result == Normal(false) ==> RunSpec(e, target, ticksLeft) == (Normal(Exited), t.after)
    ensures t.result == Normal(true) ==> RunSpec(e, target, ticksLeft) == RunSpec(t.after, target, ticksLeft - 1)
  {
    assert RunSpec(e, target, ticksLeft) == Budgeted(e, target, ticksLeft);
    assert Budgeted(e, target, ticksLeft) == RunTick(e, target, ticksLeft - 1);
  }

  class Emulator {
    const cpu: CpuState
    const memory: Memory
    var icache: map<Line, DecodedInst>
    var interceptBreakpoints: bool
    var encounteredBreakpoint: bool

    ghost predicate Valid()
      reads this, cpu, memory, memory.csr
    {
      Wired(cpu, memory) && CacheOk(icache)
    }

    /** The emulator as a value. */
    ghost function State(): (e: Emu)
      requires Valid()
      reads this, cpu, cpu.regs, memory, memory.csr, memory.csr.pmpcfg, memory.csr.pmpaddr, memory.userRam, memory.kernelRam
      ensures Ready(e.x) && CacheOk(e.icache)
    {
      Emu(MachineOf(cpu, memory), icache, interceptBreakpoints, encounteredBreakpoint)
    }

    /**
     * The constructor: an empty icache and no interception. The source leaves the breakpoint
     * flag uninitialised, so its first value is a parameter.
     */
    constructor (cpu: CpuState, memory: Memory, encountered: bool)
      requires Wired(cpu, memory)
      ensures Valid() && this.cpu == cpu && this.memory == memory
      ensures State() == Emu(MachineOf(cpu, memory), map[], false, encountered)
    {
      this.cpu := cpu;
      this.memory := memory;
      icache := map[];
      interceptBreakpoints := false;
      encounteredBreakpoint := encountered;
    }

    /** `get_inst_count`. */
    method GetInstCount() returns (n: bv32)
      requires Valid()
      ensures n as int == InstCount(State().x)
    {
      CounterAccess(memory.csr.Snapshot(), 0);
      n := memory.csr.ImplicitRead(MINSTRET).value;
    }

    /** `test_and_clear_breakpoint_encountered_flag`. */
    method TestAndClearBreakpoint() returns (hit: bool)
      requires Valid()
      modifies this
      ensures Valid() && hit == old(encounteredBreakpoint)
      ensures State() == old(State()).(hit := false)
    {
      hit := encounteredBreakpoint;
      encounteredBreakpoint := false;
    }

    /** `run_gdbserver`, up to the start of the server: breakpoints are intercepted. */
    method InterceptBreakpoints()
      requires Valid()
      modifies this
      ensures Valid() && State() == old(State()).(intercept := true, hit := false)
    {
      interceptBreakpoints := true;
      encounteredBreakpoint := false;
    }

    method FlushIcache()
      requires Valid()
      modifies this
      ensures Valid() && State() == old(State()).(icache := map[])
    {
      icache := map[];
    }

    /** `fetch_and_decode`. */
    method FetchAndDecode() returns (r: Outcome<DecodedInst>)
      requires Valid()
      modifies this
      ensures Valid() && (r.Normal? ==> Decoded(r.value))
      ensures Fetch(r, icache) == FetchAndDecodeSpec(old(State()).x, old(icache))
      ensures State() == old(State()).(icache := icache)
    {
      var f := FetchThroughCache(cpu, memory, icache);
      r := f.inst;
      icache := f.icache;
    }

    /** `execute`: the handler of the instruction's opcode. */
    method Execute(d: DecodedInst) returns (r: Outcome<()>)
      requires Valid() && Decoded(d)
      modifies cpu, cpu.regs, memory, memory.csr, memory.csr.pmpcfg, memory.csr.pmpaddr, memory.userRam, memory.kernelRam
      ensures Valid()
      ensures Executed(State().x, r) == ExecuteSpec(old(State()).x, d)
      ensures State() == old(State()).(x := State().x)
    {
      if d.opcode == LOAD || d.opcode == CUSTOM_0 || d.opcode == MISC_MEM || d.opcode == STORE || d.opcode == AMO {
        r := ExecuteMemory(d, cpu, memory);
      } else {
        r := ExecuteRegisters(d, cpu, memory);
      }
    }

    /** `handle_trap`, without the semihosting check. */
    method HandleTrap(cause: bv32, tval: bv32)
      requires Valid() && CauseCode(cause) < 32
      modifies this, cpu, memory.csr, memory.csr.pmpcfg, memory.csr.pmpaddr
      ensures Valid() && State() == HandleTrapSpec(old(State()), cause, tval)
    {
      FlushIcache();
      if cause == BREAKPOINT {
        var intercept := interceptBreakpoints && memory.csr.GetPrivilegeMode() != USER_MODE;
        if intercept {
          encounteredBreakpoint := true;
          return;
        }
      }
      EnterTrap(cpu, memory, cause, tval);
    }

    /** `check_and_handle_interrupts`. */
    method CheckAndHandleInterrupts()
      requires Valid()
      modifies this, cpu, memory.csr, memory.csr.pmpcfg, memory.csr.pmpaddr
      ensures Valid() && State() == InterruptSpec(old(State()))
    {
      var regs := ReadInterruptRegs(memory.csr);
      var cause := PendingInterrupt(regs);
      if cause.Some? {
        HandleTrap(cause.value, 0);
      }
    }

    /** The end of `tick`: the catch clauses, then the interrupt check. */
    method Catch(result: Outcome<()>) returns (r: Outcome<bool>)
      requires Valid()
      modifies this, cpu, memory.csr, memory.csr.pmpcfg, memory.csr.pmpaddr
      ensures Valid() && Ticked(State(), r) == Caught(old(State()), result)
    {
      match result
      case Normal(_) =>
        CheckAndHandleInterrupts();
        r := Normal(true);
      case Throw(RvException(cause, tval)) =>
        if cause >= 32 {
          r := Throw(AssertionFailure);
        } else {
          HandleTrap(cause, tval);
          CheckAndHandleInterrupts();
          r := Normal(true);
        }
      case Throw(ExitRequest) =>
        r := Normal(false);
      case Throw(AssertionFailure) =>
        r := Throw(AssertionFailure);
    }

    /** `tick`. */
    method Tick() returns (r: Outcome<bool>)
      requires Valid()
      modifies this, cpu, cpu.regs, memory, memory.csr, memory.csr.pmpcfg, memory.csr.pmpaddr, memory.userRam, memory.kernelRam
      ensures Valid() && Ticked(State(), r) == TickSpec(old(State()))
    {
      CountInstructionOnce();
      var result := Step();
      r := Catch(result);
    }

    /** The tick's `increment_perf_counters`, seen on the whole emulator. */
    method CountInstructionOnce()
      requires Valid()
      modifies memory.csr, memory.csr.pmpcfg, memory.csr.pmpaddr
      ensures Valid() && State() == old(State()).(x := WithCsr(old(State()).x, CountInstruction(old(State()).x.mem.csr)))
    {
      IncrementPerfCounters(memory.csr);
    }

    /** The `try` block of `tick`. */
    method Step() returns (result: Outcome<()>)
      requires Valid()
      modifies this, cpu, cpu.regs, memory, memory.csr, memory.csr.pmpcfg, memory.csr.pmpaddr, memory.userRam, memory.kernelRam
      ensures Valid() && Stepped(State(), result) == StepSpec(old(State()))
    {
      var inst := FetchAndDecode();
      if inst.Throw? {
        result := Throw(inst.thrown);
      } else {
        result := Execute(inst.value);
      }
    }

    /**
     * `run_until`, with at most `maxTicks` ticks: the loop test, then a tick, until one of
     * them ends the run.
     */
    method RunUntil(target: nat, maxTicks: nat) returns (stop: Outcome<Stop>)
      requires Valid()
      modifies this, cpu, cpu.regs, memory, memory.csr, memory.csr.pmpcfg, memory.csr.pmpaddr, memory.userRam, memory.kernelRam
      ensures Valid() && (stop, State()) == RunSpec(old(State()), target, maxTicks)
    {
      ghost var run := RunSpec(State(), target, maxTicks);
      var ticksLeft := maxTicks;
      while true
        invariant Valid() && RunSpec(State(), target, ticksLeft) == run
        decreases ticksLeft
      {
        var ended := TickUnlessDone(target, ticksLeft);
        if ended.Some? {
          return ended.value;
        }
        ticksLeft := ticksLeft - 1;
      }
    }

    /**
     * One turn of the loop in `run_until`: the loop test, then a tick. When the run goes on,
     * the rest of it is one tick shorter.
     */
    method TickUnlessDone(target: nat, ticksLeft: nat) returns (ended: Option<Outcome<Stop>>)
      requires Valid()
      modifies this, cpu, cpu.regs, memory, memory.csr, memory.csr.pmpcfg, memory.csr.pmpaddr, memory.userRam, memory.kernelRam
      ensures Valid()
      ensures ended.Some? ==> (ended.value, State()) == RunSpec(old(State()), target, ticksLeft)
      ensures ended.None? ==> ticksLeft > 0 && RunSpec(State(), target, ticksLeft - 1) == RunSpec(old(State()), target, ticksLeft)
    {
      var count := GetInstCount();
      if target != 0 && count as int >= target {
        return Some(Normal(Reached));
      }
      if ticksLeft == 0 {
        return Some(Normal(OutOfTicks));
      }
      ghost var before := State();
      var running := Tick();
      RunGoesOn(before, target, ticksLeft, Ticked(State(), running));
      if running.Throw? {
        ended := Some(Throw(running.thrown));
      } else if !running.value {
        ended := Some(Normal(Exited));
      } else {
        ended := None;
      }
    }
  }
}
