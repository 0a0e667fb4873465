// IRVE: properties of the emulator's tick (lib/emulator.cpp): interrupt priority and masking,
// trap entry and its undoing by MRET/SRET, the instruction counter, and the instruction cache.

module IrveEmulatorFacts {
  import opened Common
  import opened IrveTrap
  import opened IrveWord
  import opened IrveDecode
  import opened IrveCsr
  import opened IrveMemory
  import opened IrveExecute
  import opened IrveEmulator

  // ---------------------------------------------------------------------------------------
  // Interrupt selection.

  /** The interrupt bits in the order they are taken: MEI, MSI, MTI, SEI, SSI, STI. */
  const PRIORITY: seq<bv32> := [11, 3, 7, 9, 1, 5]

  /** The cause an interrupt bit is reported with. */
  function InterruptCause(bit: bv32): bv32
  {
    0x8000_0000 | bit
  }

  lemma PriorityBits()
    ensures PRIORITY[0] == 11 && PRIORITY[1] == 3 && PRIORITY[2] == 7
    ensures PRIORITY[3] == 9 && PRIORITY[4] == 1 && PRIORITY[5] == 5
    ensures InterruptCause(11) == MACHINE_EXTERNAL_INTERRUPT && InterruptCause(3) == MACHINE_SOFTWARE_INTERRUPT
    ensures InterruptCause(7) == MACHINE_TIMER_INTERRUPT && InterruptCause(9) == SUPERVISOR_EXTERNAL_INTERRUPT
    ensures InterruptCause(1) == SUPERVISOR_SOFTWARE_INTERRUPT && InterruptCause(5) == SUPERVISOR_TIMER_INTERRUPT
  {
  }

  /**
   * The interrupt chosen is the first interrupting bit in priority order: the answer is the
   * cause of PRIORITY[k] exactly when that bit interrupts and no earlier one does.
   */
  lemma PendingIsFirstInterrupting(r: InterruptRegs, k: nat)
    requires k < |PRIORITY|
    ensures PendingInterrupt(r) == Some(InterruptCause(PRIORITY[k])) <==>
      Interrupting(r, PRIORITY[k]) && forall j | 0 <= j < k :: !Interrupting(r, PRIORITY[j])
  {
    PriorityBits();
    if k == 0 {
    } else if k == 1 {
    } else if k == 2 {
    } else if k == 3 {
    } else if k == 4 {
    } else {
    }
  }

  /** No interrupt is taken exactly when none of the six bits is interrupting. */
  lemma PendingNoneIffQuiet(r: InterruptRegs)
    ensures PendingInterrupt(r).None? <==> forall k | 0 <= k < |PRIORITY| :: !Interrupting(r, PRIORITY[k])
  {
    PriorityBits();
    var quiet := !Interrupting(r, 11) && !Interrupting(r, 3) && !Interrupting(r, 7) &&
      !Interrupting(r, 9) && !Interrupting(r, 1) && !Interrupting(r, 5);
    assert PendingInterrupt(r).None? <==> quiet;
    if quiet {
      forall k | 0 <= k < |PRIORITY|
        ensures !Interrupting(r, PRIORITY[k])
      {
      }
    } else {
      assert (!Interrupting(r, PRIORITY[0]) && !Interrupting(r, PRIORITY[1]) && !Interrupting(r, PRIORITY[2]) &&
        !Interrupting(r, PRIORITY[3]) && !Interrupting(r, PRIORITY[4]) && !Interrupting(r, PRIORITY[5])) ==> quiet;
    }
  }

  /** In M mode with mstatus.MIE clear, no interrupt is ever taken. */
  lemma MachineModeMasked(r: InterruptRegs, bit: bv32)
    requires bit < 32 && r.mode == MACHINE_MODE && Bit(r.mstatus, 3) == 0
    ensures !Interrupting(r, bit) && PendingInterrupt(r).None?
  {
  }

  /** In M mode an interrupt delegated to S stays pending, whatever the enables say. */
  lemma DelegatedWaitsInMachineMode(r: InterruptRegs, bit: bv32)
    requires bit < 32 && r.mode == MACHINE_MODE && Bit(r.mideleg, bit) == 1
    ensures !Interrupting(r, bit)
  {
  }

  /** In U mode a pending, enabled interrupt is taken whatever mstatus.MIE and SIE say. */
  lemma UserModeAlwaysInterrupted(r: InterruptRegs, bit: bv32)
    requires bit < 32 && r.mode == USER_MODE && Bit(r.mip, bit) == 1 && Bit(r.mie, bit) == 1
    ensures Interrupting(r, bit)
  {
  }

  /** In S mode, an interrupt kept in M (not delegated) is taken whatever mstatus.SIE says. */
  lemma SupervisorModeTakesMachineInterrupts(r: InterruptRegs, bit: bv32)
    requires bit < 32 && r.mode == SUPERVISOR_MODE && Bit(r.mip, bit) == 1 && Bit(r.mie, bit) == 1
    requires Bit(r.mideleg, bit) == 0
    ensures Interrupting(r, bit)
  {
  }

  // ---------------------------------------------------------------------------------------
  // Trap entry and return.

  /** An exception raised in M mode is always handled in M, whatever medeleg says. */
  lemma MachineExceptionsStayInMachineMode(c: CsrFile, cause: bv32)
    requires cause < 32 && c.mode == MACHINE_MODE
    ensures HandledInM(c, cause)
  {
  }

  /** The handler address is word-aligned; an exception always goes to the vector base. */
  lemma TrapVectorAligned(tvec: bv32, cause: bv32)
    ensures TrapVector(tvec, cause) & 3 == 0
    ensures !IsInterrupt(cause) ==> TrapVector(tvec, cause) == tvec & 0xFFFF_FFFC
  {
  }

  /**
   * Entry to M disables interrupts there: mode M with mstatus.MIE clear, so the interrupt check
   * at the end of the same tick takes nothing.
   */
  lemma MachineTrapMasksInterrupts(c: CsrFile, pc: bv32, cause: bv32)
    ensures var d := MTrapEntered(c, pc, cause);
      d.mode == MACHINE_MODE && Bit(d.m.mstatus, 3) == 0 && PendingInterrupt(InterruptRegsOf(d)).None?
  {
    var d := MTrapEntered(c, pc, cause);
    MachineModeMasked(InterruptRegsOf(d), 0);
  }

  /**
   * MRET undoes entry to M: the mode, mstatus.MIE and every bit outside MPP, MPIE and MIE are
   * as before the trap, MPIE is set, and the return address is the trapping pc with its low
   * two bits cleared.
   */
  lemma MachineTrapReturn(c: CsrFile, pc: bv32, cause: bv32)
    requires c.mode < 4
    ensures var d := Mreturned(MTrapEntered(c, pc, cause));
      d.mode == c.mode && Bit(d.m.mstatus, 3) == Bit(c.m.mstatus, 3) && Bit(d.m.mstatus, 7) == 1 &&
      d.m.mstatus & 0xFFFF_E777 == c.m.mstatus & 0xFFFF_E777 &&
      d.m.mepc == pc & 0xFFFF_FFFC && d.m.mcause == cause
  {
    var d := Mreturned(MTrapEntered(c, pc, cause));
    StatusPushPop(c.m.mstatus, c.mode, MTrapStatus(c.m.mstatus, c.mode), d.m.mstatus, d.mode);
  }

  /** The mstatus bits of entry to M (`pushed`), then of MRET (`t`, and the mode it returns to). */
  lemma StatusPushPop(mstatus: bv32, mode: bv8, pushed: bv32, t: bv32, mode': bv8)
    requires mode < 4 && pushed == MTrapStatus(mstatus, mode)
    requires t == MretStatus(pushed) && mode' == ((pushed >> 11) & 3) as bv8
    ensures mode' == mode && Bit(t, 3) == Bit(mstatus, 3) && Bit(t, 7) == 1 && t & 0xFFFF_E777 == mstatus & 0xFFFF_E777
  {
  }

  /**
   * SRET undoes entry to S from U or S: the mode, sstatus.SIE and every bit outside SPP, SPIE
   * and SIE are as before, SPIE is set, and sepc is the trapping pc with its low bits cleared.
   */
  lemma SupervisorTrapReturn(c: CsrFile, pc: bv32, cause: bv32, tval: bv32)
    requires c.mode == USER_MODE || c.mode == SUPERVISOR_MODE
    ensures var d := Sreturned(STrapEntered(c, pc, cause, tval));
      d.mode == c.mode && Bit(d.m.mstatus, 1) == Bit(c.m.mstatus, 1) && Bit(d.m.mstatus, 5) == 1 &&
      d.m.mstatus & 0xFFFF_FEDD == c.m.mstatus & 0xFFFF_FEDD &&
      d.s.sepc == pc & 0xFFFF_FFFC && d.s.scause == cause && d.s.stval == tval
  {
    var e := STrapEntered(c, pc, cause, tval);
    var d := Sreturned(e);
    SupervisorStatusPushPop(c.m.mstatus, c.mode, e.m.mstatus, d.m.mstatus, d.mode);
  }

  /** The mstatus bits of entry to S through the sstatus view (`pushed`), then of SRET. */
  lemma SupervisorStatusPushPop(mstatus: bv32, mode: bv8, pushed: bv32, t: bv32, mode': bv8)
    requires mode == USER_MODE || mode == SUPERVISOR_MODE
    requires pushed == Merge(mstatus, STrapStatus(Masked(mstatus, SSTATUS_MASK), mode), SSTATUS_MASK)
    requires t == Merge(pushed, SretStatus(Masked(pushed, SSTATUS_MASK)), SSTATUS_MASK)
    requires mode' == if Masked(pushed, SSTATUS_MASK) & 0x100 != 0 then SUPERVISOR_MODE else USER_MODE
    ensures mode' == mode && Bit(t, 1) == Bit(mstatus, 1) && Bit(t, 5) == 1 && t & 0xFFFF_FEDD == mstatus & 0xFFFF_FEDD
  {
  }

  /**
   * On the whole machine: a trap handled in M, followed by MRET, comes back to the trapping
   * instruction's (word-aligned) address in the mode it trapped from, with the registers as
   * they were.
   */
  lemma TrapThenMret(x: Machine, cause: bv32, tval: bv32)
    requires Ready(x) && CauseCode(cause) < 32 && HandledInM(x.mem.csr, cause) && x.mem.csr.mode < 4
    ensures var y := MretSpec(TrapEntered(x, cause, tval)).after;
      y.pc == x.pc & 0xFFFF_FFFC && y.mem.csr.mode == x.mem.csr.mode && y.regs == x.regs &&
      Bit(y.mem.csr.m.mstatus, 3) == Bit(x.mem.csr.m.mstatus, 3)
  {
    MachineTrapReturn(x.mem.csr, x.pc, cause);
  }

  // ---------------------------------------------------------------------------------------
  // The instruction counter.

  /** Counting an instruction adds one to the 64-bit value, wrapping at 2^64. */
  lemma IncrementedAddsOne(n: Counter)
    ensures Value(Incremented(n)) == Value(n) + 1
  {
    if n.low == 0xFFFF_FFFF {
      CarryIntoHigh(n.high);
    } else {
      NoCarry(n.high, n.low);
    }
  }

  lemma CarryIntoHigh(h: bv32)
    ensures ((((h + 1) as bv64) << 32) | 0) == (((h as bv64) << 32) | 0xFFFF_FFFF) + 1
  {
  }

  lemma NoCarry(h: bv32, l: bv32)
    requires l != 0xFFFF_FFFF
    ensures (((h as bv64) << 32) | ((l + 1) as bv64)) == (((h as bv64) << 32) | (l as bv64)) + 1
  {
  }

  // ---------------------------------------------------------------------------------------
  // The instruction cache.

  /** What fetch and decode give with no cache: the word at pc, decoded. */
  function Uncached(x: Machine): Outcome<DecodedInst>
    requires Ready(x)
  {
    match FetchSpec(x.mem, x.pc)
    case Throw(t) => Throw(t)
    case Normal(w) => Decode(w)
  }

  /** Every cached instruction is what the memory now decodes to at its pc. */
  predicate Coherent(x: Machine, icache: map<Line, DecodedInst>)
    requires Ready(x)
  {
    forall line | line in icache :: Uncached(x.(pc := line.pc)) == Normal(icache[line])
  }

  /**
   * While the cache is coherent with memory, fetching through it gives what fetching without
   * it gives, and the cache stays coherent.
   */
  lemma CacheIsTransparent(x: Machine, icache: map<Line, DecodedInst>)
    requires Ready(x) && CacheOk(icache) && Coherent(x, icache)
    ensures FetchAndDecodeSpec(x, icache).inst == Uncached(x)
    ensures Coherent(x, FetchAndDecodeSpec(x, icache).icache)
  {
    var pc := Line(x.pc);
    assert x.(pc := pc.pc) == x;
    if pc !in icache && FetchSpec(x.mem, x.pc).Normal? {
      var decoded := Decode(FetchSpec(x.mem, x.pc).value);
      assert Uncached(x) == decoded;
      if decoded.Normal? && Cacheable(decoded.value) {
        var c := icache[pc := decoded.value];
        assert FetchAndDecodeSpec(x, icache).icache == c;
        forall p | p in c
          ensures Uncached(x.(pc := p.pc)) == Normal(c[p])
        {
          if p != pc {
            assert c[p] == icache[p];
          }
        }
      }
    }
  }

  /** A trap empties the cache, so every cache after a trap is coherent. */
  lemma TrapFlushesCache(e: Emu, cause: bv32, tval: bv32)
    requires CauseCode(cause) < 32
    ensures HandleTrapSpec(e, cause, tval).icache == map[]
  {
  }

  // ---------------------------------------------------------------------------------------
  // Breakpoint interception.

  /**
   * An intercepted breakpoint (outside U mode, with interception on) sets the flag and leaves
   * the machine as the instruction left it; otherwise the guest's handler is entered.
   */
  lemma BreakpointIntercepted(e: Emu)
    ensures var h := HandleTrapSpec(e, BREAKPOINT, 0);
      if e.intercept && e.x.mem.csr.mode != USER_MODE then h.hit && h.x == e.x
      else h.hit == e.hit && h.x == TrapEntered(e.x, BREAKPOINT, 0)
  {
  }

  /**
   * ECALL and EBREAK undo the tick's count through the 32-bit minstret alone: the low half,
   * and so the instruction count, is always restored, and the whole CSR file is too unless the
   * increment carried into minstreth, which stays one higher.
   */
  lemma UncountUndoesCount(c: CsrFile)
    ensures UncountInstruction(CountInstruction(c)).counters.minstret.low == c.counters.minstret.low
    ensures c.counters.minstret.low != 0xFFFF_FFFF ==> UncountInstruction(CountInstruction(c)) == c
    ensures c.counters.minstret.low == 0xFFFF_FFFF ==>
      UncountInstruction(CountInstruction(c)).counters.minstret.high == c.counters.minstret.high + 1
  {
    var n := c.counters.minstret;
    CounterRoundTrip(n);
    var u := UncountInstruction(CountInstruction(c));
    assert u.counters.minstret == Uncounted(Incremented(n));
    assert u == c.(counters := c.counters.(minstret := u.counters.minstret));
  }

  function Uncounted(n: Counter): Counter
  {
    n.(low := n.low - 1)
  }

  /** Incrementing then decrementing the low half only restores the low half, and the whole counter without a carry. */
  lemma CounterRoundTrip(n: Counter)
    ensures Uncounted(Incremented(n)).low == n.low
    ensures n.low != 0xFFFF_FFFF ==> Uncounted(Incremented(n)) == n
    ensures n.low == 0xFFFF_FFFF ==> Uncounted(Incremented(n)).high == n.high + 1
  {
    if n.low == 0xFFFF_FFFF {
      CarryNotUndone(n);
    } else {
      LowUndone(n);
    }
  }

  lemma CarryNotUndone(n: Counter)
    requires n.low == 0xFFFF_FFFF
    ensures Uncounted(Incremented(n)) == Counter(n.high + 1, n.low)
  {
  }

  lemma LowUndone(n: Counter)
    requires n.low != 0xFFFF_FFFF
    ensures Uncounted(Incremented(n)) == n
  {
  }

  // ---------------------------------------------------------------------------------------
  // The run loop.

  /**
   * The tick bound only cuts a run short: a run that stopped for any other reason stops the
   * same way, in the same state, with more ticks allowed.
   */
  lemma {:induction false} RunBoundOnlyTruncates(e: Emu, target: nat, ticksLeft: nat, more: nat)
    requires Ready(e.x) && CacheOk(e.icache) && ticksLeft <= more
    requires RunSpec(e, target, ticksLeft).0 != Normal(OutOfTicks)
    ensures RunSpec(e, target, more) == RunSpec(e, target, ticksLeft)
    decreases ticksLeft, 2
  {
    ReachedIgnoresBound(e, target, ticksLeft, more);
    BudgetedBoundOnlyTruncates(e, target, ticksLeft, more);
  }

  /** Once the count is reached the run stops at once, whatever the bound. */
  lemma ReachedIgnoresBound(e: Emu, target: nat, ticksLeft: nat, more: nat)
    requires Ready(e.x) && CacheOk(e.icache)
    ensures CountReached(e.x, target) ==> RunSpec(e, target, more) == RunSpec(e, target, ticksLeft)
  {
    if CountReached(e.x, target) {
      assert RunSpec(e, target, more) == (Normal(Reached), e) == RunSpec(e, target, ticksLeft);
    }
  }

  lemma {:induction false} BudgetedBoundOnlyTruncates(e: Emu, target: nat, ticksLeft: nat, more: nat)
    requires Ready(e.x) && CacheOk(e.icache) && ticksLeft <= more
    requires RunSpec(e, target, ticksLeft).0 != Normal(OutOfTicks)
    ensures !CountReached(e.x, target) ==> RunSpec(e, target, more) == RunSpec(e, target, ticksLeft)
    decreases ticksLeft, 1
  {
    if !CountReached(e.x, target) {
      BelowTargetNeedsTicks(e, target, ticksLeft);
      var t := TickSpec(e);
      RestDidNotRunOut(e, target, ticksLeft, t);
      RestBoundOnlyTruncates(target, ticksLeft, more, t);
      SameRestSameRun(e, target, ticksLeft, more, t);
    }
  }

  lemma {:induction false} RestBoundOnlyTruncates(target: nat, ticksLeft: nat, more: nat, t: Ticked)
    requires Ready(t.after.x) && CacheOk(t.after.icache) && 0 < ticksLeft <= more
    requires t.result == Normal(true) ==> RunSpec(t.after, target, ticksLeft - 1).0 != Normal(OutOfTicks)
    ensures t.result == Normal(true) ==> RunSpec(t.after, target, more - 1) == RunSpec(t.after, target, ticksLeft - 1)
    decreases ticksLeft, 0
  {
    if t.result == Normal(true) {
      RunBoundOnlyTruncates(t.after, target, ticksLeft - 1, more - 1);
    }
  }

  /** Below the target, a run with no ticks left runs out of them. */
  lemma BelowTargetNeedsTicks(e: Emu, target: nat, ticksLeft: nat)
    requires Ready(e.x) && CacheOk(e.icache) && !CountReached(e.x, target)
    ensures RunSpec(e, target, ticksLeft).0 != Normal(OutOfTicks) ==> ticksLeft > 0
  {
    assert RunSpec(e, target, ticksLeft) == Budgeted(e, target, ticksLeft);
  }

  /** A run that did not run out of ticks did not run out of them after its first tick either. */
  lemma RestDidNotRunOut(e: Emu, target: nat, ticksLeft: nat, t: Ticked)
    requires Ready(e.x) && CacheOk(e.icache) && 0 < ticksLeft && !CountReached(e.x, target)
    requires t == TickSpec(e) && RunSpec(e, target, ticksLeft).0 != Normal(OutOfTicks)
    ensures t.result == Normal(true) ==> RunSpec(t.after, target, ticksLeft - 1).0 != Normal(OutOfTicks)
  {
    RunGoesOn(e, target, ticksLeft, t);
  }

  /** Two runs from the same state whose rests after the first tick agree, agree. */
  lemma SameRestSameRun(e: Emu, target: nat, ticksLeft: nat, more: nat, t: Ticked)
    requires Ready(e.x) && CacheOk(e.icache) && 0 < ticksLeft <= more && !CountReached(e.x, target)
    requires t == TickSpec(e)
    requires t.result == Normal(true) ==> RunSpec(t.after, target, more - 1) == RunSpec(t.after, target, ticksLeft - 1)
    ensures RunSpec(e, target, more) == RunSpec(e, target, ticksLeft)
  {
    RunGoesOn(e, target, ticksLeft, t);
    RunGoesOn(e, target, more, t);
  }
}
