// IRVE: the control and status registers. `implicit_read`/`implicit_write` access a CSR
// by its 12-bit address without privilege checks; `explicit_read`/`explicit_write` add the
// address-encoded checks of section 2.1 of the RISC-V Privileged Architecture (version
// 20211203). The register values are described by the datatype `CsrFile`; the class `Csr`
// holds them in fields and arrays and is proved against the functions over `CsrFile`.

module IrveCsr {
  import opened Common
  import opened IrveTrap

  // Privilege modes (`PrivilegeMode`); 2 is reserved.
  const USER_MODE: bv8 := 0
  const SUPERVISOR_MODE: bv8 := 1
  const MACHINE_MODE: bv8 := 3

  // CSR addresses (`Csr::Address`).
  const SSTATUS: bv16 := 0x100
  const SIE: bv16 := 0x104
  const STVEC: bv16 := 0x105
  const SCOUNTEREN: bv16 := 0x106
  const SENVCFG: bv16 := 0x10A
  const SSCRATCH: bv16 := 0x140
  const SEPC: bv16 := 0x141
  const SCAUSE: bv16 := 0x142
  const STVAL: bv16 := 0x143
  const SIP: bv16 := 0x144
  const SATP: bv16 := 0x180
  const MSTATUS: bv16 := 0x300
  const MISA: bv16 := 0x301
  const MEDELEG: bv16 := 0x302
  const MIDELEG: bv16 := 0x303
  const MIE: bv16 := 0x304
  const MTVEC: bv16 := 0x305
  const MCOUNTEREN: bv16 := 0x306
  const MENVCFG: bv16 := 0x30A
  const MSTATUSH: bv16 := 0x310
  const MENVCFGH: bv16 := 0x31A
  const MCOUNTINHIBIT: bv16 := 0x320
  const MHPMEVENT_START: bv16 := 0x323
  const MHPMEVENT_END: bv16 := 0x33F
  const MSCRATCH: bv16 := 0x340
  const MEPC: bv16 := 0x341
  const MCAUSE: bv16 := 0x342
  const MTVAL: bv16 := 0x343
  const MIP: bv16 := 0x344
  const MTINST: bv16 := 0x34A
  const MTVAL2: bv16 := 0x34B
  const PMPCFG_START: bv16 := 0x3A0
  const PMPCFG_END: bv16 := 0x3AF
  const PMPADDR_START: bv16 := 0x3B0
  const PMPADDR_END: bv16 := 0x3EF
  const MCYCLE: bv16 := 0xB00
  const MINSTRET: bv16 := 0xB02
  const MHPMCOUNTER_START: bv16 := 0xB03
  const MHPMCOUNTER_END: bv16 := 0xB1F
  const MCYCLEH: bv16 := 0xB80
  const MINSTRETH: bv16 := 0xB82
  const MHPMCOUNTERH_START: bv16 := 0xB83
  const MHPMCOUNTERH_END: bv16 := 0xB9F
  const MTIME: bv16 := 0xBC0
  const MTIMEH: bv16 := 0xBC4
  const MTIMECMP: bv16 := 0xBD0
  const MTIMECMPH: bv16 := 0xBD4
  const CYCLE: bv16 := 0xC00
  const TIME: bv16 := 0xC01
  const INSTRET: bv16 := 0xC02
  const HPMCOUNTER_START: bv16 := 0xC03
  const HPMCOUNTER_END: bv16 := 0xC1F
  const CYCLEH: bv16 := 0xC80
  const TIMEH: bv16 := 0xC81
  const INSTRETH: bv16 := 0xC82
  const HPMCOUNTERH_START: bv16 := 0xC83
  const HPMCOUNTERH_END: bv16 := 0xC9F
  const MVENDORID: bv16 := 0xF11
  const MARCHID: bv16 := 0xF12
  const MIMPID: bv16 := 0xF13
  const MHARTID: bv16 := 0xF14
  const MCONFIGPTR: bv16 := 0xF15

  // The bits of mstatus, mie and mip visible through sstatus, sie and sip, and the bits of
  // satp that are kept (MODE and PPN; ASIDs are not supported).
  const SSTATUS_MASK: bv32 := 0x800D_E762
  const SIP_MASK: bv32 := 0x222
  const SIE_MASK: bv32 := 0x222
  const SATP_MASK: bv32 := 0x803F_FFFF
  // The writable bits of medeleg, and of mideleg and mie (the six standard interrupts).
  const MEDELEG_MASK: bv32 := 0xB3FF
  const INTERRUPT_MASK: bv32 := 0xAAA
  // The bits of mip writable through mip: only the supervisor-level pending bits.
  const MIP_WRITE_MASK: bv32 := 0x222
  // Every bit but mip.MTIP (bit 7), which a write to mtimecmp clears.
  const MTIP_CLEAR: bv32 := 0xFFFF_FF7F

  /** The supervisor-level registers with storage of their own. */
  datatype SupervisorRegs = SupervisorRegs(
    stvec: bv32, scounteren: bv32, senvcfg: bv32, sscratch: bv32, sepc: bv32, scause: bv32,
    stval: bv32, satp: bv32)

  /** The machine-level registers with storage of their own (sstatus, sie and sip are views). */
  datatype MachineRegs = MachineRegs(
    mstatus: bv32, medeleg: bv32, mideleg: bv32, mie: bv32, mtvec: bv32, menvcfg: bv32,
    mscratch: bv32, mepc: bv32, mcause: bv32, mip: bv32)

  /** The 64-bit counters. */
  datatype Counters = Counters(minstret: Counter, mcycle: Counter, mtime: Counter, mtimecmp: Counter)

  /** The registers the class stores, and the current privilege mode. */
  datatype CsrFile = CsrFile(
    s: SupervisorRegs, m: MachineRegs, pmpcfg: seq<bv32>, pmpaddr: seq<bv32>,
    counters: Counters, mode: bv8)

  predicate Wf(c: CsrFile)
  {
    |c.pmpcfg| == 64 && |c.pmpaddr| == 64
  }

  /**
   * The state after construction. `sscratch`, `mscratch` and `pmpaddr` are filled with
   * pseudo-random values and `stval` is left uninitialised; they are parameters here.
   */
  function Reset(sscratch: bv32, mscratch: bv32, stval: bv32, pmpaddr: seq<bv32>): (c: CsrFile)
    requires |pmpaddr| == 64
    ensures Wf(c)
  {
    CsrFile(SupervisorRegs(0, 0, 0, sscratch, 0, 0, stval, 0),
            MachineRegs(0, 0, 0, 0, 5, 0, mscratch, 0, 0, 0),
            seq(64, _ => 0), pmpaddr, Counters(ZERO, ZERO, ZERO, ALL_ONES), MACHINE_MODE)
  }

  /** The CSRs the switch statements name; the pmp ranges carry their index. */
  /**
   * The case labels of `implicit_read` and `implicit_write`, grouped by how the write treats
   * them: the supervisor-level registers, the machine-level registers, the pmp registers
   * (carrying their index), the counters written by halves, the timer registers, and the
   * registers without a write case.
   */
  datatype Name =
    | Supervisor(sn: SupervisorCsr)
    | MachineSetup(ms: MachineSetupCsr)
    | MachineHandling(mh: MachineHandlingCsr)
    | Pmpcfg(i: nat)
    | Pmpaddr(j: nat)
    | Count(cn: CounterCsr)
    | Timer(tn: TimerCsr)
    | ReadOnly(rn: ReadOnlyCsr)

  datatype SupervisorCsr =
    Sstatus | Sie | Stvec | Scounteren | Senvcfg | Sscratch | Sepc | Scause | Stval | Sip | Satp

  /** Machine trap setup, configuration and counter setup. */
  datatype MachineSetupCsr =
    | Mstatus | Misa | Medeleg | Mideleg | Mie | Mtvec | Mcounteren | Menvcfg | Mstatush
    | Menvcfgh | Mcountinhibit | Mhpmevent

  /** Machine trap handling. */
  datatype MachineHandlingCsr = Mscratch | Mepc | Mcause | Mtval | Mip

  datatype CounterCsr = Mcycle | Minstret | Mhpmcounter | Mcycleh | Minstreth | Mhpmcounterh | Hpmcounter

  datatype TimerCsr = Mtime | Mtimeh | Mtimecmp | Mtimecmph

  datatype ReadOnlyCsr =
    | Cycle | Time | Instret | Cycleh | Timeh | Instreth | Hpmcounterh
    | Mvendorid | Marchid | Mimpid | Mhartid | Mconfigptr

  predicate InRange(n: Name)
  {
    (n.Pmpcfg? ==> n.i < 16) && (n.Pmpaddr? ==> n.j < 64)
  }

  /** The case label an address falls under, or `None` for the `default` label. */
  function NameOf(a: bv16): (n: Option<Name>)
    ensures n.Some? ==> InRange(n.value)
  {
    if a == SSTATUS then Some(Supervisor(Sstatus))
    else if a == SIE then Some(Supervisor(Sie))
    else if a == STVEC then Some(Supervisor(Stvec))
    else if a == SCOUNTEREN then Some(Supervisor(Scounteren))
    else if a == SENVCFG then Some(Supervisor(Senvcfg))
    else if a == SSCRATCH then Some(Supervisor(Sscratch))
    else if a == SEPC then Some(Supervisor(Sepc))
    else if a == SCAUSE then Some(Supervisor(Scause))
    else if a == STVAL then Some(Supervisor(Stval))
    else if a == SIP then Some(Supervisor(Sip))
    else if a == SATP then Some(Supervisor(Satp))
    else if a == MSTATUS then Some(MachineSetup(Mstatus))
    else if a == MISA then Some(MachineSetup(Misa))
    else if a == MEDELEG then Some(MachineSetup(Medeleg))
    else if a == MIDELEG then Some(MachineSetup(Mideleg))
    else if a == MIE then Some(MachineSetup(Mie))
    else if a == MTVEC then Some(MachineSetup(Mtvec))
    else if a == MCOUNTEREN then Some(MachineSetup(Mcounteren))
    else if a == MENVCFG then Some(MachineSetup(Menvcfg))
    else if a == MSTATUSH then Some(MachineSetup(Mstatush))
    else if a == MENVCFGH then Some(MachineSetup(Menvcfgh))
    else if a == MCOUNTINHIBIT then Some(MachineSetup(Mcountinhibit))
    else if MHPMEVENT_START <= a <= MHPMEVENT_END then Some(MachineSetup(Mhpmevent))
    else if a == MSCRATCH then Some(MachineHandling(Mscratch))
    else if a == MEPC then Some(MachineHandling(Mepc))
    else if a == MCAUSE then Some(MachineHandling(Mcause))
    else if a == MTVAL then Some(MachineHandling(Mtval))
    else if a == MIP then Some(MachineHandling(Mip))
    else if PMPCFG_START <= a <= PMPCFG_END then Some(Pmpcfg((a - PMPCFG_START) as int))
    else if PMPADDR_START <= a <= PMPADDR_END then Some(Pmpaddr((a - PMPADDR_START) as int))
    else if a == MCYCLE then Some(Count(Mcycle))
    else if a == MINSTRET then Some(Count(Minstret))
    else if MHPMCOUNTER_START <= a <= MHPMCOUNTER_END then Some(Count(Mhpmcounter))
    else if a == MCYCLEH then Some(Count(Mcycleh))
    else if a == MINSTRETH then Some(Count(Minstreth))
    else if MHPMCOUNTERH_START <= a <= MHPMCOUNTERH_END then Some(Count(Mhpmcounterh))
    else if a == MTIME then Some(Timer(Mtime))
    else if a == MTIMEH then Some(Timer(Mtimeh))
    else if a == MTIMECMP then Some(Timer(Mtimecmp))
    else if a == MTIMECMPH then Some(Timer(Mtimecmph))
    else if a == CYCLE then Some(ReadOnly(Cycle))
    else if a == TIME then Some(ReadOnly(Time))
    else if a == INSTRET then Some(ReadOnly(Instret))
    else if HPMCOUNTER_START <= a <= HPMCOUNTER_END then Some(Count(Hpmcounter))
    else if a == CYCLEH then Some(ReadOnly(Cycleh))
    else if a == TIMEH then Some(ReadOnly(Timeh))
    else if a == INSTRETH then Some(ReadOnly(Instreth))
    else if HPMCOUNTERH_START <= a <= HPMCOUNTERH_END then Some(ReadOnly(Hpmcounterh))
    else if a == MVENDORID then Some(ReadOnly(Mvendorid))
    else if a == MARCHID then Some(ReadOnly(Marchid))
    else if a == MIMPID then Some(ReadOnly(Mimpid))
    else if a == MHARTID then Some(ReadOnly(Mhartid))
    else if a == MCONFIGPTR then Some(ReadOnly(Mconfigptr))
    else None
  }

  /**
   * A 64-bit counter. Every access the model makes goes through one of its 32-bit halves,
   * so it is kept as the pair of halves.
   */
  datatype Counter = Counter(high: bv32, low: bv32)

  const ALL_ONES: Counter := Counter(0xFFFF_FFFF, 0xFFFF_FFFF)
  const ZERO: Counter := Counter(0, 0)

  /** The counter's value as a 64-bit pattern. */
  function Value(x: Counter): bv64
  {
    ((x.high as bv64) << 32) | (x.low as bv64)
  }

  /**
   * Replacing one half of the pair is the source's update of the 64-bit value:
   * `(x & 0xFFFFFFFF00000000) | data` for the low half, `(x & 0xFFFFFFFF) | (data << 32)` for
   * the high half.
   */
  lemma HalfReplacement(x: Counter, d: bv32)
    ensures Value(x.(low := d)) == (Value(x) & 0xFFFF_FFFF_0000_0000) | (d as bv64)
    ensures Value(x.(high := d)) == (Value(x) & 0x0000_0000_FFFF_FFFF) | ((d as bv64) << 32)
  {
    LowReplaced(x.high, x.low, d);
    HighReplaced(x.high, x.low, d);
  }

  lemma LowReplaced(h: bv32, l: bv32, d: bv32)
    ensures ((h as bv64) << 32) | (d as bv64)
         == ((((h as bv64) << 32) | (l as bv64)) & 0xFFFF_FFFF_0000_0000) | (d as bv64)
  {
  }

  lemma HighReplaced(h: bv32, l: bv32, d: bv32)
    ensures ((d as bv64) << 32) | (l as bv64)
         == ((((h as bv64) << 32) | (l as bv64)) & 0x0000_0000_FFFF_FFFF) | ((d as bv64) << 32)
  {
  }

  /** The bits of `d` that `mask` selects: a write that keeps only the legal bits. */
  function Masked(d: bv32, mask: bv32): bv32
  {
    d & mask
  }

  /** `field` with the bits of `mask` taken from `d`: a write through a masked view. */
  function Merge(field: bv32, d: bv32, mask: bv32): bv32
  {
    (field & !mask) | (d & mask)
  }

  /** `implicit_read` of the register a case label names. */
  function ReadNamed(c: CsrFile, n: Name): bv32
    requires Wf(c) && InRange(n)
  {
    match n
    case Supervisor(x) => ReadSupervisorRegs(c, x)
    case MachineSetup(x) => ReadSetupRegs(c, x)
    case MachineHandling(x) => ReadHandlingRegs(c, x)
    case Pmpcfg(i) => c.pmpcfg[i]
    case Pmpaddr(j) => c.pmpaddr[j]
    case Count(x) => ReadCounters(c, x)
    case Timer(x) => ReadTimerRegs(c, x)
    case ReadOnly(x) => ReadInformation(c, x)
  }

  function ReadSupervisorRegs(c: CsrFile, x: SupervisorCsr): bv32
  {
    match x
    case Sstatus => Masked(c.m.mstatus, SSTATUS_MASK)
    case Sie => Masked(c.m.mie, SIE_MASK)
    case Stvec => c.s.stvec
    case Scounteren => c.s.scounteren
    case Senvcfg => c.s.senvcfg
    case Sscratch => c.s.sscratch
    case Sepc => c.s.sepc
    case Scause => c.s.scause
    case Stval => c.s.stval
    case Sip => Masked(c.m.mip, SIP_MASK)
    case Satp => c.s.satp
  }

  function ReadSetupRegs(c: CsrFile, x: MachineSetupCsr): bv32
  {
    match x
    case Mstatus => c.m.mstatus
    case Misa => 0
    case Medeleg => c.m.medeleg
    case Mideleg => c.m.mideleg
    case Mie => c.m.mie
    case Mtvec => c.m.mtvec
    case Mcounteren => 0
    case Menvcfg => c.m.menvcfg
    case Mstatush => 0
    case Menvcfgh => 0
    case Mcountinhibit => 0
    case Mhpmevent => 0
  }

  function ReadHandlingRegs(c: CsrFile, x: MachineHandlingCsr): bv32
  {
    match x
    case Mscratch => c.m.mscratch
    case Mepc => c.m.mepc
    case Mcause => c.m.mcause
    case Mtval => 0
    case Mip => c.m.mip
  }

  function ReadCounters(c: CsrFile, x: CounterCsr): bv32
  {
    match x
    case Mcycle => c.counters.mcycle.low
    case Minstret => c.counters.minstret.low
    case Mhpmcounter => 0
    case Mcycleh => c.counters.mcycle.high
    case Minstreth => c.counters.minstret.high
    case Mhpmcounterh => 0
    case Hpmcounter => 0
  }

  function ReadTimerRegs(c: CsrFile, x: TimerCsr): bv32
  {
    match x
    case Mtime => c.counters.mtime.low
    case Mtimeh => c.counters.mtime.high
    case Mtimecmp => c.counters.mtimecmp.low
    case Mtimecmph => c.counters.mtimecmp.high
  }

  /** The unprivileged counters read their machine counterparts; the information registers read 0. */
  function ReadInformation(c: CsrFile, x: ReadOnlyCsr): bv32
  {
    match x
    case Cycle => c.counters.mcycle.low
    case Time => c.counters.mtime.low
    case Instret => c.counters.minstret.low
    case Cycleh => c.counters.mcycle.high
    case Timeh => c.counters.mtime.high
    case Instreth => c.counters.minstret.high
    case Hpmcounterh => 0
    case Mvendorid => 0
    case Marchid => 0
    case Mimpid => 0
    case Mhartid => 0
    case Mconfigptr => 0
  }

  /** `implicit_read`: an address without a case label raises illegal-instruction. */
  function Read(c: CsrFile, a: bv16): (r: Outcome<bv32>)
    requires Wf(c)
    ensures r.Normal? <==> NameOf(a).Some?
    ensures r.Throw? ==> r == Raise(ILLEGAL_INSTRUCTION)
  {
    match NameOf(a)
    case None => Raise(ILLEGAL_INSTRUCTION)
    case Some(n) => Normal(ReadNamed(c, n))
  }

  /** `implicit_write` of the register a case label names. */
  function WriteNamed(c: CsrFile, n: Name, d: bv32): (r: Outcome<CsrFile>)
    requires Wf(c) && InRange(n)
    ensures r.Normal? ==> Wf(r.value) && r.value.mode == c.mode
  {
    match n
    case Supervisor(x) => Normal(WriteSupervisorRegs(c, x, d))
    case MachineSetup(x) => WriteSetupRegs(c, x, d)
    case MachineHandling(x) => Normal(WriteHandlingRegs(c, x, d))
    case Pmpcfg(i) => Normal(c.(pmpcfg := c.pmpcfg[i := d]))
    case Pmpaddr(j) => Normal(c.(pmpaddr := c.pmpaddr[j := d]))
    case Count(x) => Normal(WriteCounterHalves(c, x, d))
    case Timer(x) => Normal(WriteTimerRegs(c, x, d))
    // No case label in `implicit_write`: the default raises illegal-instruction.
    case ReadOnly(_) => Raise(ILLEGAL_INSTRUCTION)
  }

  function WriteSupervisorRegs(c: CsrFile, x: SupervisorCsr, d: bv32): (r: CsrFile)
    ensures r.pmpcfg == c.pmpcfg && r.pmpaddr == c.pmpaddr && r.mode == c.mode
    ensures r.counters == c.counters
  {
    match x
    case Sstatus => c.(m := c.m.(mstatus := Merge(c.m.mstatus, d, SSTATUS_MASK)))
    case Sie => c.(m := c.m.(mie := Merge(c.m.mie, d, SIE_MASK)))
    case Stvec => c.(s := c.s.(stvec := d))
    case Scounteren => c.(s := c.s.(scounteren := d))
    case Senvcfg => c.(s := c.s.(senvcfg := Masked(d, 1)))
    case Sscratch => c.(s := c.s.(sscratch := d))
    case Sepc => c.(s := c.s.(sepc := Masked(d, 0xFFFF_FFFC)))
    case Scause => c.(s := c.s.(scause := d))
    case Stval => c.(s := c.s.(stval := d))
    case Sip => c.(m := c.m.(mip := Merge(c.m.mip, d, SIP_MASK)))
    case Satp => c.(s := c.s.(satp := Masked(d, SATP_MASK)))
  }

  function WriteSetupRegs(c: CsrFile, x: MachineSetupCsr, d: bv32): (r: Outcome<CsrFile>)
    ensures r.Normal? ==> r.value.pmpcfg == c.pmpcfg && r.value.pmpaddr == c.pmpaddr && r.value.mode == c.mode
    ensures r.Normal? ==> r.value.s == c.s && r.value.counters == c.counters
  {
    match x
    case Mstatus => Normal(c.(m := c.m.(mstatus := d)))
    case Misa => Normal(c)
    case Medeleg => Normal(c.(m := c.m.(medeleg := Masked(d, MEDELEG_MASK))))
    case Mideleg => Normal(c.(m := c.m.(mideleg := Masked(d, INTERRUPT_MASK))))
    case Mie => Normal(c.(m := c.m.(mie := Masked(d, INTERRUPT_MASK))))
    case Mtvec => Normal(c.(m := c.m.(mtvec := d)))
    case Menvcfg => Normal(c.(m := c.m.(menvcfg := Masked(d, 1))))
    case Mstatush => Normal(c)
    case Menvcfgh => Normal(c)
    case Mcountinhibit => Normal(c)
    // No case label in `implicit_write`: the default raises illegal-instruction.
    case Mcounteren => Raise(ILLEGAL_INSTRUCTION)
    case Mhpmevent => Raise(ILLEGAL_INSTRUCTION)
  }

  function WriteHandlingRegs(c: CsrFile, x: MachineHandlingCsr, d: bv32): (r: CsrFile)
    ensures r.pmpcfg == c.pmpcfg && r.pmpaddr == c.pmpaddr && r.mode == c.mode
    ensures r.s == c.s && r.counters == c.counters
  {
    match x
    case Mscratch => c.(m := c.m.(mscratch := d))
    case Mepc => c.(m := c.m.(mepc := Masked(d, 0xFFFF_FFFC)))
    case Mcause => c.(m := c.m.(mcause := d))
    case Mtval => c
    case Mip => c.(m := c.m.(mip := Masked(d, MIP_WRITE_MASK)))
  }

  /** mcycle and minstret take the written half; writes to the hpm counters are ignored. */
  function WriteCounterHalves(c: CsrFile, x: CounterCsr, d: bv32): (r: CsrFile)
    ensures r.pmpcfg == c.pmpcfg && r.pmpaddr == c.pmpaddr && r.mode == c.mode
    ensures r.s == c.s && r.m == c.m
  {
    var k := c.counters;
    match x
    case Mcycle => c.(counters := k.(mcycle := k.mcycle.(low := d)))
    case Minstret => c.(counters := k.(minstret := k.minstret.(low := d)))
    case Mcycleh => c.(counters := k.(mcycle := k.mcycle.(high := d)))
    case Minstreth => c.(counters := k.(minstret := k.minstret.(high := d)))
    case Mhpmcounter => c
    case Mhpmcounterh => c
    case Hpmcounter => c
  }

  /** The timer registers; a write to mtimecmp also clears the machine timer interrupt pending bit. */
  function WriteTimerRegs(c: CsrFile, x: TimerCsr, d: bv32): (r: CsrFile)
    ensures r.pmpcfg == c.pmpcfg && r.pmpaddr == c.pmpaddr && r.mode == c.mode
    ensures r.s == c.s && (r.m == c.m || r.m == c.m.(mip := Masked(c.m.mip, MTIP_CLEAR)))
  {
    var k := c.counters;
    match x
    case Mtime => c.(counters := k.(mtime := k.mtime.(low := d)))
    case Mtimeh => c.(counters := k.(mtime := k.mtime.(high := d)))
    case Mtimecmp =>
      c.(counters := k.(mtimecmp := k.mtimecmp.(low := d)), m := c.m.(mip := Masked(c.m.mip, MTIP_CLEAR)))
    case Mtimecmph =>
      c.(counters := k.(mtimecmp := k.mtimecmp.(high := d)), m := c.m.(mip := Masked(c.m.mip, MTIP_CLEAR)))
  }

  /** `implicit_write`. */
  function Write(c: CsrFile, a: bv16, d: bv32): (r: Outcome<CsrFile>)
    requires Wf(c)
    ensures r.Normal? ==> Wf(r.value) && r.value.mode == c.mode
  {
    match NameOf(a)
    case None => Raise(ILLEGAL_INSTRUCTION)
    case Some(n) => WriteNamed(c, n, d)
  }

  /** The state after `implicit_write`, which is unchanged when the write throws. */
  function WriteOrKeep(c: CsrFile, a: bv16, d: bv32): (r: CsrFile)
    requires Wf(c)
    ensures Wf(r) && r.mode == c.mode
  {
    var w := Write(c, a, d);
    if w.Normal? then w.value else c
  }

  // Legal values: the constraints `implicit_write` enforces on what it stores.

  /** `x` has no bit outside `mask`. */
  predicate Within(x: bv32, mask: bv32)
  {
    x & !mask == 0
  }

  /**
   * The constraints the writes enforce: the exception pcs are 4-byte aligned, satp has no
   * ASID bits, only bit 0 of the envcfg registers can be set, medeleg only its delegable
   * exceptions, and mideleg, mie and mip only the six standard interrupts.
   */
  predicate Legal(c: CsrFile)
  {
    LegalSupervisor(c.s) && LegalMachine(c.m)
  }

  predicate LegalSupervisor(s: SupervisorRegs)
  {
    Within(s.sepc, 0xFFFF_FFFC) && Within(s.satp, SATP_MASK) && Within(s.senvcfg, 1)
  }

  predicate LegalMachine(m: MachineRegs)
  {
    Within(m.mepc, 0xFFFF_FFFC) && Within(m.menvcfg, 1) && Within(m.medeleg, MEDELEG_MASK)
    && Within(m.mideleg, INTERRUPT_MASK) && Within(m.mie, INTERRUPT_MASK)
    && Within(m.mip, INTERRUPT_MASK)
  }

  /** The minimum privilege encoded in address bits 9:8 is met by `mode`. */
  predicate CanRead(mode: bv8, a: bv16)
  {
    ((a >> 8) & 3) as bv8 <= mode
  }

  /** Addresses with bits 11:10 set are read-only; otherwise writing is checked like reading. */
  predicate CanWrite(mode: bv8, a: bv16)
  {
    if (a >> 10) & 3 == 3 then false else CanRead(mode, a)
  }

  /** `explicit_read`: the privilege check comes before the read. */
  function ExplicitRead(c: CsrFile, a: bv16): (r: Outcome<bv32>)
    requires Wf(c)
    ensures r.Normal? <==> CanRead(c.mode, a) && NameOf(a).Some?
    ensures r.Normal? ==> r == Read(c, a)
    ensures r.Throw? ==> r == Raise(ILLEGAL_INSTRUCTION)
  {
    if !CanRead(c.mode, a) then Raise(ILLEGAL_INSTRUCTION) else Read(c, a)
  }

  /** `explicit_write`: the privilege check comes before the write. */
  function ExplicitWrite(c: CsrFile, a: bv16, d: bv32): Outcome<CsrFile>
    requires Wf(c)
  {
    if !CanWrite(c.mode, a) then Raise(ILLEGAL_INSTRUCTION) else Write(c, a, d)
  }

  /**
   * The CSR file. The source's member registers are kept here in three record-valued fields
   * (supervisor-level, machine-level, counters), the pmp registers in two arrays.
   */
  class Csr {
    var s: SupervisorRegs
    var m: MachineRegs
    const pmpcfg: array<bv32>
    const pmpaddr: array<bv32>
    var counters: Counters
    var privilegeMode: bv8

    ghost predicate Valid()
      reads this
    {
      pmpcfg.Length == 64 && pmpaddr.Length == 64 && pmpcfg != pmpaddr
    }

    /** The values the fields and arrays hold. */
    function Snapshot(): (c: CsrFile)
      requires Valid()
      reads this, pmpcfg, pmpaddr
      ensures Wf(c)
    {
      CsrFile(s, m, pmpcfg[..], pmpaddr[..], counters, privilegeMode)
    }

    constructor (sscratch0: bv32, mscratch0: bv32, stval0: bv32, pmpaddr0: seq<bv32>)
      requires |pmpaddr0| == 64
      ensures Valid() && fresh(pmpcfg) && fresh(pmpaddr)
      ensures Snapshot() == Reset(sscratch0, mscratch0, stval0, pmpaddr0)
    {
      s := SupervisorRegs(0, 0, 0, sscratch0, 0, 0, stval0, 0);
      m := MachineRegs(0, 0, 0, 0, 5, 0, mscratch0, 0, 0, 0);
      counters := Counters(ZERO, ZERO, ZERO, ALL_ONES);
      privilegeMode := MACHINE_MODE;
      pmpcfg := new bv32[64](_ => 0);
      pmpaddr := new bv32[64](j requires 0 <= j < 64 => pmpaddr0[j]);
    }

    function GetPrivilegeMode(): bv8
      reads this
    {
      privilegeMode
    }

    method SetPrivilegeMode(mode: bv8)
      requires Valid()
      modifies this
      ensures Valid() && Snapshot() == old(Snapshot()).(mode := mode)
    {
      privilegeMode := mode;
    }

    /** `implicit_read`: the read `Read` describes, of the current values. */
    function ImplicitRead(a: bv16): (r: Outcome<bv32>)
      requires Valid()
      reads this, pmpcfg, pmpaddr
      ensures r.Normal? <==> NameOf(a).Some?
      ensures r.Normal? ==> r.value == ReadNamed(Snapshot(), NameOf(a).value)
      ensures r.Throw? ==> r == Raise(ILLEGAL_INSTRUCTION)
    {
      Read(Snapshot(), a)
    }

    /**
     * `implicit_write`: on success the registers are those `Write` describes; an address
     * without a case label raises illegal-instruction and changes nothing.
     */
    method ImplicitWrite(a: bv16, d: bv32) returns (r: Outcome<()>)
      requires Valid()
      modifies this, pmpcfg, pmpaddr
      ensures Valid()
      ensures r.Normal? == Write(old(Snapshot()), a, d).Normal?
      ensures r.Throw? ==> r == Raise(ILLEGAL_INSTRUCTION)
      ensures Snapshot() == WriteOrKeep(old(Snapshot()), a, d)
    {
      var name := NameOf(a);
      if name.None? {
        return Raise(ILLEGAL_INSTRUCTION);
      }
      r := Normal(());
      match name.value
      case Supervisor(x) => WriteSupervisor(x, d);
      case MachineSetup(x) => r := WriteSetup(x, d);
      case MachineHandling(x) => WriteHandling(x, d);
      case Pmpcfg(i) => pmpcfg[i] := d;
      case Pmpaddr(j) => pmpaddr[j] := d;
      case Count(x) => WriteCounter(x, d);
      case Timer(x) => WriteTimer(x, d);
      case ReadOnly(_) => r := Raise(ILLEGAL_INSTRUCTION);
    }

    method WriteSupervisor(x: SupervisorCsr, d: bv32)
      requires Valid()
      modifies this
      ensures Valid() && Snapshot() == WriteSupervisorRegs(old(Snapshot()), x, d)
    {
      match x
      case Sstatus => m := m.(mstatus := Merge(m.mstatus, d, SSTATUS_MASK));
      case Sie => m := m.(mie := Merge(m.mie, d, SIE_MASK));
      case Stvec => s := s.(stvec := d);
      case Scounteren => s := s.(scounteren := d);
      case Senvcfg => s := s.(senvcfg := Masked(d, 1));
      case Sscratch => s := s.(sscratch := d);
      case Sepc => s := s.(sepc := Masked(d, 0xFFFF_FFFC));
      case Scause => s := s.(scause := d);
      case Stval => s := s.(stval := d);
      case Sip => m := m.(mip := Merge(m.mip, d, SIP_MASK));
      case Satp => s := s.(satp := Masked(d, SATP_MASK));
    }

    method WriteSetup(x: MachineSetupCsr, d: bv32) returns (r: Outcome<()>)
      requires Valid()
      modifies this
      ensures Valid()
      ensures r.Normal? == WriteSetupRegs(old(Snapshot()), x, d).Normal?
      ensures r.Throw? ==> r == Raise(ILLEGAL_INSTRUCTION)
      ensures r.Normal? ==> Snapshot() == WriteSetupRegs(old(Snapshot()), x, d).value
      ensures r.Throw? ==> Snapshot() == old(Snapshot())
    {
      r := Normal(());
      match x
      case Mstatus => m := m.(mstatus := d);
      case Misa =>
      case Medeleg => m := m.(medeleg := Masked(d, MEDELEG_MASK));
      case Mideleg => m := m.(mideleg := Masked(d, INTERRUPT_MASK));
      case Mie => m := m.(mie := Masked(d, INTERRUPT_MASK));
      case Mtvec => m := m.(mtvec := d);
      case Menvcfg => m := m.(menvcfg := Masked(d, 1));
      case Mstatush =>
      case Menvcfgh =>
      case Mcountinhibit =>
      case Mcounteren => r := Raise(ILLEGAL_INSTRUCTION);
      case Mhpmevent => r := Raise(ILLEGAL_INSTRUCTION);
    }

    method WriteHandling(x: MachineHandlingCsr, d: bv32)
      requires Valid()
      modifies this
      ensures Valid() && Snapshot() == WriteHandlingRegs(old(Snapshot()), x, d)
    {
      match x
      case Mscratch => m := m.(mscratch := d);
      case Mepc => m := m.(mepc := Masked(d, 0xFFFF_FFFC));
      case Mcause => m := m.(mcause := d);
      case Mtval =>
      case Mip => m := m.(mip := Masked(d, MIP_WRITE_MASK));
    }

    method WriteCounter(x: CounterCsr, d: bv32)
      requires Valid()
      modifies this
      ensures Valid() && Snapshot() == WriteCounterHalves(old(Snapshot()), x, d)
    {
      match x
      case Mcycle => counters := counters.(mcycle := counters.mcycle.(low := d));
      case Minstret => counters := counters.(minstret := counters.minstret.(low := d));
      case Mcycleh => counters := counters.(mcycle := counters.mcycle.(high := d));
      case Minstreth => counters := counters.(minstret := counters.minstret.(high := d));
      case Mhpmcounter =>
      case Mhpmcounterh =>
      case Hpmcounter =>
    }

    method WriteTimer(x: TimerCsr, d: bv32)
      requires Valid()
      modifies this
      ensures Valid() && Snapshot() == WriteTimerRegs(old(Snapshot()), x, d)
    {
      match x
      case Mtime => counters := counters.(mtime := counters.mtime.(low := d));
      case Mtimeh => counters := counters.(mtime := counters.mtime.(high := d));
      case Mtimecmp =>
        counters := counters.(mtimecmp := counters.mtimecmp.(low := d));
        m := m.(mip := Masked(m.mip, MTIP_CLEAR));
      case Mtimecmph =>
        counters := counters.(mtimecmp := counters.mtimecmp.(high := d));
        m := m.(mip := Masked(m.mip, MTIP_CLEAR));
    }

    /** `explicit_read`. */
    function ExplicitReadCsr(a: bv16): (r: Outcome<bv32>)
      requires Valid()
      reads this, pmpcfg, pmpaddr
      ensures r.Normal? <==> CanRead(privilegeMode, a) && NameOf(a).Some?
      ensures r.Normal? ==> r == ImplicitRead(a)
      ensures r.Throw? ==> r == Raise(ILLEGAL_INSTRUCTION)
    {
      ExplicitRead(Snapshot(), a)
    }

    /** `explicit_write`: a refused write raises illegal-instruction and changes nothing. */
    method ExplicitWriteCsr(a: bv16, d: bv32) returns (r: Outcome<()>)
      requires Valid()
      modifies this, pmpcfg, pmpaddr
      ensures Valid()
      ensures r.Normal? == ExplicitWrite(old(Snapshot()), a, d).Normal?
      ensures r.Throw? ==> r == Raise(ILLEGAL_INSTRUCTION)
      ensures Snapshot() == (if r.Normal? then ExplicitWrite(old(Snapshot()), a, d).value else old(Snapshot()))
    {
      if !CanWrite(privilegeMode, a) {
        r := Raise(ILLEGAL_INSTRUCTION);
      } else {
        r := ImplicitWrite(a, d);
      }
    }
  }
}
