// IRVE: the timer part of the ACLINT. Four register offsets forward to the timer CSRs; the
// rest of the ACLINT (the other mtimecmp registers, the software-interrupt device) reads as
// 0 and ignores writes.

module IrveAclint {
  import opened Common
  import opened IrveTrap
  import opened IrveCsr
  import opened IrveCsrFacts

  // Register offsets from the start of the ACLINT region.
  const MTIMECMP_OFFSET: int := 0x4000
  const MTIMECMPH_OFFSET: int := 0x4004
  const MTIME_OFFSET: int := 0xBFF8
  const MTIMEH_OFFSET: int := 0xBFFC

  /** The timer register an offset forwards to, if any. */
  function TimerAt(offset: int): Option<TimerCsr>
  {
    if offset == MTIME_OFFSET then Some(Mtime)
    else if offset == MTIMEH_OFFSET then Some(Mtimeh)
    else if offset == MTIMECMP_OFFSET then Some(Mtimecmp)
    else if offset == MTIMECMPH_OFFSET then Some(Mtimecmph)
    else None
  }

  /** The address of the timer CSR an offset forwards to, if any. */
  function ForwardedTo(offset: int): (r: Option<bv16>)
    ensures r.Some? <==> offset in {MTIMECMP_OFFSET, MTIMECMPH_OFFSET, MTIME_OFFSET, MTIMEH_OFFSET}
    ensures r.Some? ==> NameOf(r.value) == Some(Timer(TimerAt(offset).value))
  {
    MachineTimerNames();
    if offset == MTIME_OFFSET then Some(MTIME)
    else if offset == MTIMEH_OFFSET then Some(MTIMEH)
    else if offset == MTIMECMP_OFFSET then Some(MTIMECMP)
    else if offset == MTIMECMPH_OFFSET then Some(MTIMECMPH)
    else None
  }

  /** `Aclint::read`: the timer register the offset forwards to, or 0. */
  function RegisterRead(c: CsrFile, offset: int): (r: bv32)
    ensures TimerAt(offset).None? ==> r == 0
  {
    match TimerAt(offset)
    case None => 0
    case Some(x) => ReadTimerRegs(c, x)
  }

  /** A forwarded read is the implicit read of the CSR, which cannot fail. */
  lemma RegisterReadForwards(c: CsrFile, offset: int)
    requires Wf(c) && ForwardedTo(offset).Some?
    ensures Read(c, ForwardedTo(offset).value) == Normal(RegisterRead(c, offset))
  {
  }

  /** `Aclint::write`: the timer register the offset forwards to, or no change. */
  function RegisterWrite(c: CsrFile, offset: int, d: bv32): (r: CsrFile)
    requires Wf(c)
    ensures Wf(r) && r.mode == c.mode
    ensures TimerAt(offset).None? ==> r == c
  {
    match TimerAt(offset)
    case None => c
    case Some(x) => WriteTimerRegs(c, x, d)
  }

  /** A forwarded write is the implicit write of the CSR, which cannot fail. */
  lemma RegisterWriteForwards(c: CsrFile, offset: int, d: bv32)
    requires Wf(c) && ForwardedTo(offset).Some?
    ensures Write(c, ForwardedTo(offset).value, d) == Normal(RegisterWrite(c, offset, d))
  {
  }

  /** The four forwarded offsets read the halves of mtime and mtimecmp. */
  lemma ForwardedReads(c: CsrFile)
    requires Wf(c)
    ensures RegisterRead(c, MTIME_OFFSET) == c.counters.mtime.low
    ensures RegisterRead(c, MTIMEH_OFFSET) == c.counters.mtime.high
    ensures RegisterRead(c, MTIMECMP_OFFSET) == c.counters.mtimecmp.low
    ensures RegisterRead(c, MTIMECMPH_OFFSET) == c.counters.mtimecmp.high
  {
  }

  /** A forwarded register reads back what was written to it. */
  lemma RegisterWriteReadsBack(c: CsrFile, offset: int, d: bv32)
    requires Wf(c) && ForwardedTo(offset).Some?
    ensures RegisterRead(RegisterWrite(c, offset, d), offset) == d
  {
  }

  /** Writing either half of mtimecmp clears the machine timer interrupt pending bit and nothing else in mip. */
  lemma CompareWriteClearsPending(c: CsrFile, offset: int, d: bv32)
    requires Wf(c) && offset in {MTIMECMP_OFFSET, MTIMECMPH_OFFSET}
    ensures TimerPendingCleared(c.m.mip, RegisterWrite(c, offset, d).m.mip)
  {
    var x := if offset == MTIMECMP_OFFSET then Mtimecmp else Mtimecmph;
    var r := RegisterWrite(c, offset, d);
    assert r == WriteTimerRegs(c, x, d);
    assert r.m.mip == Masked(c.m.mip, MTIP_CLEAR);
    ClearBit7(c.m.mip, r.m.mip);
  }

  /** The ACLINT device: it holds a reference to the CSR file, which owns the timer registers. */
  class Aclint {
    const csrs: Csr

    constructor (csrs: Csr)
      ensures this.csrs == csrs
    {
      this.csrs := csrs;
    }

    /** `read`: the offset must be 4-byte aligned; the implicit read it forwards to cannot fail. */
    function Read(offset: int): (r: Outcome<bv32>)
      requires csrs.Valid() && offset % 4 == 0
      reads csrs, csrs.pmpcfg, csrs.pmpaddr
      ensures r == Normal(RegisterRead(csrs.Snapshot(), offset))
    {
      var a := ForwardedTo(offset);
      if a.None? then Normal(0) else RegisterReadForwards(csrs.Snapshot(), offset); csrs.ImplicitRead(a.value)
    }

    /**
     * `write`: the offset must be 4-byte aligned. The implicit write it forwards to reaches a
     * timer register and cannot fail (RegisterWriteForwards), so it is made directly, and the
     * PMP registers are untouched.
     */
    method Write(offset: int, d: bv32)
      requires csrs.Valid() && offset % 4 == 0
      modifies csrs
      ensures csrs.Valid() && csrs.Snapshot() == RegisterWrite(old(csrs.Snapshot()), offset, d)
    {
      var x := TimerAt(offset);
      if x.Some? {
        csrs.WriteTimer(x.value, d);
      }
    }
  }
}
