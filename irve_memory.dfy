// IRVE: the physical memory map (two RAMs, the ACLINT, the UART and the debug-output address),
// Sv32 address translation (section 4.3 of the RISC-V Privileged Architecture, version
// 20211203), and the load, store and instruction-fetch accesses built on them.
//
// Physical addresses are up to 34 bits wide and are integers here; a virtual address is a
// 32-bit word whose page number and offset are taken arithmetically.

module IrveMemory {
  import opened Common
  import opened IrveTrap
  import opened IrveWord
  import opened IrveCsr
  import opened IrveAclint
  import XrveRam

  // The memory map.
  const USER_RAM_START: int := 0
  const USER_RAM_END: int := 0x03FF_FFFF
  const KERNEL_RAM_START: int := 0x8000_0000
  const KERNEL_RAM_END: int := 0x83FF_FFFF
  const RAM_SIZE: int := 0x0400_0000
  const ACLINT_START: int := 0xF000_0000
  const ACLINT_END: int := 0xF000_BFFF
  const UART_START: int := 0xF100_0000
  const UART_END: int := 0xF100_0007
  const DEBUG_ADDR: int := 0xFFFF_FFFF
  /** Machine addresses are 34 bits wide; `read_memory` and `write_memory` assert it. */
  const PHYSICAL_LIMIT: int := 0x4_0000_0000

  const PAGESIZE: int := 0x1000

  // The debug-output characters with a meaning of their own, and what a carriage return becomes.
  const NEWLINE: bv8 := 0x0A
  const NUL: bv8 := 0x00
  const CARRIAGE_RETURN: bv8 := 0x0D
  /** ESC "[0m" "\r" ESC "[1m": a visible `\r`, not bold. */
  const CARRIAGE_RETURN_ESCAPE: seq<bv8> := [0x1B, 0x5B, 0x30, 0x6D, 0x5C, 0x72, 0x1B, 0x5B, 0x31, 0x6D]

  /** The access types; their numeric codes select the page-fault cause. */
  datatype AccessType = InstructionAccess | LoadAccess | StoreAccess

  function Code(at: AccessType): int
  {
    match at
    case InstructionAccess => 0
    case LoadAccess => 1
    case StoreAccess => 3
  }

  /** The page-fault cause of an access type: 12 plus its code. */
  function PageFault(at: AccessType): bv32
  {
    (12 + Code(at)) as bv32
  }

  /** The access-fault cause of an access type. */
  function AccessFault(at: AccessType): bv32
  {
    match at
    case InstructionAccess => INSTRUCTION_ACCESS_FAULT
    case LoadAccess => LOAD_ACCESS_FAULT
    case StoreAccess => STORE_OR_AMO_ACCESS_FAULT
  }

  /**
   * The outcome of a physical access. `Aborted` stands for a failed assertion of the source:
   * an address of 34 bits or more, the unimplemented UART region and an impossible data type.
   */
  datatype Status = Okay | Misaligned | ViolatesPma | Aborted

  /**
   * The state a physical access sees: the CSRs (the ACLINT's registers live there), the two
   * RAMs, the debug-output line being collected and the lines printed so far.
   */
  datatype MemState = MemState(csr: CsrFile, user: seq<bv8>, kernel: seq<bv8>, line: seq<bv8>, printed: seq<seq<bv8>>)

  predicate WellFormed(m: MemState)
  {
    Wf(m.csr) && |m.user| == RAM_SIZE && |m.kernel| == RAM_SIZE
  }

  datatype Reading = Reading(data: bv32, status: Status)

  datatype Writing = Writing(mem: MemState, status: Status)

  // RAM accesses.

  /** A halfword access at an odd address, or a word access at an address not divisible by 4. */
  predicate MisalignedFor(addr: int, dt: bv8)
  {
    ((dt & 3) == DT_HALFWORD && addr % 2 != 0) || (dt == DT_WORD && addr % 4 != 0)
  }

  /**
   * A read of the RAM starting at physical address `start`: a misaligned access reads 0;
   * otherwise the little-endian value of the data type, zero- or sign-extended.
   */
  function RamRead(ram: seq<bv8>, start: int, addr: int, dt: bv8): (r: Reading)
    requires |ram| == RAM_SIZE && start % 4 == 0 && start <= addr < start + RAM_SIZE
  {
    var i := addr - start;
    if MisalignedFor(addr, dt) then Reading(0, Misaligned)
    else if dt == DT_WORD then Reading(XrveRam.Le32(ram[i], ram[i + 1], ram[i + 2], ram[i + 3]), Okay)
    else if dt == DT_UNSIGNED_HALFWORD then Reading(XrveRam.Le32(ram[i], ram[i + 1], 0, 0), Okay)
    else if dt == DT_SIGNED_HALFWORD then Reading(SignExtendFromBit(XrveRam.Le32(ram[i], ram[i + 1], 0, 0), 15), Okay)
    else if dt == DT_UNSIGNED_BYTE then Reading(XrveRam.Le32(ram[i], 0, 0, 0), Okay)
    else if dt == DT_SIGNED_BYTE then Reading(SignExtendFromBit(XrveRam.Le32(ram[i], 0, 0, 0), 7), Okay)
    else Reading(0, Aborted)
  }

  /** The bytes a store of the data type writes, lowest address first: the low bytes of the word. */
  function StoredBytes(dt: bv8, d: bv32): (r: seq<bv8>)
    requires dt <= DT_WORD
    ensures |r| == if dt == DT_WORD then 4 else if dt == DT_HALFWORD then 2 else 1
  {
    XrveRam.WordBytes(d)[..if dt == DT_WORD then 4 else if dt == DT_HALFWORD then 2 else 1]
  }

  /**
   * A write to the RAM: the bytes are written even when the access is misaligned. A misaligned
   * access at the very end of a RAM writes past its buffer in the source; here the bytes that
   * would fall outside are dropped.
   */
  function RamWrite(ram: seq<bv8>, start: int, addr: int, dt: bv8, d: bv32): (r: (seq<bv8>, Status))
    requires |ram| == RAM_SIZE && start % 4 == 0 && start <= addr < start + RAM_SIZE
    ensures |r.0| == RAM_SIZE
  {
    var i := addr - start;
    if dt > DT_WORD then (ram, Aborted)
    else
      var bytes := StoredBytes(dt, d);
      var n := if i + |bytes| <= RAM_SIZE then |bytes| else RAM_SIZE - i;
      (XrveRam.Splice(ram, i, bytes[..n]), if MisalignedFor(addr, dt) then Misaligned else Okay)
  }

  // The ACLINT region: word accesses only.

  function AclintRead(c: CsrFile, addr: int, dt: bv8): Reading
    requires Wf(c)
  {
    if dt != DT_WORD then Reading(0, ViolatesPma)
    else if addr % 4 != 0 then Reading(0, Misaligned)
    else Reading(RegisterRead(c, addr - ACLINT_START), Okay)
  }

  function AclintWrite(c: CsrFile, addr: int, dt: bv8, d: bv32): (CsrFile, Status)
    requires Wf(c)
  {
    if dt != DT_WORD then (c, ViolatesPma)
    else if addr % 4 != 0 then (c, Misaligned)
    else (RegisterWrite(c, addr - ACLINT_START, d), Okay)
  }

  /**
   * The debug-output address takes byte writes only. A newline or a NUL prints the line and
   * starts a new one, a carriage return appends a visible escape, anything else is appended.
   */
  function DebugWrite(m: MemState, dt: bv8, d: bv32): Writing
  {
    if dt != DT_BYTE then Writing(m, ViolatesPma)
    else
      var ch := (d & 0xFF) as bv8;
      if ch == NEWLINE || ch == NUL then Writing(m.(line := [], printed := m.printed + [m.line]), Okay)
      else if ch == CARRIAGE_RETURN then Writing(m.(line := m.line + CARRIAGE_RETURN_ESCAPE), Okay)
      else Writing(m.(line := m.line + [ch]), Okay)
  }

  /**
   * `read_memory`: an address wider than 34 bits fails the assertion; otherwise route the read
   * by region, and anything unmapped violates the PMAs.
   */
  function ReadPhysical(m: MemState, addr: int, dt: bv8): (r: Reading)
    requires WellFormed(m) && 0 <= addr
    ensures r.status != Okay ==> r.data == 0
  {
    if addr >= PHYSICAL_LIMIT then Reading(0, Aborted)
    else if addr <= USER_RAM_END then RamRead(m.user, USER_RAM_START, addr, dt)
    else if KERNEL_RAM_START <= addr <= KERNEL_RAM_END then RamRead(m.kernel, KERNEL_RAM_START, addr, dt)
    else if ACLINT_START <= addr <= ACLINT_END then AclintRead(m.csr, addr, dt)
    else if UART_START <= addr <= UART_END then Reading(0, Aborted)
    else Reading(0, ViolatesPma)
  }

  /**
   * `write_memory`: an address wider than 34 bits fails the assertion; otherwise route the write
   * by region, and the debug address is writable only.
   */
  function WritePhysical(m: MemState, addr: int, dt: bv8, d: bv32): (r: Writing)
    requires WellFormed(m) && 0 <= addr
    ensures WellFormed(r.mem) && r.mem.csr.mode == m.csr.mode
  {
    if addr >= PHYSICAL_LIMIT then Writing(m, Aborted)
    else if addr <= USER_RAM_END then
      var (ram, status) := RamWrite(m.user, USER_RAM_START, addr, dt, d);
      Writing(m.(user := ram), status)
    else if KERNEL_RAM_START <= addr <= KERNEL_RAM_END then
      var (ram, status) := RamWrite(m.kernel, KERNEL_RAM_START, addr, dt, d);
      Writing(m.(kernel := ram), status)
    else if ACLINT_START <= addr <= ACLINT_END then
      var (c, status) := AclintWrite(m.csr, addr, dt, d);
      Writing(m.(csr := c), status)
    else if UART_START <= addr <= UART_END then Writing(m, Aborted)
    else if addr == DEBUG_ADDR then DebugWrite(m, dt, d)
    else Writing(m, ViolatesPma)
  }

  // Sv32: the fields of virtual addresses, page-table entries, satp and mstatus.

  /** VPN[1] is bits 31:22 of the virtual address, VPN[0] bits 21:12. */
  function Vpn(va: bv32, i: int): (r: int)
    requires 0 <= i <= 1
    ensures 0 <= r < 1024
  {
    if i == 1 then va as int / 0x40_0000 else (va as int / PAGESIZE) % 1024
  }

  function PageOffset(va: bv32): (r: int)
    ensures 0 <= r < PAGESIZE
  {
    va as int % PAGESIZE
  }

  /** The page-table entry's physical page number, bits 31:10, and its halves PPN[1] (31:20) and PPN[0] (19:10). */
  function Ppn(pte: bv32): (r: int)
    ensures 0 <= r < 0x40_0000
  {
    pte as int / 1024
  }

  function Ppn1(pte: bv32): (r: int)
    ensures 0 <= r < 0x1000
  {
    pte as int / 0x10_0000
  }

  function Ppn0(pte: bv32): (r: int)
    ensures 0 <= r < 1024
  {
    Ppn(pte) % 1024
  }

  predicate Valid(pte: bv32) { pte & 0x01 != 0 }
  predicate Readable(pte: bv32) { pte & 0x02 != 0 }
  predicate Writable(pte: bv32) { pte & 0x04 != 0 }
  predicate Executable(pte: bv32) { pte & 0x08 != 0 }
  predicate UserPage(pte: bv32) { pte & 0x10 != 0 }
  predicate Accessed(pte: bv32) { pte & 0x40 != 0 }
  predicate Dirty(pte: bv32) { pte & 0x80 != 0 }

  /** An entry that is not valid, or writable but not readable, is reserved: the walk faults. */
  predicate Faulting(pte: bv32)
  {
    !Valid(pte) || (!Readable(pte) && Writable(pte))
  }

  /** An entry that is readable or executable is a leaf; otherwise it points to the next level. */
  predicate Leaf(pte: bv32)
  {
    Readable(pte) || Executable(pte)
  }

  /** satp.MODE (bit 31) selects Sv32; satp.PPN is bits 21:0. */
  predicate Sv32(c: CsrFile) { c.s.satp & 0x8000_0000 != 0 }

  function RootPpn(c: CsrFile): (r: int)
    ensures 0 <= r < 0x40_0000
  {
    c.s.satp as int % 0x40_0000
  }

  predicate Mxr(c: CsrFile) { c.m.mstatus & 0x8_0000 != 0 }
  predicate Sum(c: CsrFile) { c.m.mstatus & 0x4_0000 != 0 }
  predicate Mprv(c: CsrFile) { c.m.mstatus & 0x2_0000 != 0 }

  function Mpp(c: CsrFile): bv8
  {
    ((c.m.mstatus >> 11) & 3) as bv8
  }

  /**
   * `no_address_translation`: with MPRV set, loads and stores are untranslated iff MPP is
   * machine mode or satp selects Bare; otherwise iff the current mode is machine mode or satp
   * selects Bare.
   */
  predicate NoTranslation(c: CsrFile, at: AccessType)
  {
    if Mprv(c) && at != InstructionAccess then Mpp(c) == MACHINE_MODE || !Sv32(c)
    else c.mode == MACHINE_MODE || !Sv32(c)
  }

  /** The privilege mode whose permissions a translated access is checked against. */
  function EffectiveMode(c: CsrFile, at: AccessType): bv8
  {
    if Mprv(c) && at != InstructionAccess then Mpp(c) else c.mode
  }

  /**
   * The permission check of the source's `ACCESS_NOT_ALLOWED`: a fetch needs X, a store W, a
   * load R (or X with MXR set), and supervisor mode (also through MPRV with MPP = S) may not
   * touch a user page unless SUM is set. It has no clause for user mode touching a page
   * without U.
   */
  predicate AccessNotAllowedAsWritten(c: CsrFile, pte: bv32, at: AccessType)
  {
    (at == InstructionAccess && !Executable(pte)) ||
    (at == StoreAccess && !Writable(pte)) ||
    (at == LoadAccess && !Readable(pte) && (!Mxr(c) || !Executable(pte))) ||
    ((c.mode == SUPERVISOR_MODE || (at != InstructionAccess && Mpp(c) == SUPERVISOR_MODE && Mprv(c)))
     && !Sum(c) && UserPage(pte))
  }

  /** The permission check with the missing clause: a user-mode access needs a user page. */
  predicate AccessNotAllowed(c: CsrFile, pte: bv32, at: AccessType)
  {
    AccessNotAllowedAsWritten(c, pte, at) || (EffectiveMode(c, at) == USER_MODE && !UserPage(pte))
  }

  /** The leaf entry a walk finds, and the level (1 for a 4 MiB superpage, 0 for a 4 KiB page). */
  datatype Found = Found(pte: bv32, level: int)

  /** What one level of the walk does with the entry it read: end with a result, or descend to the next table. */
  datatype Level = End(result: Outcome<Found>) | Descend(next: int)

  /**
   * Steps 2 to 4 at level `i` on the entry read: an access that failed is an access fault; a
   * reserved entry is a page fault; a leaf ends the walk; otherwise descend to the table at the
   * entry's PPN, and a non-leaf entry at level 0 is a page fault.
   */
  function WalkStep(entry: Reading, at: AccessType, i: int): (s: Level)
    ensures s.End? && s.result.Normal? ==> Leaf(s.result.value.pte) && !Faulting(s.result.value.pte) && s.result.value.level == i
    ensures s.Descend? ==> i != 0 && 0 <= s.next
  {
    if entry.status == Aborted then End(Throw(AssertionFailure))
    else if entry.status != Okay then End(Raise(AccessFault(at)))
    else if Faulting(entry.data) then End(Raise(PageFault(at)))
    else if Leaf(entry.data) then End(Normal(Found(entry.data, i)))
    else if i == 0 then End(Raise(PageFault(at)))
    else Descend(Ppn(entry.data) * PAGESIZE)
  }

  /** The Sv32 walk from level `i` with the table at physical address `a`; the entry is at `a + VPN[i]*4`. */
  function Walk(m: MemState, va: bv32, at: AccessType, a: int, i: int): (r: Outcome<Found>)
    requires WellFormed(m) && 0 <= a && 0 <= i <= 1
    ensures r.Normal? ==> Leaf(r.value.pte) && !Faulting(r.value.pte) && 0 <= r.value.level <= i
    decreases i
  {
    match WalkStep(ReadPhysical(m, a + Vpn(va, i) * 4, DT_WORD), at, i)
    case End(r) => r
    case Descend(next) => Walk(m, va, at, next, i - 1)
  }

  /**
   * Step 8: the page offset, joined with VPN[0] and PPN[1] for a superpage or with the whole
   * PPN for a 4 KiB page (the fields occupy disjoint bits, so the source's `|` is a sum).
   */
  function PhysicalAddress(va: bv32, f: Found): int
  {
    PageOffset(va) + if f.level == 1 then Vpn(va, 0) * PAGESIZE + Ppn1(f.pte) * 0x40_0000 else Ppn(f.pte) * PAGESIZE
  }

  /** Steps 5 to 7 on the leaf: permissions, then a misaligned superpage, then the A and D bits. */
  function CheckLeaf(c: CsrFile, va: bv32, at: AccessType, f: Found): (r: Outcome<int>)
    requires 0 <= f.level <= 1
    ensures r.Normal? ==> 0 <= r.value < 0x4_0000_0000
  {
    if AccessNotAllowed(c, f.pte, at) then Raise(PageFault(at))
    else if f.level == 1 && Ppn0(f.pte) != 0 then Raise(PageFault(at))
    else if !Accessed(f.pte) || (at == StoreAccess && !Dirty(f.pte)) then Raise(PageFault(at))
    else Normal(PhysicalAddress(va, f))
  }

  /** `translate_address`: a translated address is at most 34 bits wide. */
  function Translate(m: MemState, va: bv32, at: AccessType): (r: Outcome<int>)
    requires WellFormed(m)
    ensures r.Normal? ==> 0 <= r.value < 0x4_0000_0000
  {
    if NoTranslation(m.csr, at) then Normal(va as int)
    else
      match Walk(m, va, at, RootPpn(m.csr) * PAGESIZE, 1)
      case Throw(t) => Throw(t)
      case Normal(f) => CheckLeaf(m.csr, va, at, f)
  }

  /** The exception a failed physical access raises, given the access-fault and misaligned causes. */
  function Fail<T>(status: Status, accessFault: bv32, misaligned: bv32): Outcome<T>
    requires status != Okay
  {
    match status
    case Aborted => Throw(AssertionFailure)
    case ViolatesPma => Raise(accessFault)
    case Misaligned => Raise(misaligned)
  }

  /** `instruction`: a translated word read. */
  function FetchSpec(m: MemState, va: bv32): (r: Outcome<bv32>)
    requires WellFormed(m)
    ensures r.Normal? <==> (Translate(m, va, InstructionAccess).Normal? &&
      ReadPhysical(m, Translate(m, va, InstructionAccess).value, DT_WORD).status == Okay)
    ensures r.Normal? ==> r.value == ReadPhysical(m, Translate(m, va, InstructionAccess).value, DT_WORD).data
  {
    match Translate(m, va, InstructionAccess)
    case Throw(t) => Throw(t)
    case Normal(pa) =>
      var r := ReadPhysical(m, pa, DT_WORD);
      if r.status == Okay then Normal(r.data) else Fail(r.status, INSTRUCTION_ACCESS_FAULT, INSTRUCTION_ADDRESS_MISALIGNED)
  }

  /** `load`: a translated read of the data type. */
  function LoadSpec(m: MemState, va: bv32, dt: bv8): (r: Outcome<bv32>)
    requires WellFormed(m)
    ensures r.Normal? <==> (Translate(m, va, LoadAccess).Normal? &&
      ReadPhysical(m, Translate(m, va, LoadAccess).value, dt).status == Okay)
    ensures r.Normal? ==> r.value == ReadPhysical(m, Translate(m, va, LoadAccess).value, dt).data
  {
    match Translate(m, va, LoadAccess)
    case Throw(t) => Throw(t)
    case Normal(pa) =>
      var r := ReadPhysical(m, pa, dt);
      if r.status == Okay then Normal(r.data) else Fail(r.status, LOAD_ACCESS_FAULT, LOAD_ADDRESS_MISALIGNED)
  }

  /** The state after a store and what the store raised; a misaligned RAM store changes the RAM and raises. */
  datatype Stored = Stored(mem: MemState, result: Outcome<()>)

  /** `store`: a translated write of the data type. */
  function StoreSpec(m: MemState, va: bv32, dt: bv8, d: bv32): (r: Stored)
    requires WellFormed(m)
    ensures WellFormed(r.mem) && r.mem.csr.mode == m.csr.mode
  {
    match Translate(m, va, StoreAccess)
    case Throw(t) => Stored(m, Throw(t))
    case Normal(pa) =>
      var w := WritePhysical(m, pa, dt, d);
      Stored(w.mem, if w.status == Okay then Normal(()) else Fail(w.status, STORE_OR_AMO_ACCESS_FAULT, STORE_OR_AMO_ADDRESS_MISALIGNED))
  }

  /**
   * The memory: it holds references to the CSR file (for satp, mstatus and the privilege
   * mode) and to the ACLINT, the two RAM buffers and the debug-output line buffer.
   */
  class Memory {
    const csr: Csr
    const aclint: Aclint
    const userRam: array<bv8>
    const kernelRam: array<bv8>
    var line: seq<bv8>
    var printed: seq<seq<bv8>>

    ghost predicate Valid()
      reads this, csr
    {
      csr.Valid() && aclint.csrs == csr && userRam.Length == RAM_SIZE && kernelRam.Length == RAM_SIZE &&
      userRam != kernelRam
    }

    /** The state the accesses see. */
    function Snapshot(): (m: MemState)
      requires Valid()
      reads this, csr, csr.pmpcfg, csr.pmpaddr, userRam, kernelRam
      ensures WellFormed(m)
    {
      MemState(csr.Snapshot(), userRam[..], kernelRam[..], line, printed)
    }

    /**
     * The source fills both RAMs with pseudo-random bytes; `user0` and `kernel0` stand for
     * those bytes.
     */
    constructor (csr: Csr, user0: seq<bv8>, kernel0: seq<bv8>)
      requires csr.Valid() && |user0| == RAM_SIZE && |kernel0| == RAM_SIZE
      ensures Valid() && this.csr == csr && fresh(userRam) && fresh(kernelRam)
      ensures Snapshot() == MemState(csr.Snapshot(), user0, kernel0, [], [])
    {
      this.csr := csr;
      aclint := new Aclint(csr);
      userRam := new bv8[RAM_SIZE](k requires 0 <= k < RAM_SIZE => user0[k]);
      kernelRam := new bv8[RAM_SIZE](k requires 0 <= k < RAM_SIZE => kernel0[k]);
      line := [];
      printed := [];
    }

    /** `read_memory_region_user_ram` and `read_memory_region_kernel_ram`, for the RAM `ram` at `start`. */
    method ReadRam(ram: array<bv8>, start: int, addr: int, dt: bv8) returns (r: Reading)
      requires ram.Length == RAM_SIZE && start % 4 == 0 && start <= addr < start + RAM_SIZE
      ensures r == RamRead(ram[..], start, addr, dt)
    {
      if MisalignedFor(addr, dt) {
        return Reading(0, Misaligned);
      }
      var i := addr - start;
      if dt == DT_WORD {
        r := Reading(XrveRam.Le32(ram[i], ram[i + 1], ram[i + 2], ram[i + 3]), Okay);
      } else if dt == DT_UNSIGNED_HALFWORD {
        r := Reading(XrveRam.Le32(ram[i], ram[i + 1], 0, 0), Okay);
      } else if dt == DT_SIGNED_HALFWORD {
        r := Reading(SignExtendFromBit(XrveRam.Le32(ram[i], ram[i + 1], 0, 0), 15), Okay);
      } else if dt == DT_UNSIGNED_BYTE {
        r := Reading(XrveRam.Le32(ram[i], 0, 0, 0), Okay);
      } else if dt == DT_SIGNED_BYTE {
        r := Reading(SignExtendFromBit(XrveRam.Le32(ram[i], 0, 0, 0), 7), Okay);
      } else {
        r := Reading(0, Aborted);
      }
    }

    /** `write_memory_region_user_ram` and `write_memory_region_kernel_ram`: the bytes are stored even when misaligned. */
    method WriteRam(ram: array<bv8>, start: int, addr: int, dt: bv8, d: bv32) returns (status: Status)
      requires ram.Length == RAM_SIZE && start % 4 == 0 && start <= addr < start + RAM_SIZE
      modifies ram
      ensures (ram[..], status) == RamWrite(old(ram[..]), start, addr, dt, d)
    {
      status := if MisalignedFor(addr, dt) then Misaligned else Okay;
      if dt > DT_WORD {
        return Aborted;
      }
      var i := addr - start;
      var bytes := StoredBytes(dt, d);
      var n := if i + |bytes| <= RAM_SIZE then |bytes| else RAM_SIZE - i;
      forall k | i <= k < i + n {
        ram[k] := bytes[k - i];
      }
      assert ram[..] == XrveRam.Splice(old(ram[..]), i, bytes[..n]);
    }

    /** `read_memory_region_aclint`. */
    method ReadAclint(addr: int, dt: bv8) returns (r: Reading)
      requires Valid()
      ensures r == AclintRead(csr.Snapshot(), addr, dt)
    {
      if dt != DT_WORD {
        return Reading(0, ViolatesPma);
      }
      if addr % 4 != 0 {
        return Reading(0, Misaligned);
      }
      var data := aclint.Read(addr - ACLINT_START);
      r := Reading(data.value, Okay);
    }

    /** `write_memory_region_aclint`. */
    method WriteAclint(addr: int, dt: bv8, d: bv32) returns (status: Status)
      requires Valid()
      modifies csr
      ensures Valid() && (csr.Snapshot(), status) == AclintWrite(old(csr.Snapshot()), addr, dt, d)
    {
      if dt != DT_WORD {
        return ViolatesPma;
      }
      if addr % 4 != 0 {
        return Misaligned;
      }
      aclint.Write(addr - ACLINT_START, d);
      status := Okay;
    }

    /** `write_memory_region_debug`. */
    method WriteDebug(dt: bv8, d: bv32) returns (status: Status)
      requires Valid()
      modifies this
      ensures Valid()
      ensures Writing(Snapshot(), status) == DebugWrite(old(Snapshot()), dt, d)
    {
      if dt != DT_BYTE {
        return ViolatesPma;
      }
      var ch := (d & 0xFF) as bv8;
      if ch == NEWLINE || ch == NUL {
        printed := printed + [line];
        line := [];
      } else if ch == CARRIAGE_RETURN {
        line := line + CARRIAGE_RETURN_ESCAPE;
      } else {
        line := line + [ch];
      }
      status := Okay;
    }

    /** `read_memory`. */
    method ReadMemory(addr: int, dt: bv8) returns (r: Reading)
      requires Valid() && 0 <= addr
      ensures r == ReadPhysical(Snapshot(), addr, dt)
    {
      if addr >= PHYSICAL_LIMIT {
        r := Reading(0, Aborted);
      } else if addr <= USER_RAM_END {
        r := ReadRam(userRam, USER_RAM_START, addr, dt);
      } else if KERNEL_RAM_START <= addr <= KERNEL_RAM_END {
        r := ReadRam(kernelRam, KERNEL_RAM_START, addr, dt);
      } else if ACLINT_START <= addr <= ACLINT_END {
        r := ReadAclint(addr, dt);
      } else if UART_START <= addr <= UART_END {
        r := Reading(0, Aborted);
      } else {
        r := Reading(0, ViolatesPma);
      }
      if r.status != Okay {
        r := Reading(0, r.status);
      }
    }

    /** `write_memory`. */
    method WriteMemory(addr: int, dt: bv8, d: bv32) returns (status: Status)
      requires Valid() && 0 <= addr
      modifies this, csr, userRam, kernelRam
      ensures Valid()
      ensures Writing(Snapshot(), status) == WritePhysical(old(Snapshot()), addr, dt, d)
    {
      if addr >= PHYSICAL_LIMIT {
        status := Aborted;
      } else if addr <= USER_RAM_END {
        status := WriteRam(userRam, USER_RAM_START, addr, dt, d);
      } else if KERNEL_RAM_START <= addr <= KERNEL_RAM_END {
        status := WriteRam(kernelRam, KERNEL_RAM_START, addr, dt, d);
      } else if ACLINT_START <= addr <= ACLINT_END {
        status := WriteAclint(addr, dt, d);
      } else if UART_START <= addr <= UART_END {
        status := Aborted;
      } else if addr == DEBUG_ADDR {
        status := WriteDebug(dt, d);
      } else {
        status := ViolatesPma;
      }
    }

    /** Steps 2 to 4 of `translate_address`: the loop over the levels of the page table. */
    method WalkTable(ghost m: MemState, va: bv32, at: AccessType, root: int) returns (r: Outcome<Found>)
      requires Valid() && m == Snapshot() && 0 <= root
      ensures r == Walk(m, va, at, root, 1)
    {
      var a := root;
      var i := 1;
      while true
        invariant 0 <= i <= 1 && 0 <= a
        invariant Walk(m, va, at, root, 1) == Walk(m, va, at, a, i)
        decreases i
      {
        var entry := ReadMemory(a + Vpn(va, i) * 4, DT_WORD);
        assert entry == ReadPhysical(m, a + Vpn(va, i) * 4, DT_WORD);
        match WalkStep(entry, at, i)
        case End(result) =>
          return result;
        case Descend(next) =>
          a, i := next, i - 1;
      }
    }

    /** `translate_address`: no translation, or the walk followed by the checks on the leaf. */
    method TranslateAddress(va: bv32, at: AccessType) returns (r: Outcome<int>)
      requires Valid()
      ensures r == Translate(Snapshot(), va, at)
    {
      var c := csr.Snapshot();
      if NoTranslation(c, at) {
        return Normal(va as int);
      }
      var found := WalkTable(Snapshot(), va, at, RootPpn(c) * PAGESIZE);
      if found.Throw? {
        return Throw(found.thrown);
      }
      var pte, i := found.value.pte, found.value.level;
      if AccessNotAllowed(c, pte, at) {
        return Raise(PageFault(at));
      }
      if i == 1 && Ppn0(pte) != 0 {
        return Raise(PageFault(at));
      }
      if !Accessed(pte) || (at == StoreAccess && !Dirty(pte)) {
        return Raise(PageFault(at));
      }
      r := Normal(PhysicalAddress(va, found.value));
    }

    /** `instruction`. */
    method Instruction(va: bv32) returns (r: Outcome<bv32>)
      requires Valid()
      ensures r == FetchSpec(Snapshot(), va)
    {
      var t := TranslateAddress(va, InstructionAccess);
      if t.Throw? {
        return Throw(t.thrown);
      }
      var data := ReadMemory(t.value, DT_WORD);
      if data.status == Okay {
        r := Normal(data.data);
      } else {
        r := Fail(data.status, INSTRUCTION_ACCESS_FAULT, INSTRUCTION_ADDRESS_MISALIGNED);
      }
    }

    /** `load`: the data type is one of the source's eight codes except 6. */
    method Load(va: bv32, dt: bv8) returns (r: Outcome<bv32>)
      requires Valid() && dt <= 7 && dt != 6
      ensures r == LoadSpec(Snapshot(), va, dt)
    {
      var t := TranslateAddress(va, LoadAccess);
      if t.Throw? {
        return Throw(t.thrown);
      }
      var data := ReadMemory(t.value, dt);
      if data.status == Okay {
        r := Normal(data.data);
      } else {
        r := Fail(data.status, LOAD_ACCESS_FAULT, LOAD_ADDRESS_MISALIGNED);
      }
    }

    /** `store`: the data type is a byte, a halfword or a word. */
    method Store(va: bv32, dt: bv8, d: bv32) returns (r: Outcome<()>)
      requires Valid() && dt <= DT_WORD
      modifies this, csr, userRam, kernelRam
      ensures Valid()
      ensures Stored(Snapshot(), r) == StoreSpec(old(Snapshot()), va, dt, d)
    {
      var t := TranslateAddress(va, StoreAccess);
      if t.Throw? {
        return Throw(t.thrown);
      }
      var status := WriteMemory(t.value, dt, d);
      if status == Okay {
        r := Normal(());
      } else {
        r := Fail(status, STORE_OR_AMO_ACCESS_FAULT, STORE_OR_AMO_ADDRESS_MISALIGNED);
      }
    }
  }
}
