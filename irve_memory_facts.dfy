// IRVE: what the memory promises — RAM round trips, the routing of physical addresses, the
// debug-output device, and the Sv32 translation, including the examples of the unit tests.

module IrveMemoryFacts {
  import opened Common
  import opened IrveTrap
  import opened IrveWord
  import opened IrveCsr
  import opened IrveAclint
  import opened IrveMemory
  import XrveRam

  /** The page-fault causes: 12 for a fetch, 13 for a load, 15 for a store. */
  lemma PageFaultCauses()
    ensures PageFault(InstructionAccess) == INSTRUCTION_PAGE_FAULT
    ensures PageFault(LoadAccess) == LOAD_PAGE_FAULT
    ensures PageFault(StoreAccess) == STORE_OR_AMO_PAGE_FAULT
  {
  }

  // RAM.

  /** The low halfword and the low byte of a little-endian word are its first two bytes and its first byte. */
  lemma LowBytes(b0: bv8, b1: bv8, b2: bv8, b3: bv8)
    ensures XrveRam.Le32(b0, b1, 0, 0) == XrveRam.Le32(b0, b1, b2, b3) & 0xFFFF
    ensures XrveRam.Le32(b0, 0, 0, 0) == XrveRam.Le32(b0, b1, b2, b3) & 0xFF
  {
  }

  /** An aligned word store reads back as the word, and no other byte of the RAM changes. */
  lemma RamWordRoundTrip(ram: seq<bv8>, start: int, addr: int, d: bv32)
    requires |ram| == RAM_SIZE && start % 4 == 0 && start <= addr < start + RAM_SIZE && addr % 4 == 0
    ensures RamWrite(ram, start, addr, DT_WORD, d).1 == Okay
    ensures RamRead(RamWrite(ram, start, addr, DT_WORD, d).0, start, addr, DT_WORD) == Reading(d, Okay)
    ensures forall k :: 0 <= k < RAM_SIZE && !(addr - start <= k < addr - start + 4) ==>
      RamWrite(ram, start, addr, DT_WORD, d).0[k] == ram[k]
  {
    var i := addr - start;
    assert StoredBytes(DT_WORD, d) == XrveRam.WordBytes(d);
    XrveRam.WordRoundTrip(ram, i, d);
  }

  /**
   * An aligned halfword store reads back as the low halfword of the stored word, zero- or
   * sign-extended, and no other byte of the RAM changes.
   */
  lemma {:induction false} RamHalfwordRoundTrip(ram: seq<bv8>, start: int, addr: int, d: bv32)
    requires |ram| == RAM_SIZE && start % 4 == 0 && start <= addr < start + RAM_SIZE && addr % 2 == 0
    ensures RamWrite(ram, start, addr, DT_HALFWORD, d).1 == Okay
    ensures RamRead(RamWrite(ram, start, addr, DT_HALFWORD, d).0, start, addr, DT_UNSIGNED_HALFWORD) == Reading(d & 0xFFFF, Okay)
    ensures RamRead(RamWrite(ram, start, addr, DT_HALFWORD, d).0, start, addr, DT_SIGNED_HALFWORD)
      == Reading(SignExtendFromBit(d & 0xFFFF, 15), Okay)
    ensures forall k :: 0 <= k < RAM_SIZE && !(addr - start <= k < addr - start + 2) ==>
      RamWrite(ram, start, addr, DT_HALFWORD, d).0[k] == ram[k]
  {
    var i := addr - start;
    var b := XrveRam.WordBytes(d);
    var t := RamWrite(ram, start, addr, DT_HALFWORD, d).0;
    assert t == XrveRam.Splice(ram, i, b[..2]);
    assert t[i] == b[0] && t[i + 1] == b[1];
    LowBytes(b[0], b[1], b[2], b[3]);
  }

  /**
   * A byte store reads back as the low byte of the stored word, zero- or sign-extended, and no
   * other byte of the RAM changes.
   */
  lemma {:induction false} RamByteRoundTrip(ram: seq<bv8>, start: int, addr: int, d: bv32)
    requires |ram| == RAM_SIZE && start % 4 == 0 && start <= addr < start + RAM_SIZE
    ensures RamWrite(ram, start, addr, DT_BYTE, d).1 == Okay
    ensures RamRead(RamWrite(ram, start, addr, DT_BYTE, d).0, start, addr, DT_UNSIGNED_BYTE) == Reading(d & 0xFF, Okay)
    ensures RamRead(RamWrite(ram, start, addr, DT_BYTE, d).0, start, addr, DT_SIGNED_BYTE)
      == Reading(SignExtendFromBit(d & 0xFF, 7), Okay)
    ensures forall k :: 0 <= k < RAM_SIZE && k != addr - start ==> RamWrite(ram, start, addr, DT_BYTE, d).0[k] == ram[k]
  {
    var i := addr - start;
    var b := XrveRam.WordBytes(d);
    var t := RamWrite(ram, start, addr, DT_BYTE, d).0;
    assert t == XrveRam.Splice(ram, i, b[..1]);
    assert t[i] == b[0];
    LowBytes(b[0], b[1], b[2], b[3]);
  }

  /**
   * The halfword reads of an aligned word: the unsigned one is its low 16 bits, the signed one
   * those bits sign-extended.
   */
  lemma {:induction false} HalfwordReadsOfWord(ram: seq<bv8>, start: int, addr: int)
    requires |ram| == RAM_SIZE && start % 4 == 0 && start <= addr < start + RAM_SIZE && addr % 4 == 0
    ensures var w := RamRead(ram, start, addr, DT_WORD).data;
      RamRead(ram, start, addr, DT_UNSIGNED_HALFWORD) == Reading(w & 0xFFFF, Okay) &&
      RamRead(ram, start, addr, DT_SIGNED_HALFWORD) == Reading(SignExtendFromBit(w & 0xFFFF, 15), Okay)
  {
    var i := addr - start;
    EvenIfAligned(addr);
    LowReads(ram[i], ram[i + 1], ram[i + 2], ram[i + 3]);
  }

  /**
   * The byte reads of an aligned word: the unsigned one is its low 8 bits, the signed one those
   * bits sign-extended.
   */
  lemma {:induction false} ByteReadsOfWord(ram: seq<bv8>, start: int, addr: int)
    requires |ram| == RAM_SIZE && start % 4 == 0 && start <= addr < start + RAM_SIZE && addr % 4 == 0
    ensures var w := RamRead(ram, start, addr, DT_WORD).data;
      RamRead(ram, start, addr, DT_UNSIGNED_BYTE) == Reading(w & 0xFF, Okay) &&
      RamRead(ram, start, addr, DT_SIGNED_BYTE) == Reading(SignExtendFromBit(w & 0xFF, 7), Okay)
  {
    var i := addr - start;
    LowReads(ram[i], ram[i + 1], ram[i + 2], ram[i + 3]);
  }

  lemma EvenIfAligned(addr: int)
    requires addr % 4 == 0
    ensures addr % 2 == 0
  {
    var k := addr / 4;
    assert addr == 4 * k;
    assert addr == 2 * (2 * k);
  }

  lemma LowReads(b0: bv8, b1: bv8, b2: bv8, b3: bv8)
    ensures var w := XrveRam.Le32(b0, b1, b2, b3);
      XrveRam.Le32(b0, b1, 0, 0) == w & 0xFFFF &&
      SignExtendFromBit(XrveRam.Le32(b0, b1, 0, 0), 15) == SignExtendFromBit(w & 0xFFFF, 15) &&
      XrveRam.Le32(b0, 0, 0, 0) == w & 0xFF &&
      SignExtendFromBit(XrveRam.Le32(b0, 0, 0, 0), 7) == SignExtendFromBit(w & 0xFF, 7)
  {
    LowBytes(b0, b1, b2, b3);
  }

  /**
   * A misaligned word access: the read yields 0 and the misaligned status; the store still
   * writes its four bytes and reports the misaligned status.
   */
  lemma MisalignedWord(ram: seq<bv8>, start: int, addr: int, d: bv32)
    requires |ram| == RAM_SIZE && start % 4 == 0 && start <= addr && addr + 4 <= start + RAM_SIZE && addr % 4 != 0
    ensures RamRead(ram, start, addr, DT_WORD) == Reading(0, Misaligned)
    ensures RamWrite(ram, start, addr, DT_WORD, d) == (XrveRam.Splice(ram, addr - start, XrveRam.WordBytes(d)), Misaligned)
  {
    assert StoredBytes(DT_WORD, d) == XrveRam.WordBytes(d);
  }

  // Routing of physical addresses.

  /** The physical addresses no device answers at (the debug address answers writes only). */
  predicate Unmapped(addr: int)
  {
    USER_RAM_END < addr < KERNEL_RAM_START || KERNEL_RAM_END < addr < ACLINT_START ||
    ACLINT_END < addr < UART_START || UART_END < addr < PHYSICAL_LIMIT
  }

  /** An access to an unmapped address violates the PMAs: a read yields 0, and a write changes nothing. */
  lemma UnmappedAccesses(m: MemState, addr: int, dt: bv8, d: bv32)
    requires WellFormed(m) && Unmapped(addr)
    ensures ReadPhysical(m, addr, dt) == Reading(0, ViolatesPma)
    ensures addr != DEBUG_ADDR ==> WritePhysical(m, addr, dt, d) == Writing(m, ViolatesPma)
  {
  }

  /**
   * An address of 34 bits or more fails the assertion at the head of `read_memory` and
   * `write_memory`: the access aborts, whatever the data type, and changes nothing.
   */
  lemma WideAddressAborts(m: MemState, addr: int, dt: bv8, d: bv32)
    requires WellFormed(m) && PHYSICAL_LIMIT <= addr
    ensures ReadPhysical(m, addr, dt) == Reading(0, Aborted)
    ensures WritePhysical(m, addr, dt, d) == Writing(m, Aborted)
  {
  }

  /** An address in a RAM reaches that RAM, with the RAM's first address as the start. */
  lemma RamRouting(m: MemState, addr: int, dt: bv8, d: bv32)
    requires WellFormed(m) && (0 <= addr <= USER_RAM_END || KERNEL_RAM_START <= addr <= KERNEL_RAM_END)
    ensures addr <= USER_RAM_END ==>
      ReadPhysical(m, addr, dt) == RamRead(m.user, USER_RAM_START, addr, dt) &&
      WritePhysical(m, addr, dt, d) == Writing(m.(user := RamWrite(m.user, USER_RAM_START, addr, dt, d).0), RamWrite(m.user, USER_RAM_START, addr, dt, d).1)
    ensures KERNEL_RAM_START <= addr ==>
      ReadPhysical(m, addr, dt) == RamRead(m.kernel, KERNEL_RAM_START, addr, dt) &&
      WritePhysical(m, addr, dt, d) == Writing(m.(kernel := RamWrite(m.kernel, KERNEL_RAM_START, addr, dt, d).0), RamWrite(m.kernel, KERNEL_RAM_START, addr, dt, d).1)
  {
  }

  /** The timer registers of the ACLINT through the physical address space: aligned word reads only. */
  lemma AclintReads(m: MemState)
    requires WellFormed(m)
    ensures ReadPhysical(m, ACLINT_START + MTIME_OFFSET, DT_WORD) == Reading(m.csr.counters.mtime.low, Okay)
    ensures ReadPhysical(m, ACLINT_START + MTIMECMPH_OFFSET, DT_WORD) == Reading(m.csr.counters.mtimecmp.high, Okay)
    ensures ReadPhysical(m, ACLINT_START + MTIME_OFFSET, DT_HALFWORD) == Reading(0, ViolatesPma)
    ensures ReadPhysical(m, ACLINT_START + MTIME_OFFSET + 2, DT_WORD) == Reading(0, Misaligned)
  {
    ForwardedReads(m.csr);
  }

  /** A word written to mtimecmp through the physical address space reads back. */
  lemma AclintWriteReadsBack(m: MemState, d: bv32)
    requires WellFormed(m)
    ensures WritePhysical(m, ACLINT_START + MTIMECMP_OFFSET, DT_WORD, d).status == Okay
    ensures ReadPhysical(WritePhysical(m, ACLINT_START + MTIMECMP_OFFSET, DT_WORD, d).mem, ACLINT_START + MTIMECMP_OFFSET, DT_WORD)
      == Reading(d, Okay)
  {
    var c := RegisterWrite(m.csr, MTIMECMP_OFFSET, d);
    assert WritePhysical(m, ACLINT_START + MTIMECMP_OFFSET, DT_WORD, d) == Writing(m.(csr := c), Okay);
    RegisterWriteReadsBack(m.csr, MTIMECMP_OFFSET, d);
  }

  // The debug-output address.

  /** The debug address cannot be read, and takes byte writes only. */
  lemma DebugAddressAccesses(m: MemState, dt: bv8, d: bv32)
    requires WellFormed(m)
    ensures ReadPhysical(m, DEBUG_ADDR, dt) == Reading(0, ViolatesPma)
    ensures dt != DT_BYTE ==> WritePhysical(m, DEBUG_ADDR, dt, d) == Writing(m, ViolatesPma)
  {
  }

  /** A newline or a NUL prints the collected line and starts an empty one. */
  lemma DebugLineEnd(m: MemState, ch: bv8)
    requires WellFormed(m) && (ch == 0x0A || ch == 0x00)
    ensures WritePhysical(m, DEBUG_ADDR, DT_BYTE, ch as bv32) == Writing(m.(line := [], printed := m.printed + [m.line]), Okay)
  {
    ByteOfWord(ch);
  }

  /** A carriage return appends a visible escape sequence; any other character is appended as is. */
  lemma DebugCharacter(m: MemState, ch: bv8)
    requires WellFormed(m) && ch != 0x0A && ch != 0x00
    ensures ch == 0x0D ==> WritePhysical(m, DEBUG_ADDR, DT_BYTE, ch as bv32) == Writing(m.(line := m.line + CARRIAGE_RETURN_ESCAPE), Okay)
    ensures ch != 0x0D ==> WritePhysical(m, DEBUG_ADDR, DT_BYTE, ch as bv32) == Writing(m.(line := m.line + [ch]), Okay)
  {
    ByteOfWord(ch);
  }

  /** The debug device sees only the low byte of the stored word. */
  lemma DebugLowByteOnly(m: MemState, d: bv32)
    requires WellFormed(m)
    ensures WritePhysical(m, DEBUG_ADDR, DT_BYTE, d) == WritePhysical(m, DEBUG_ADDR, DT_BYTE, d & 0xFF)
  {
  }

  lemma ByteOfWord(ch: bv8)
    ensures ((ch as bv32) & 0xFF) as bv8 == ch
  {
  }

  // Sv32 translation.

  /** The CSR file with the privilege mode, mstatus and satp replaced. */
  function Setting(c: CsrFile, mode: bv8, mstatus: bv32, satp: bv32): (r: CsrFile)
    ensures r.mode == mode && r.m.mstatus == mstatus && r.s.satp == satp && r.counters == c.counters
  {
    c.(mode := mode, m := c.m.(mstatus := mstatus), s := c.s.(satp := satp))
  }

  /**
   * The choice of translation in the order the unit test makes it: machine mode and Bare
   * never translate; MPRV with MPP = S and Sv32 translates loads and stores but not fetches;
   * MPRV with MPP = M exempts loads and stores but not a supervisor fetch; user mode translates.
   */
  lemma TranslationConditions(c: CsrFile)
    ensures NoTranslation(Setting(c, MACHINE_MODE, 0x1800, 0), LoadAccess)
    ensures NoTranslation(Setting(c, MACHINE_MODE, 0x0800, 0), LoadAccess)
    ensures NoTranslation(Setting(c, MACHINE_MODE, 0x2_0800, 0), LoadAccess)
    ensures !NoTranslation(Setting(c, MACHINE_MODE, 0x2_0800, 0x8000_0000), LoadAccess)
    ensures !NoTranslation(Setting(c, MACHINE_MODE, 0x2_0800, 0x8000_0000), StoreAccess)
    ensures NoTranslation(Setting(c, MACHINE_MODE, 0x2_0800, 0x8000_0000), InstructionAccess)
    ensures NoTranslation(Setting(c, MACHINE_MODE, 0x2_0800, 0), StoreAccess)
    ensures NoTranslation(Setting(c, SUPERVISOR_MODE, 0x0800, 0), InstructionAccess)
    ensures !NoTranslation(Setting(c, SUPERVISOR_MODE, 0x0800, 0x8000_0000), LoadAccess)
    ensures NoTranslation(Setting(c, SUPERVISOR_MODE, 0x2_1800, 0x8000_0000), LoadAccess)
    ensures NoTranslation(Setting(c, SUPERVISOR_MODE, 0x2_1800, 0x8000_0000), StoreAccess)
    ensures !NoTranslation(Setting(c, SUPERVISOR_MODE, 0x2_1800, 0x8000_0000), InstructionAccess)
    ensures !NoTranslation(Setting(c, USER_MODE, 0x1800, 0x8000_0000), LoadAccess)
    ensures NoTranslation(Setting(c, USER_MODE, 0x1800, 0), InstructionAccess)
  {
  }

  /** An untranslated access uses the virtual address as the physical one. */
  lemma Untranslated(m: MemState, va: bv32, at: AccessType)
    requires WellFormed(m) && NoTranslation(m.csr, at)
    ensures Translate(m, va, at) == Normal(va as int)
  {
  }

  lemma PageOffsetKept(off: int, k: int)
    requires 0 <= off < PAGESIZE && 0 <= k
    ensures (off + PAGESIZE * k) % PAGESIZE == off
  {
    assert (off + PAGESIZE * k) / PAGESIZE == k;
  }

  /** Translation keeps the offset within the page. */
  lemma {:induction false} TranslationKeepsPageOffset(m: MemState, va: bv32, at: AccessType)
    requires WellFormed(m) && Translate(m, va, at).Normal?
    ensures Translate(m, va, at).value % PAGESIZE == PageOffset(va)
  {
    if !NoTranslation(m.csr, at) {
      var f := Walk(m, va, at, RootPpn(m.csr) * PAGESIZE, 1).value;
      var k := if f.level == 1 then Vpn(va, 0) + Ppn1(f.pte) * 1024 else Ppn(f.pte);
      assert PhysicalAddress(va, f) == PageOffset(va) + PAGESIZE * k;
      PageOffsetKept(PageOffset(va), k);
    }
  }

  /** What a walk can throw: an access fault, a page fault, or a failed assertion. */
  lemma {:induction false} WalkThrows(m: MemState, va: bv32, at: AccessType, a: int, i: int)
    requires WellFormed(m) && 0 <= a && 0 <= i <= 1 && Walk(m, va, at, a, i).Throw?
    ensures Walk(m, va, at, a, i).thrown in {AssertionFailure, RvException(AccessFault(at), 0), RvException(PageFault(at), 0)}
    decreases i
  {
    var step := WalkStep(ReadPhysical(m, a + Vpn(va, i) * 4, DT_WORD), at, i);
    if step.Descend? {
      WalkThrows(m, va, at, step.next, i - 1);
    }
  }

  /** What a translation can throw: the access fault or the page fault of its access type, or a failed assertion. */
  lemma TranslateThrows(m: MemState, va: bv32, at: AccessType)
    requires WellFormed(m) && Translate(m, va, at).Throw?
    ensures Translate(m, va, at).thrown in {AssertionFailure, RvException(AccessFault(at), 0), RvException(PageFault(at), 0)}
  {
    if Walk(m, va, at, RootPpn(m.csr) * PAGESIZE, 1).Throw? {
      WalkThrows(m, va, at, RootPpn(m.csr) * PAGESIZE, 1);
    }
  }

  /** A load raises only load causes (or fails an assertion). */
  lemma LoadThrows(m: MemState, va: bv32, dt: bv8)
    requires WellFormed(m) && LoadSpec(m, va, dt).Throw?
    ensures LoadSpec(m, va, dt).thrown == AssertionFailure ||
      (LoadSpec(m, va, dt).thrown.RvException? &&
       LoadSpec(m, va, dt).thrown.cause in {LOAD_ADDRESS_MISALIGNED, LOAD_ACCESS_FAULT, LOAD_PAGE_FAULT})
  {
    if Translate(m, va, LoadAccess).Throw? {
      TranslateThrows(m, va, LoadAccess);
    }
  }

  /**
   * A store raises only store causes (or fails an assertion), and a store whose translation
   * fails changes nothing.
   */
  lemma StoreThrows(m: MemState, va: bv32, dt: bv8, d: bv32)
    requires WellFormed(m) && StoreSpec(m, va, dt, d).result.Throw?
    ensures StoreSpec(m, va, dt, d).result.thrown == AssertionFailure ||
      (StoreSpec(m, va, dt, d).result.thrown.RvException? &&
       StoreSpec(m, va, dt, d).result.thrown.cause in {STORE_OR_AMO_ADDRESS_MISALIGNED, STORE_OR_AMO_ACCESS_FAULT, STORE_OR_AMO_PAGE_FAULT})
    ensures Translate(m, va, StoreAccess).Throw? ==> StoreSpec(m, va, dt, d).mem == m
  {
    if Translate(m, va, StoreAccess).Throw? {
      TranslateThrows(m, va, StoreAccess);
    }
  }

  /**
   * The 4 KiB example of the unit test: with satp selecting Sv32 and a root table at 0, the
   * entry 0x401 at 0 points to the table at 0x1000 whose entry 0x1047 at 0x1F00 maps the page
   * at 0x4000; a supervisor load of 0x003C0FF0 reads 0x4FF0.
   */
  lemma PageExample(m: MemState)
    requires WellFormed(m) && m.csr.mode == SUPERVISOR_MODE && !Mprv(m.csr) && m.csr.s.satp == 0x8000_0000
    requires ReadPhysical(m, 0, DT_WORD) == Reading(0x401, Okay)
    requires ReadPhysical(m, 0x1F00, DT_WORD) == Reading(0x1047, Okay)
    ensures Translate(m, 0x003C_0FF0, LoadAccess) == Normal(0x4FF0)
    ensures LoadSpec(m, 0x003C_0FF0, DT_WORD) == Normal(ReadPhysical(m, 0x4FF0, DT_WORD).data)
  {
    PageExampleWalk(m);
    PageExampleLeaf(m.csr);
    TranslateByWalk(m, 0x003C_0FF0, LoadAccess, Found(0x1047, 0));
    WordLoadFromRam(m, 0x003C_0FF0, 0x4FF0);
  }

  /** A word load whose translation lands on an aligned address of the user RAM reads that word. */
  lemma WordLoadFromRam(m: MemState, va: bv32, pa: int)
    requires WellFormed(m) && Translate(m, va, LoadAccess) == Normal(pa) && pa <= USER_RAM_END && pa % 4 == 0
    ensures LoadSpec(m, va, DT_WORD) == Normal(ReadPhysical(m, pa, DT_WORD).data)
  {
  }

  /** A translated access is the leaf check on the entry the walk finds. */
  lemma TranslateByWalk(m: MemState, va: bv32, at: AccessType, f: Found)
    requires WellFormed(m) && !NoTranslation(m.csr, at) && Walk(m, va, at, RootPpn(m.csr) * PAGESIZE, 1) == Normal(f)
    ensures Translate(m, va, at) == CheckLeaf(m.csr, va, at, f)
  {
  }

  lemma PageExampleLeaf(c: CsrFile)
    requires c.mode == SUPERVISOR_MODE && !Mprv(c) && c.s.satp == 0x8000_0000
    ensures !NoTranslation(c, LoadAccess) && RootPpn(c) == 0
    ensures CheckLeaf(c, 0x003C_0FF0, LoadAccess, Found(0x1047, 0)) == Normal(0x4FF0)
  {
    assert !AccessNotAllowed(c, 0x1047, LoadAccess);
    assert PhysicalAddress(0x003C_0FF0, Found(0x1047, 0)) == 0x4FF0;
  }

  lemma PageExampleWalk(m: MemState)
    requires WellFormed(m)
    requires ReadPhysical(m, 0, DT_WORD) == Reading(0x401, Okay)
    requires ReadPhysical(m, 0x1F00, DT_WORD) == Reading(0x1047, Okay)
    ensures Walk(m, 0x003C_0FF0, LoadAccess, 0, 1) == Normal(Found(0x1047, 0))
  {
    assert Vpn(0x003C_0FF0, 1) == 0 && Vpn(0x003C_0FF0, 0) == 0x3C0;
    assert Ppn(0x401) == 1 && Ppn(0x1047) == 4;
    assert Walk(m, 0x003C_0FF0, LoadAccess, 0x1000, 0) == Normal(Found(0x1047, 0));
  }

  /**
   * The superpage example of the unit test: with satp.PPN = 0x10A1, the leaf entry 0x43 at
   * 0x10A1F24 maps a 4 MiB page at 0; a supervisor load of 0xF24E0960 reads 0xE0960.
   */
  lemma SuperpageExample(m: MemState)
    requires WellFormed(m) && m.csr.mode == SUPERVISOR_MODE && !Mprv(m.csr) && m.csr.s.satp == 0x8000_10A1
    requires ReadPhysical(m, 0x10A_1F24, DT_WORD) == Reading(0x43, Okay)
    ensures Translate(m, 0xF24E_0960, LoadAccess) == Normal(0xE_0960)
    ensures LoadSpec(m, 0xF24E_0960, DT_WORD) == Normal(ReadPhysical(m, 0xE_0960, DT_WORD).data)
  {
    assert RootPpn(m.csr) == 0x10A1;
    assert Vpn(0xF24E_0960, 1) == 0x3C9 && Vpn(0xF24E_0960, 0) == 0xE0 && PageOffset(0xF24E_0960) == 0x960;
    assert Walk(m, 0xF24E_0960, LoadAccess, 0x10A_1000, 1) == Normal(Found(0x43, 1));
    assert !NoTranslation(m.csr, LoadAccess) && !AccessNotAllowed(m.csr, 0x43, LoadAccess) && Ppn0(0x43) == 0;
    assert PhysicalAddress(0xF24E_0960, Found(0x43, 1)) == 0xE_0960;
    assert Translate(m, 0xF24E_0960, LoadAccess) == Normal(0xE_0960);
    WordLoadFromRam(m, 0xF24E_0960, 0xE_0960);
  }

  // The user-page check.

  /**
   * The source's permission check lets a user-mode load through an entry without the U bit
   * (0x47: valid, readable, writable, accessed); the corrected check refuses it.
   */
  lemma UserPageCounterexample(c: CsrFile)
    requires c.mode == USER_MODE && c.m.mstatus == 0
    ensures !AccessNotAllowedAsWritten(c, 0x47, LoadAccess)
    ensures AccessNotAllowed(c, 0x47, LoadAccess)
  {
  }

  /**
   * The corrected check refuses everything the source's check refuses, and the two agree on
   * every access not checked against user mode.
   */
  lemma UserPageCheckAgreement(c: CsrFile, pte: bv32, at: AccessType)
    ensures AccessNotAllowedAsWritten(c, pte, at) ==> AccessNotAllowed(c, pte, at)
    ensures EffectiveMode(c, at) != USER_MODE ==> (AccessNotAllowed(c, pte, at) <==> AccessNotAllowedAsWritten(c, pte, at))
  {
  }

  /**
   * Translation refuses a user-mode access to a page without U, and a supervisor access to a
   * page with U while SUM is clear, with a page fault.
   */
  lemma UserPageProtection(m: MemState, va: bv32, at: AccessType)
    requires WellFormed(m) && !NoTranslation(m.csr, at)
    requires Walk(m, va, at, RootPpn(m.csr) * PAGESIZE, 1).Normal?
    requires var pte := Walk(m, va, at, RootPpn(m.csr) * PAGESIZE, 1).value.pte;
      (EffectiveMode(m.csr, at) == USER_MODE && !UserPage(pte)) ||
      (EffectiveMode(m.csr, at) == SUPERVISOR_MODE && !Sum(m.csr) && UserPage(pte))
    ensures Translate(m, va, at) == Raise(PageFault(at))
  {
  }
}
