// IRVE: what `Memory::load_elf32` promises, stated over the plan of IrveElf: which files it
// rejects, which sections it keeps, where each kept section's bytes land, and the quirk that
// the program header loop is bounded by the section count `e_shnum`.

module IrveElfFacts {
  import opened Common
  import opened IrveHex
  import opened IrveWord
  import opened IrveMemory
  import opened IrveLoaders
  import opened IrveLoadersFacts
  import opened IrveElf
  import XrveRam

  // ---------------------------------------------------------------------------------------
  // Rejected files.

  /**
   * Nothing is written unless the header is accepted and both tables lie in the file; a short
   * file is unspecified, a file that is no RISC-V executable fails, and a file that is not
   * ELF32 little-endian aborts — each leaving memory as it was.
   */
  lemma Rejections(m: MemState, f: seq<bv8>)
    requires WellFormed(m)
    ensures Elf(m, f).mem != m ==> HeaderAccepted(f) && TablesFit(f)
    ensures |f| < ELF_HEADER_SIZE ==> Elf(m, f) == Image(m, LoadUnspecified)
    ensures (|f| >= ELF_HEADER_SIZE && !(ElfSignature(f) && U16(f, 16) == ELF_FILE_TYPE_EXEC && U16(f, 18) == ELF_MACHINE_RISCV))
      ==> Elf(m, f) == Image(m, LoadFail)
    ensures (|f| >= ELF_HEADER_SIZE && ElfSignature(f) && U16(f, 16) == ELF_FILE_TYPE_EXEC && U16(f, 18) == ELF_MACHINE_RISCV
      && (f[4] != 1 || f[5] != 1)) ==> Elf(m, f) == Image(m, LoadAborted)
    ensures HeaderAccepted(f) && !TablesFit(f) ==> Elf(m, f) == Image(m, LoadUnspecified)
  {
  }

  /**
   * The program header loop runs `e_shnum` times, not `e_phnum` (offset 44): an accepted file
   * without section headers loads nothing and succeeds, whatever its PT_LOAD segments hold.
   */
  lemma NoSectionHeadersLoadsNothing(m: MemState, f: seq<bv8>)
    requires WellFormed(m) && HeaderAccepted(f) && HeaderCount(f) == 0
    ensures Elf(m, f) == Image(m, LoadOkay)
  {
    assert Sections(f) == [];
  }

  // ---------------------------------------------------------------------------------------
  // Which chunks are kept.

  /** Header `i` of a table of `n` entries that lies in the file lies in the file. */
  lemma EntryInTable(f: seq<bv8>, off: nat, size: nat, i: nat, n: nat)
    requires TableFits(f, off, size, n) && i < n
    ensures off + size * (i + 1) <= |f| && TableFits(f, off, size, i)
  {
    MulMonotone(size, i + 1, n);
    MulMonotone(size, i, n);
  }

  /** The segments are exactly the PT_LOAD program headers among the first `n`. */
  lemma ProgramChunksMembers(f: seq<bv8>, phoff: nat, n: nat)
    requires TableFits(f, phoff, PROGRAM_HEADER_SIZE, n)
    ensures forall c :: c in ProgramChunks(f, phoff, n) <==>
      exists i :: 0 <= i < n && phoff + PROGRAM_HEADER_SIZE * (i + 1) <= |f| && ProgramChunk(f, phoff, i) == Some(c)
  {
    ProgramChunksFromLoads(f, phoff, n);
    LoadsInProgramChunks(f, phoff, n);
  }

  lemma {:induction false} ProgramChunksFromLoads(f: seq<bv8>, phoff: nat, n: nat)
    requires TableFits(f, phoff, PROGRAM_HEADER_SIZE, n)
    ensures forall c :: c in ProgramChunks(f, phoff, n) ==>
      exists i :: 0 <= i < n && phoff + PROGRAM_HEADER_SIZE * (i + 1) <= |f| && ProgramChunk(f, phoff, i) == Some(c)
  {
    if n > 0 {
      EntryInTable(f, phoff, PROGRAM_HEADER_SIZE, n - 1, n);
      ProgramChunksFromLoads(f, phoff, n - 1);
    }
  }

  lemma {:induction false} LoadsInProgramChunks(f: seq<bv8>, phoff: nat, n: nat)
    requires TableFits(f, phoff, PROGRAM_HEADER_SIZE, n)
    ensures forall i, c :: 0 <= i < n && phoff + PROGRAM_HEADER_SIZE * (i + 1) <= |f| && ProgramChunk(f, phoff, i) == Some(c) ==>
        c in ProgramChunks(f, phoff, n)
  {
    if n > 0 {
      EntryInTable(f, phoff, PROGRAM_HEADER_SIZE, n - 1, n);
      LoadsInProgramChunks(f, phoff, n - 1);
    }
  }

  /**
   * The kept chunks are exactly the PROGBITS and INIT_ARRAY sections among the first `n` whose
   * file offset lies inside one of the segments `pcs`.
   */
  lemma SectionChunksMembers(f: seq<bv8>, shoff: nat, n: nat, pcs: seq<Chunk>)
    requires TableFits(f, shoff, SECTION_HEADER_SIZE, n)
    ensures forall c :: c in SectionChunks(f, shoff, n, pcs) <==>
      exists i :: 0 <= i < n && shoff + SECTION_HEADER_SIZE * (i + 1) <= |f|
        && ProgramData(SectionType(f, shoff, i)) && InSomeChunk(pcs, SectionChunk(f, shoff, i).offset)
        && SectionChunk(f, shoff, i) == c
  {
    SectionChunksAreKept(f, shoff, n, pcs);
    KeptInSectionChunks(f, shoff, n, pcs);
  }

  lemma {:induction false} SectionChunksAreKept(f: seq<bv8>, shoff: nat, n: nat, pcs: seq<Chunk>)
    requires TableFits(f, shoff, SECTION_HEADER_SIZE, n)
    ensures forall c :: c in SectionChunks(f, shoff, n, pcs) ==>
      exists i :: 0 <= i < n && shoff + SECTION_HEADER_SIZE * (i + 1) <= |f|
        && Kept(f, shoff, i, pcs) && SectionChunk(f, shoff, i) == c
  {
    if n > 0 {
      EntryInTable(f, shoff, SECTION_HEADER_SIZE, n - 1, n);
      SectionChunksAreKept(f, shoff, n - 1, pcs);
    }
  }

  lemma {:induction false} KeptInSectionChunks(f: seq<bv8>, shoff: nat, n: nat, pcs: seq<Chunk>)
    requires TableFits(f, shoff, SECTION_HEADER_SIZE, n)
    ensures forall i :: 0 <= i < n && shoff + SECTION_HEADER_SIZE * (i + 1) <= |f| && Kept(f, shoff, i, pcs) ==>
        SectionChunk(f, shoff, i) in SectionChunks(f, shoff, n, pcs)
  {
    if n > 0 {
      EntryInTable(f, shoff, SECTION_HEADER_SIZE, n - 1, n);
      KeptInSectionChunks(f, shoff, n - 1, pcs);
    }
  }

  // ---------------------------------------------------------------------------------------
  // Where the bytes go.

  /** Every chunk lies in the file and its destination does not wrap past 2^32. */
  predicate InFile(f: seq<bv8>, cs: seq<Chunk>)
  {
    forall k :: 0 <= k < |cs| ==> cs[k].offset + cs[k].size <= |f| && cs[k].vaddr + cs[k].size < TWO32
  }

  lemma InFileRest(f: seq<bv8>, cs: seq<Chunk>)
    requires cs != [] && InFile(f, cs)
    ensures InFile(f, cs[1..])
  {
    assert forall k :: 0 <= k < |cs| - 1 ==> cs[1..][k] == cs[k + 1];
  }

  /** The reference: each chunk's `size` file bytes from `offset`, written from `vaddr`, in order. */
  function SectionWrites(f: seq<bv8>, cs: seq<Chunk>): (ws: seq<Write>)
    requires InFile(f, cs)
  {
    if cs == [] then []
    else
      InFileRest(f, cs);
      ByteWrites(cs[0].vaddr, f[cs[0].offset .. cs[0].offset + cs[0].size]) + SectionWrites(f, cs[1..])
  }

  /** From byte `k` of the first chunk on: the rest of its bytes, then the later chunks. */
  lemma {:induction false} CopyFrom(f: seq<bv8>, cs: seq<Chunk>, k: nat, rest: seq<Write>)
    requires cs != [] && InFile(f, cs) && k <= cs[0].size
    requires CopyPlan(f, cs[1..], 0) == Plan(rest, LoadOkay)
    ensures CopyPlan(f, cs, k) == Plan(ByteWrites(cs[0].vaddr + k, f[cs[0].offset + k .. cs[0].offset + cs[0].size]) + rest, LoadOkay)
    decreases cs[0].size - k
  {
    var c := cs[0];
    assert ChunkLength(c) == c.size by {
      assert c.offset + c.size <= |f| && c.vaddr + c.size < TWO32;
    }
    var bytes := f[c.offset + k .. c.offset + c.size];
    if k < c.size {
      CopyStep(f, cs, k);
      CopyFrom(f, cs, k + 1, rest);
      assert bytes[0] == f[c.offset + k] && bytes[1..] == f[c.offset + k + 1 .. c.offset + c.size];
      ConsAppend(Write(c.vaddr + k, DT_BYTE, f[c.offset + k] as bv32), ByteWrites(c.vaddr + k + 1, bytes[1..]), rest);
    } else {
      assert bytes == [];
    }
  }

  /** Chunks that lie in the file are copied completely and the copy succeeds. */
  lemma {:induction false} CopyPlanWrites(f: seq<bv8>, cs: seq<Chunk>)
    requires InFile(f, cs)
    ensures CopyPlan(f, cs, 0) == Plan(SectionWrites(f, cs), LoadOkay)
    decreases |cs|
  {
    if cs != [] {
      InFileRest(f, cs);
      CopyPlanWrites(f, cs[1..]);
      CopyFrom(f, cs, 0, SectionWrites(f, cs[1..]));
    }
  }

  /** A chunk whose destination end wraps past 2^32 is skipped: its copy loop never runs. */
  lemma WrappingChunkSkipped(f: seq<bv8>, c: Chunk, rest: seq<Chunk>)
    requires c.vaddr + c.size >= TWO32
    ensures CopyPlan(f, [c] + rest, 0) == CopyPlan(f, rest, 0)
  {
    assert ([c] + rest)[0] == c && ([c] + rest)[1..] == rest;
  }

  /**
   * A chunk that runs past the end of the file: its bytes up to the end are written, then the
   * loader reads what the file does not hold and the load ends unspecified.
   */
  lemma {:induction false} CopyPastEnd(f: seq<bv8>, cs: seq<Chunk>, k: nat)
    requires cs != [] && cs[0].vaddr + cs[0].size < TWO32
    requires cs[0].offset + k <= |f| < cs[0].offset + cs[0].size
    ensures CopyPlan(f, cs, k) == Plan(ByteWrites(cs[0].vaddr + k, f[cs[0].offset + k ..]), LoadUnspecified)
    decreases |f| - (cs[0].offset + k)
  {
    var c := cs[0];
    var bytes := f[c.offset + k ..];
    if c.offset + k < |f| {
      CopyPastEnd(f, cs, k + 1);
      assert bytes[0] == f[c.offset + k] && bytes[1..] == f[c.offset + k + 1 ..];
    } else {
      assert bytes == [];
    }
  }

  // ---------------------------------------------------------------------------------------
  // The whole load.

  /** A file whose kept sections lie in it loads exactly their bytes, section after section. */
  lemma ElfLoadsSections(m: MemState, f: seq<bv8>)
    requires WellFormed(m) && HeaderAccepted(f) && TablesFit(f) && InFile(f, Sections(f))
    ensures Elf(m, f) == ApplyWrites(m, SectionWrites(f, Sections(f)))
  {
    CopyPlanWrites(f, Sections(f));
    CarryAll(m, SectionWrites(f, Sections(f)));
  }

  lemma OneSectionWrites(f: seq<bv8>, c: Chunk)
    requires c.offset + c.size <= |f| && c.vaddr + c.size < TWO32
    ensures InFile(f, [c]) && SectionWrites(f, [c]) == ByteWrites(c.vaddr, f[c.offset .. c.offset + c.size])
  {
    assert InFile(f, [c]);
    EmptyRest(f, [c]);
  }

  lemma EmptyRest(f: seq<bv8>, cs: seq<Chunk>)
    requires |cs| == 1 && InFile(f, cs)
    ensures SectionWrites(f, cs) == ByteWrites(cs[0].vaddr, f[cs[0].offset .. cs[0].offset + cs[0].size])
  {
    assert cs[1..] == [];
    var ws := ByteWrites(cs[0].vaddr, f[cs[0].offset .. cs[0].offset + cs[0].size]);
    assert ws + [] == ws;
  }

  /** One kept section inside the kernel RAM: its bytes land there from `sh_addr` and nothing else changes. */
  lemma OneSectionIntoKernelRam(m: MemState, f: seq<bv8>, c: Chunk)
    requires WellFormed(m) && HeaderAccepted(f) && TablesFit(f) && Sections(f) == [c]
    requires c.offset + c.size <= |f| && KERNEL_RAM_START <= c.vaddr && c.vaddr + c.size <= KERNEL_RAM_START + RAM_SIZE
    ensures Elf(m, f) == Image(m.(kernel := XrveRam.Splice(m.kernel, c.vaddr - KERNEL_RAM_START, f[c.offset .. c.offset + c.size])), LoadOkay)
  {
    OneSectionWrites(f, c);
    ElfLoadsSections(m, f);
    BytesIntoKernelRam(m, c.vaddr, f[c.offset .. c.offset + c.size]);
  }
}
