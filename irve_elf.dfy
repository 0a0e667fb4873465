// IRVE: `Memory::load_elf32`. The loader keeps the PROGBITS and INIT_ARRAY sections that start
// inside a PT_LOAD segment and copies each one, byte by byte, to its `sh_addr`. The file is
// given as its bytes; every header field is read little-endian, as the host's `file.read` into
// a struct does. A read past the end of the file leaves the struct with bytes the model does
// not know, so the load then ends `LoadUnspecified`.

module IrveElf {
  import opened Common
  import opened IrveHex
  import opened IrveWord
  import opened IrveMemory
  import opened IrveLoaders

  const ELF_HEADER_SIZE: nat := 52
  const PROGRAM_HEADER_SIZE: nat := 32
  const SECTION_HEADER_SIZE: nat := 40
  const ELF_FILE_TYPE_EXEC: nat := 2
  const ELF_MACHINE_RISCV: nat := 0xF3
  const PT_LOAD: nat := 1
  const SHT_PROGBITS: nat := 1
  const SHT_INIT_ARRAY: nat := 0xE

  /** The `uint16_t` at byte `o`, little-endian. */
  function U16(f: seq<bv8>, o: nat): (v: nat)
    requires o + 2 <= |f|
    ensures v < 0x1_0000
  {
    f[o] as nat + 256 * f[o + 1] as nat
  }

  /** The `uint32_t` at byte `o`, little-endian. */
  function U32(f: seq<bv8>, o: nat): (v: nat)
    requires o + 4 <= |f|
    ensures v < TWO32
  {
    U16(f, o) + 0x1_0000 * U16(f, o + 2)
  }

  /** `e_ident` starts with "\177ELF". */
  predicate ElfSignature(f: seq<bv8>)
    requires |f| >= 4
  {
    f[0] == 0x7F && f[1] == 0x45 && f[2] == 0x4C && f[3] == 0x46
  }

  /** `elf32_chunk`: `size` bytes of the file from `offset`, destined for `vaddr`. */
  datatype Chunk = Chunk(offset: nat, size: nat, vaddr: nat)

  /** The three fields are `uint32_t`. */
  predicate Chunk32(c: Chunk)
  {
    c.offset < TWO32 && c.size < TWO32 && c.vaddr < TWO32
  }

  predicate Chunks32(cs: seq<Chunk>)
  {
    forall k :: 0 <= k < |cs| ==> Chunk32(cs[k])
  }

  /** A table of `n` entries of `size` bytes from `off` lies in the file; an empty one always does. */
  predicate TableFits(f: seq<bv8>, off: nat, size: nat, n: nat)
  {
    n == 0 || off + size * n <= |f|
  }

  // The program header table.

  /** The chunk of program header `i` of the table at `phoff`, when it is a PT_LOAD segment. */
  function ProgramChunk(f: seq<bv8>, phoff: nat, i: nat): (r: Option<Chunk>)
    requires phoff + PROGRAM_HEADER_SIZE * (i + 1) <= |f|
    ensures r.Some? ==> Chunk32(r.value)
  {
    var base := phoff + PROGRAM_HEADER_SIZE * i;
    if U32(f, base) == PT_LOAD then Some(Chunk(U32(f, base + 4), U32(f, base + 16), U32(f, base + 8))) else None
  }

  /** The PT_LOAD chunks among the first `n` program headers, in table order. */
  function ProgramChunks(f: seq<bv8>, phoff: nat, n: nat): (cs: seq<Chunk>)
    requires TableFits(f, phoff, PROGRAM_HEADER_SIZE, n)
    ensures Chunks32(cs) && |cs| <= n
  {
    if n == 0 then []
    else
      var earlier := ProgramChunks(f, phoff, n - 1);
      match ProgramChunk(f, phoff, n - 1)
      case None => earlier
      case Some(c) => earlier + [c]
  }

  // The section header table.

  /** Program data: PROGBITS or INIT_ARRAY. */
  predicate ProgramData(shType: nat)
  {
    shType == SHT_PROGBITS || shType == SHT_INIT_ARRAY
  }

  /** The segment holds `offset`, its end computed in 32 bits as the source does. */
  predicate Holds(c: Chunk, offset: nat)
  {
    c.offset <= offset < (c.offset + c.size) % TWO32
  }

  predicate InSomeChunk(cs: seq<Chunk>, offset: nat)
  {
    exists j :: 0 <= j < |cs| && Holds(cs[j], offset)
  }

  /** Section header `i` of the table at `shoff` as a chunk, whatever its type. */
  function SectionChunk(f: seq<bv8>, shoff: nat, i: nat): (c: Chunk)
    requires shoff + SECTION_HEADER_SIZE * (i + 1) <= |f|
    ensures Chunk32(c)
  {
    var base := shoff + SECTION_HEADER_SIZE * i;
    Chunk(U32(f, base + 16), U32(f, base + 20), U32(f, base + 12))
  }

  function SectionType(f: seq<bv8>, shoff: nat, i: nat): nat
    requires shoff + SECTION_HEADER_SIZE * (i + 1) <= |f|
  {
    U32(f, shoff + SECTION_HEADER_SIZE * i + 4)
  }

  /** Section `i` is kept: it is program data and starts inside one of the segments `pcs`. */
  predicate Kept(f: seq<bv8>, shoff: nat, i: nat, pcs: seq<Chunk>)
    requires shoff + SECTION_HEADER_SIZE * (i + 1) <= |f|
  {
    ProgramData(SectionType(f, shoff, i)) && InSomeChunk(pcs, SectionChunk(f, shoff, i).offset)
  }

  /** The chunks of the kept sections among the first `n` section headers, in table order. */
  function SectionChunks(f: seq<bv8>, shoff: nat, n: nat, pcs: seq<Chunk>): (cs: seq<Chunk>)
    requires TableFits(f, shoff, SECTION_HEADER_SIZE, n)
    ensures Chunks32(cs) && |cs| <= n
  {
    if n == 0 then []
    else
      var earlier := SectionChunks(f, shoff, n - 1, pcs);
      if Kept(f, shoff, n - 1, pcs) then earlier + [SectionChunk(f, shoff, n - 1)] else earlier
  }

  // Copying the sections.

  /**
   * How many bytes the copy loop of a chunk writes: the loop runs while the address is below
   * `vaddr + size` taken in 32 bits, so a chunk whose end wraps past 2^32 writes nothing.
   */
  function ChunkLength(c: Chunk): nat
  {
    if c.vaddr + c.size < TWO32 then c.size else 0
  }

  /**
   * The writes of the copy loops from byte `k` of the first chunk on: byte `k` of a chunk comes
   * from file offset `offset + k` and goes to `vaddr + k`; a byte past the end of the file ends
   * the plan unspecified.
   */
  function CopyPlan(f: seq<bv8>, cs: seq<Chunk>, k: nat): (p: Plan)
    decreases |cs|, if cs == [] then 0 else ChunkLength(cs[0]) - k
  {
    if cs == [] then Plan([], LoadOkay)
    else
      var c := cs[0];
      if k >= ChunkLength(c) then CopyPlan(f, cs[1..], 0)
      else if c.offset + k >= |f| then Plan([], LoadUnspecified)
      else
        var p := CopyPlan(f, cs, k + 1);
        Plan([Write(c.vaddr + k, DT_BYTE, f[c.offset + k] as bv32)] + p.writes, p.end)
  }

  /** The file header passes the loader's checks: signature, executable, RISC-V, ELF32 little-endian. */
  predicate HeaderAccepted(f: seq<bv8>)
  {
    |f| >= ELF_HEADER_SIZE && ElfSignature(f) && U16(f, 16) == ELF_FILE_TYPE_EXEC && U16(f, 18) == ELF_MACHINE_RISCV
    && f[4] == 1 && f[5] == 1
  }

  /** Both header loops run `e_shnum` times (offset 48), the program header loop included. */
  function HeaderCount(f: seq<bv8>): nat
    requires HeaderAccepted(f)
  {
    U16(f, 48)
  }

  /** Both header tables, `e_shnum` entries each, lie in the file. */
  predicate TablesFit(f: seq<bv8>)
    requires HeaderAccepted(f)
  {
    TableFits(f, U32(f, 28), PROGRAM_HEADER_SIZE, HeaderCount(f)) && TableFits(f, U32(f, 32), SECTION_HEADER_SIZE, HeaderCount(f))
  }

  /** The chunks the loader copies: the kept sections, in section table order. */
  function Sections(f: seq<bv8>): (cs: seq<Chunk>)
    requires HeaderAccepted(f) && TablesFit(f)
    ensures Chunks32(cs)
  {
    SectionChunks(f, U32(f, 32), HeaderCount(f), ProgramChunks(f, U32(f, 28), HeaderCount(f)))
  }

  /** What `load_elf32` asks of memory for the file `f`. */
  function ElfPlan(f: seq<bv8>): (p: Plan)
  {
    if |f| < ELF_HEADER_SIZE then Plan([], LoadUnspecified)
    else if !ElfSignature(f) || U16(f, 16) != ELF_FILE_TYPE_EXEC || U16(f, 18) != ELF_MACHINE_RISCV then Plan([], LoadFail)
    else if f[4] != 1 || f[5] != 1 then Plan([], LoadAborted)
    else if !TablesFit(f) then Plan([], LoadUnspecified)
    else CopyPlan(f, Sections(f), 0)
  }

  function Elf(m: MemState, f: seq<bv8>): (r: Image)
    requires WellFormed(m)
    ensures WellFormed(r.mem)
  {
    Carry(m, ElfPlan(f))
  }

  /**
   * The header loops read entry after entry from the table's start: entry `i` lies in the file
   * exactly when the first `i + 1` entries do, and when it does not, neither do `n > i` entries.
   */
  lemma TableStep(f: seq<bv8>, off: nat, size: nat, i: nat, n: nat)
    requires TableFits(f, off, size, i) && i < n
    ensures TableFits(f, off, size, i + 1) <==> off + size * i + size <= |f|
    ensures off + size * i + size > |f| ==> !TableFits(f, off, size, n)
  {
    assert size * (i + 1) == size * i + size;
    if off + size * i + size > |f| {
      assert size * n >= size * (i + 1) by {
        MulMonotone(size, i + 1, n);
      }
    }
  }

  /** Reading program header `i` at `pos`: the chunks of `i + 1` headers. */
  lemma ProgramChunksStep(f: seq<bv8>, phoff: nat, i: nat, pos: nat)
    requires pos == phoff + PROGRAM_HEADER_SIZE * i && pos + PROGRAM_HEADER_SIZE <= |f|
    ensures TableFits(f, phoff, PROGRAM_HEADER_SIZE, i) && TableFits(f, phoff, PROGRAM_HEADER_SIZE, i + 1)
    ensures ProgramChunks(f, phoff, i + 1) == ProgramChunks(f, phoff, i) +
      if U32(f, pos) == PT_LOAD then [Chunk(U32(f, pos + 4), U32(f, pos + 16), U32(f, pos + 8))] else []
  {
    assert PROGRAM_HEADER_SIZE * (i + 1) == pos - phoff + PROGRAM_HEADER_SIZE;
    MulMonotone(PROGRAM_HEADER_SIZE, i, i + 1);
  }

  /** Reading section header `i` at `pos`: the chunks of `i + 1` headers. */
  lemma SectionChunksStep(f: seq<bv8>, shoff: nat, i: nat, pcs: seq<Chunk>, pos: nat)
    requires pos == shoff + SECTION_HEADER_SIZE * i && pos + SECTION_HEADER_SIZE <= |f|
    ensures TableFits(f, shoff, SECTION_HEADER_SIZE, i) && TableFits(f, shoff, SECTION_HEADER_SIZE, i + 1)
    ensures SectionChunks(f, shoff, i + 1, pcs) == SectionChunks(f, shoff, i, pcs) +
      if ProgramData(U32(f, pos + 4)) && InSomeChunk(pcs, U32(f, pos + 16))
      then [Chunk(U32(f, pos + 16), U32(f, pos + 20), U32(f, pos + 12))] else []
  {
    assert SECTION_HEADER_SIZE * (i + 1) == pos - shoff + SECTION_HEADER_SIZE;
    MulMonotone(SECTION_HEADER_SIZE, i, i + 1);
  }

  /** The program header loop: one header read per pass, PT_LOAD ones pushed. */
  method ReadProgramChunks(f: seq<bv8>, phoff: nat, count: nat) returns (cs: Option<seq<Chunk>>)
    ensures TableFits(f, phoff, PROGRAM_HEADER_SIZE, count) ==> cs == Some(ProgramChunks(f, phoff, count))
    ensures !TableFits(f, phoff, PROGRAM_HEADER_SIZE, count) ==> cs == None
  {
    var chunks: seq<Chunk> := [];
    var pos := phoff;
    var i := 0;
    while i < count
      invariant 0 <= i <= count && TableFits(f, phoff, PROGRAM_HEADER_SIZE, i)
      invariant pos == phoff + PROGRAM_HEADER_SIZE * i
      invariant chunks == ProgramChunks(f, phoff, i)
    {
      TableStep(f, phoff, PROGRAM_HEADER_SIZE, i, count);
      if pos + PROGRAM_HEADER_SIZE > |f| {
        return None;
      }
      ProgramChunksStep(f, phoff, i, pos);
      if U32(f, pos) == PT_LOAD {
        chunks := chunks + [Chunk(U32(f, pos + 4), U32(f, pos + 16), U32(f, pos + 8))];
      }
      pos := pos + PROGRAM_HEADER_SIZE;
      i := i + 1;
    }
    return Some(chunks);
  }

  /** The inner loop of the section header loop: does one of the segments hold `offset`? */
  method FindSegment(pcs: seq<Chunk>, offset: nat) returns (found: bool)
    ensures found <==> InSomeChunk(pcs, offset)
  {
    var j := 0;
    while j < |pcs|
      invariant 0 <= j <= |pcs|
      invariant forall j' :: 0 <= j' < j ==> !Holds(pcs[j'], offset)
    {
      if pcs[j].offset <= offset && offset < (pcs[j].offset + pcs[j].size) % TWO32 {
        return true;
      }
      j := j + 1;
    }
    return false;
  }

  /** The section header loop: program data that starts inside a segment is pushed, once. */
  method ReadSectionChunks(f: seq<bv8>, shoff: nat, count: nat, pcs: seq<Chunk>) returns (cs: Option<seq<Chunk>>)
    ensures TableFits(f, shoff, SECTION_HEADER_SIZE, count) ==> cs == Some(SectionChunks(f, shoff, count, pcs))
    ensures !TableFits(f, shoff, SECTION_HEADER_SIZE, count) ==> cs == None
  {
    var chunks: seq<Chunk> := [];
    var pos := shoff;
    var i := 0;
    while i < count
      invariant 0 <= i <= count && TableFits(f, shoff, SECTION_HEADER_SIZE, i)
      invariant pos == shoff + SECTION_HEADER_SIZE * i
      invariant chunks == SectionChunks(f, shoff, i, pcs)
    {
      TableStep(f, shoff, SECTION_HEADER_SIZE, i, count);
      if pos + SECTION_HEADER_SIZE > |f| {
        return None;
      }
      SectionChunksStep(f, shoff, i, pcs, pos);
      if ProgramData(U32(f, pos + 4)) {
        var section := Chunk(U32(f, pos + 16), U32(f, pos + 20), U32(f, pos + 12));
        var found := FindSegment(pcs, section.offset);
        if found {
          chunks := chunks + [section];
        }
      }
      pos := pos + SECTION_HEADER_SIZE;
      i := i + 1;
    }
    return Some(chunks);
  }

  /** The copy loop of one chunk runs exactly `ChunkLength` times. */
  lemma CopyBound(c: Chunk, k: nat)
    requires Chunk32(c) && k <= ChunkLength(c)
    ensures c.vaddr + k < (c.vaddr + c.size) % TWO32 <==> k < ChunkLength(c)
    ensures k < ChunkLength(c) ==> (c.vaddr + k + 1) % TWO32 == c.vaddr + k + 1
  {
  }

  /** The load goes on with `p` when the status is still `IL_OKAY`, and has ended otherwise. */
  function Then(m: MemState, status: LoadStatus, p: Plan): (r: Image)
    requires WellFormed(m)
  {
    if status == LoadOkay then Carry(m, p) else Image(m, status)
  }

  /** Byte `k` of the first chunk: past the end of the file, or one write before the rest. */
  lemma CopyStep(f: seq<bv8>, cs: seq<Chunk>, k: nat)
    requires cs != [] && k < ChunkLength(cs[0])
    ensures cs[0].offset + k >= |f| ==> CopyPlan(f, cs, k) == Plan([], LoadUnspecified)
    ensures cs[0].offset + k < |f| ==> (CopyPlan(f, cs, k) ==
      Plan([Write(cs[0].vaddr + k, DT_BYTE, f[cs[0].offset + k] as bv32)] + CopyPlan(f, cs, k + 1).writes, CopyPlan(f, cs, k + 1).end))
  {
  }

  /**
   * One pass of the copy loop: the byte at file offset `pos` written at `addr`, which are byte
   * `k` of the first chunk's source and destination.
   */
  method CopyByte(mem: Memory, f: seq<bv8>, pos: nat, addr: nat, ghost cs: seq<Chunk>, ghost k: nat) returns (status: LoadStatus)
    requires mem.Valid() && cs != [] && k < ChunkLength(cs[0])
    requires pos == cs[0].offset + k && addr == cs[0].vaddr + k
    modifies mem, mem.csr, mem.userRam, mem.kernelRam
    ensures mem.Valid()
    ensures Then(mem.Snapshot(), status, CopyPlan(f, cs, k + 1)) == Carry(old(mem.Snapshot()), CopyPlan(f, cs, k))
  {
    CopyStep(f, cs, k);
    if pos >= |f| {
      return LoadUnspecified;
    }
    CarryFirst(mem.Snapshot(), Write(addr, DT_BYTE, f[pos] as bv32), CopyPlan(f, cs, k + 1));
    var s := mem.WriteMemory(addr, DT_BYTE, f[pos] as bv32);
    if s != Okay {
      return WriteFailure(s);
    }
    return LoadOkay;
  }

  /** The copy loop of the first chunk: its bytes read from its offset and written from its address. */
  method CopyChunk(mem: Memory, f: seq<bv8>, cs: seq<Chunk>) returns (status: LoadStatus)
    requires mem.Valid() && cs != [] && Chunk32(cs[0])
    modifies mem, mem.csr, mem.userRam, mem.kernelRam
    ensures mem.Valid()
    ensures Then(mem.Snapshot(), status, CopyPlan(f, cs[1..], 0)) == Carry(old(mem.Snapshot()), CopyPlan(f, cs, 0))
  {
    var c := cs[0];
    var pos := c.offset;
    var addr := c.vaddr;
    ghost var k: nat := 0;
    CopyBound(c, 0);
    while addr < (c.vaddr + c.size) % TWO32
      invariant mem.Valid() && k <= ChunkLength(c)
      invariant addr == c.vaddr + k && pos == c.offset + k
      invariant Carry(mem.Snapshot(), CopyPlan(f, cs, k)) == Carry(old(mem.Snapshot()), CopyPlan(f, cs, 0))
      decreases ChunkLength(c) - k
    {
      CopyBound(c, k);
      status := CopyByte(mem, f, pos, addr, cs, k);
      if status != LoadOkay {
        return;
      }
      pos := pos + 1;
      addr := (addr + 1) % TWO32;
      k := k + 1;
      CopyBound(c, k);
    }
    CopyBound(c, k);
    return LoadOkay;
  }

  /** The copy loops, chunk after chunk. */
  method CopySections(mem: Memory, f: seq<bv8>, cs: seq<Chunk>) returns (status: LoadStatus)
    requires mem.Valid() && Chunks32(cs)
    modifies mem, mem.csr, mem.userRam, mem.kernelRam
    ensures mem.Valid()
    ensures Image(mem.Snapshot(), status) == Carry(old(mem.Snapshot()), CopyPlan(f, cs, 0))
  {
    var ci := 0;
    while ci < |cs|
      invariant 0 <= ci <= |cs| && mem.Valid()
      invariant Carry(mem.Snapshot(), CopyPlan(f, cs[ci..], 0)) == Carry(old(mem.Snapshot()), CopyPlan(f, cs, 0))
    {
      assert cs[ci..][0] == cs[ci] && cs[ci..][1..] == cs[ci + 1..];
      status := CopyChunk(mem, f, cs[ci..]);
      if status != LoadOkay {
        return;
      }
      ci := ci + 1;
    }
    return LoadOkay;
  }

  /** `Memory::load_elf32` on a file whose bytes are `f`. */
  method LoadElf32(mem: Memory, f: seq<bv8>) returns (status: LoadStatus)
    requires mem.Valid()
    modifies mem, mem.csr, mem.userRam, mem.kernelRam
    ensures mem.Valid()
    ensures Image(mem.Snapshot(), status) == Elf(old(mem.Snapshot()), f)
  {
    if |f| < ELF_HEADER_SIZE {
      return LoadUnspecified;
    }
    if !ElfSignature(f) || U16(f, 16) != ELF_FILE_TYPE_EXEC || U16(f, 18) != ELF_MACHINE_RISCV {
      return LoadFail;
    }
    if f[4] != 1 || f[5] != 1 {
      return LoadAborted;
    }
    var count := U16(f, 48);
    var programChunks := ReadProgramChunks(f, U32(f, 28), count);
    if programChunks.None? {
      return LoadUnspecified;
    }
    var sectionChunks := ReadSectionChunks(f, U32(f, 32), count, programChunks.value);
    if sectionChunks.None? {
      return LoadUnspecified;
    }
    status := CopySections(mem, f, sectionChunks.value);
  }
}
