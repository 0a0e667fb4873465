# irve in Dafny

A Dafny model of the two RISC-V (RV32) emulators in the irve repository, with proofs about the model.

**XRVE** is the Rust redesign:
- a physical memory map that routes accesses to registered RAM handlers by their match criteria;
- a RAM handler;
- instruction fetch that tells 16-bit from 32-bit encodings;
- the architectural `State`;
- the reference OP and OP-IMM handlers;
- the `Instance` that ties them together;
- the compile-time decimal parser in `about.rs`.

**irve** is the complete C++ emulator in `lib/`:
- `Word` arithmetic and the integer power helpers;
- the decoder;
- the CPU state and the legacy register file;
- the per-opcode semantics of RV32IMA with Zicsr;
- the CSR file;
- physical memory with Sv32 translation and the ACLINT timer registers;
- the emulator's tick, instruction cache, interrupts and trap entry;
- the memory-image loaders (Verilog hex, raw binary, ELF32);
- the GDB remote-serial-protocol stub.

## Style of the model

Code that only computes a value is written as Dafny functions with lemmas about them. Code that updates objects in place becomes classes, and each method is proved against a specification function of the old state. The classes are:
- `XrveState.State`, `XrveRam.Ram`, `XrvePmmap.PhysicalMemoryMap`, `XrveDecoder.Decoder` and `XrveInstance.Instance`;
- `IrveCpuState.CpuState`, `IrveRegFile.RegFile`, `IrveCsr.Csr`, `IrveMemory.Memory`, `IrveAclint.Aclint` and `IrveEmulator.Emulator`.

For example, `IrveEmulator.Emulator.Tick` ensures that the emulator's new state is `TickSpec` of its old state. The lemmas beside `TickSpec` then state what one tick promises: the interrupt priority, trap entry, a transparent instruction cache, and so on.

Data values (registers, CSRs, instruction words, bytes) are bit-vectors (`bv8`, `bv16`, `bv32`). Addresses, indices and counters are mathematical integers, converted from a word once by definition.

Error paths are data, not preconditions:
- A RISC-V exception becomes `IrveTrap.Thrown.RvException(cause)`.
- A guest exit request becomes `IrveTrap.Thrown.ExitRequest`.
- A breakpoint is not a separate variant: EBREAK raises the BREAKPOINT `RvException`, and a breakpoint the GDB server intercepts sets the emulator's intercept flag.
- A failed C++ `assert` the guest can reach becomes `IrveTrap.Thrown.AssertionFailure`. In memory it is the `Aborted` status, and in a loader the `LoadAborted` status.
- A guest-reachable Rust panic becomes an explicit `Panicked` outcome.

Each debug assertion of the source whose failure only a programming error can cause becomes a `requires`.

## Model

| member | source | states |
|---|---|---|
| `Bits.SltIsFlippedUnsigned` | lib/standard_extensions/i.rs:109 | signed less-than on words is the unsigned order of the words with their sign bits flipped |
| `Bits.SltIrreflexive` | lib/standard_extensions/i.rs:109 | no word is signed-less than itself |
| `Bits.SltTransitive` | lib/standard_extensions/i.rs:109 | signed less-than is transitive |
| `Bits.SltExtremes` | lib/standard_extensions/i.rs:109 | 0x80000000 is signed-below every other word, every other word is below 0x7FFFFFFF, and -1 is below 0 but not conversely |
| `Bits.SraSignFill` | lib/common.h:153-158 | an arithmetic right shift by less than 32 fills the vacated bits with ones exactly for a negative word and keeps the sign; on a non-negative word it equals the logical shift |
| `Bits.SraExample` | lib/common.h:153-158 | `0x80000000 sra 4 == 0xF8000000`, the unit test's value |
| `Bits.SraBy31` | lib/common.h:153-158 | a shift by 31 leaves 0xFFFFFFFF for a negative word and 0 otherwise |
| `Registers.Written` | lib/state.rs:66-71 | a register-file write keeps the 31 stored registers (x0 is not stored) |
| `Registers.WrittenReadsBack` | lib/state.rs:57-71 | after writing v to r: x0 reads 0, r (when not x0) reads v, and every other register reads what it did before |
| `XrveHandler.TypeSatisfiesExactly` | lib/pmmap/memory_handler.rs:114-126 | a criterion's access type accepts a request iff the criterion is `All` or equals the request |
| `XrveHandler.SizeSatisfiesExactly` | lib/pmmap/memory_handler.rs:128-140 | a criterion's access size accepts a request iff the criterion is `All` or equals the request |
| `XrveHandler.WildcardIsOneSided` | lib/pmmap/memory_handler.rs:114-140 | a request for `All` is met only by an `All` criterion: the wildcard works on the criterion side only |
| `XrveHandler.CriteriaSatisfiesExactly` | lib/pmmap/memory_handler.rs:142-156 | `Never` never matches; `Always` matches on type and size; `SingleAddress` also needs `addr == match_addr`; `AddressRange` also needs `start <= addr <= end` |
| `XrveHandler.AddressRangeInclusive` | lib/pmmap/memory_handler.rs:151-152 | both ends of an address range match, and the addresses just outside do not |
| `XrvePmmap.Width` | legacy_from_xrve/lib/pmmap.rs:101-106 | a byte, halfword or word access covers 1, 2 or 4 bytes |
| `XrvePmmap.FirstMatch` | legacy_from_xrve/lib/pmmap.rs:108-118 | the index found matches the access and no earlier handler does; none is found iff no handler matches |
| `XrvePmmap.FirstMatchStable` | legacy_from_xrve/lib/pmmap.rs:53-56 | registering another handler never changes where an access that already routes goes: earlier handlers win |
| `XrvePmmap.FirstMatchAppended` | legacy_from_xrve/lib/pmmap.rs:53-56 | an access that did not route goes to a newly registered handler exactly when that handler accepts it |
| `XrvePmmap.MisalignedAlwaysFails` | legacy_from_xrve/lib/pmmap.rs:104-105 | an odd halfword address or a word address not divisible by 4 fails whatever is registered |
| `XrvePmmap.RamMatches` | legacy_from_xrve/lib/pmmap/ram.rs:49-58 | a RAM accepts exactly the fetches, reads and writes of any size from its start to its end address, both inclusive |
| `XrvePmmap.EndAddressRoutesToRam` | legacy_from_xrve/lib/pmmap/ram.rs:56-58 | the address `start + size` routes to the RAM although the RAM has no byte there |
| `XrvePmmap.SearchSanity` | legacy_from_xrve/lib/pmmap.rs:145-190 | the search tests' expectations: every search of an empty map fails; with a RAM at 0x1234 of size 0x5678 the aligned in-range accesses succeed, 0x1000 fails, and misaligned ones fail |
| `XrvePmmap.PhysicalMemoryMap.constructor` | legacy_from_xrve/lib/pmmap.rs:42-46 | a new map has no handlers |
| `XrvePmmap.PhysicalMemoryMap.RegisterHandler` | legacy_from_xrve/lib/pmmap.rs:53-56 | the handler is appended to the end of the list |
| `XrvePmmap.PhysicalMemoryMap.Search` | legacy_from_xrve/lib/pmmap.rs:94-119 | the nested loop finds the first handler in registration order with a satisfying criterion; it fails iff the access is misaligned or no handler matches |
| `XrvePmmap.PhysicalMemoryMap.FetchByte` | legacy_from_xrve/lib/pmmap.rs:59-61 | the routed handler's byte, or `Err` when the search fails |
| `XrvePmmap.PhysicalMemoryMap.ReadByte` | legacy_from_xrve/lib/pmmap.rs:62-64 | the routed handler's byte, or `Err` when the search fails |
| `XrvePmmap.PhysicalMemoryMap.FetchHalfword` | legacy_from_xrve/lib/pmmap.rs:73-75 | the routed handler's two bytes little-endian, or `Err` |
| `XrvePmmap.PhysicalMemoryMap.ReadHalfword` | legacy_from_xrve/lib/pmmap.rs:76-78 | the routed handler's two bytes little-endian, or `Err` |
| `XrvePmmap.PhysicalMemoryMap.FetchWord` | legacy_from_xrve/lib/pmmap.rs:83-85 | the routed handler's four bytes little-endian, or `Err` |
| `XrvePmmap.PhysicalMemoryMap.ReadWord` | legacy_from_xrve/lib/pmmap.rs:86-88 | the routed handler's four bytes little-endian, or `Err` |
| `XrvePmmap.PhysicalMemoryMap.WriteByte` | legacy_from_xrve/lib/pmmap.rs:65-68 | on success exactly one byte of the routed handler changes; on `Err` no handler changes |
| `XrvePmmap.PhysicalMemoryMap.WriteHalfword` | legacy_from_xrve/lib/pmmap.rs:79-82 | on success the routed handler holds the halfword's two bytes little-endian and nothing else changes; on `Err` nothing changes |
| `XrvePmmap.PhysicalMemoryMap.WriteWord` | legacy_from_xrve/lib/pmmap.rs:89-92 | on success the routed handler holds the word's four bytes little-endian and nothing else changes; on `Err` nothing changes |
| `XrveRam.RamCriteria` | legacy_from_xrve/lib/pmmap/ram.rs:49-51 | a RAM publishes exactly three criteria: fetch, read and write, of any size, all over the same inclusive range |
| `XrveRam.HalfwordBytes` | lib/pmmap/memory_handler.rs:85-89 | the two bytes `write_halfword` stores read back little-endian as the halfword |
| `XrveRam.WordBytes` | lib/pmmap/memory_handler.rs:101-107 | the four bytes `write_word` stores read back little-endian as the word |
| `XrveRam.Splice` | lib/pmmap/memory_handler.rs:85-107 | a multi-byte write changes exactly the bytes of its window, which hold the new bytes in order |
| `XrveRam.WordRoundTrip` | lib/pmmap/memory_handler.rs:93-107 | `read_word` after `write_word` at the same address gives the word back, and every byte outside the four is unchanged |
| `XrveRam.HalfwordRoundTrip` | lib/pmmap/memory_handler.rs:79-89 | `read_halfword` after `write_halfword` gives the halfword back, and every byte outside the two is unchanged |
| `XrveRam.Ram.EndAddr` | legacy_from_xrve/lib/pmmap/ram.rs:56-58 | the end address is the start plus the size, above the start |
| `XrveRam.Ram.constructor` | legacy_from_xrve/lib/pmmap/ram.rs:41-54 | a positive size; every byte holds the reset pattern 0xA5; the criteria are the three ranges from the start to the end address |
| `XrveRam.Ram.GetMatchCriteria` | legacy_from_xrve/lib/pmmap/ram.rs:62-64 | the criteria are fetch, read and write over `start..=end_addr`, fixed at construction |
| `XrveRam.Ram.ReadByte` | legacy_from_xrve/lib/pmmap/ram.rs:66-71 | an address inside the RAM reads the byte at offset `addr - start` |
| `XrveRam.Ram.WriteByte` | legacy_from_xrve/lib/pmmap/ram.rs:73-77 | only the byte at offset `addr - start` changes, to the data |
| `XrveRam.Ram.FetchByte` | lib/pmmap/memory_handler.rs:69-71 | a fetch reads exactly what a read does |
| `XrveRam.Ram.ReadHalfword` | lib/pmmap/memory_handler.rs:79-84 | two bytes composed little-endian |
| `XrveRam.Ram.FetchHalfword` | lib/pmmap/memory_handler.rs:76-78 | a fetch reads exactly what a read does |
| `XrveRam.Ram.ReadWord` | lib/pmmap/memory_handler.rs:93-100 | four bytes composed little-endian |
| `XrveRam.Ram.FetchWord` | lib/pmmap/memory_handler.rs:90-92 | a fetch reads exactly what a read does |
| `XrveRam.Ram.WriteHalfword` | lib/pmmap/memory_handler.rs:85-89 | the halfword's bytes, low first, replace the two bytes at the address and nothing else changes |
| `XrveRam.Ram.WriteWord` | lib/pmmap/memory_handler.rs:101-107 | the word's bytes, low first, replace the four bytes at the address and nothing else changes |
| `XrveFetch.JoinSplits` | legacy_from_xrve/lib/fetch.rs:68-69 | the joined word holds the first halfword low and the second high, and its length bits are the first halfword's |
| `XrveFetch.ClassifyMeaning` | legacy_from_xrve/lib/fetch.rs:45-79 | `Unaligned` iff the pc is odd; `Compressed(first)` iff the first halfword reads and its low bits are not `11`; `Regular(second << 16 \| first)` iff both reads succeed and the first starts a 32-bit instruction; `Fault` iff a needed read fails |
| `XrveFetch.FetchRaw` | legacy_from_xrve/lib/fetch.rs:45-79 | the fetched instruction is what the halfword reads at `pc` and `pc + 2` (read-type routing) classify to |
| `XrveFetch.FetchSecondHalf` | legacy_from_xrve/lib/fetch.rs:65-74 | once the first halfword starts a 32-bit instruction, exactly one more halfword is read, at `pc + 2`, and a failed read is `Fault` |
| `XrveState.State.constructor` | lib/state.rs:41-51 | pc 0, all 31 stored registers 0, nothing retired |
| `XrveState.State.Pc` | lib/state.rs:53-55 | the pc is only read; no method of `State` writes it |
| `XrveState.State.GetR` | lib/state.rs:57-64 | register r of the file; x0 always reads 0 |
| `XrveState.State.SetR` | lib/state.rs:66-71 | the file becomes `Written(old, r, v)`: x0 unchanged, r takes v, every other register unchanged |
| `XrveState.State.RetireInst` | lib/state.rs:73-75 | the retired count rises by exactly one, and must stay within 64 bits |
| `XrveState.State.RetiredInsts` | lib/state.rs:77-79 | the count `retire_inst` maintains |
| `XrveI.ImmISignExtends` | lib/standard_extensions/i.rs:136 | the I-type immediate keeps bits 31:20 as its low twelve bits and copies bit 31 above them |
| `XrveI.OpLegalExactly` | lib/standard_extensions/i.rs:105-117 | OP is legal exactly for funct7 = 0 with any funct3, and funct7 = 0b0100000 with funct3 000 (SUB) or 101 (SRA) |
| `XrveI.OpImmLegalExactly` | lib/standard_extensions/i.rs:145-164 | OP-IMM panics only for a right shift whose funct7 is neither 0 nor 0b0100000; 0b0100000 selects SRAI; every other funct3 is the OP operation of the same funct3 |
| `XrveI.SubUndoesAdd` | lib/standard_extensions/i.rs:106-111 | wrapping SUB undoes wrapping ADD, and XOR undoes itself |
| `XrveI.SetLessThanMeaning` | lib/standard_extensions/i.rs:109-110 | SLT(0x80000000, 1) = 1 and SLTU(0x80000000, 1) = 0; SLT is the unsigned order of the sign-flipped operands |
| `XrveI.ShiftRightFill` | lib/standard_extensions/i.rs:112-113 | SRL zero-fills (by the low five bits of rs2); SRA keeps a negative word negative and equals SRL on a non-negative one |
| `XrveI.ImmediateExamples` | lib/standard_extensions/i.rs:146-149 | ADDI of 5 and -1 gives 4; SLTIU of 1 against -1 is 1 while SLTI is 0 |
| `XrveI.MajorOpcodeHandled` | lib/standard_extensions/i.rs:85-127 | the OP handler declares the OP opcode and the OP-IMM handler the OP-IMM opcode |
| `XrveI.Handle` | lib/standard_extensions/i.rs:89-168 | the only effect is one `set_r(rd, result)`: a panic (an illegal funct combination) leaves the registers unchanged, otherwise the file is `Written(old, rd, result)` |
| `XrveDecoder.MajorOpcode` | lib/decode.cpp:42 | the major opcode is bits 6:2, below 32 |
| `XrveDecoder.Decoder.constructor` | lib/instance.rs:69 | a new decoder routes nothing |
| `XrveDecoder.Decoder.Lookup` | lib/instance.rs:228-230 | only a 32-bit instruction is routed, to the handler registered for its major opcode |
| `XrveDecoder.Decoder.Decode` | lib/instance.rs:228 | decoding is the lookup |
| `XrveDecoder.Decoder.RegisterHandler` | lib/instance.rs:145-149 | the handler is installed for its declared opcode, and the handler it displaces is returned |
| `XrveDecoder.RegisteredHandlerDecodes` | lib/instance.rs:145-149 | after registering, every instruction with the handler's opcode decodes to it, and other opcodes are unaffected |
| `XrveDecoder.StandardOpcodes` | lib/standard_extensions/i.rs:85-127 | `0x00000033` has the OP handler's opcode and `0x00000013` the OP-IMM handler's |
| `XrveInstance.Tick` | lib/instance.rs:225-237 | fetch, decode, unwrap, handle, retire: a completed tick writes `Written(old, rd, result)` and raises the count by exactly one; a missing handler or a handler panic changes nothing |
| `XrveInstance.DecodeAndExecute` | lib/instance.rs:228-236 | the part of a tick after the fetch has the same effect as the tick, over the fetched instruction |
| `XrveInstance.TickResult` | lib/instance.rs:225-237 | only a 32-bit instruction can produce a result |
| `XrveInstance.Instance.constructor` | lib/instance.rs:64-79 | a new instance is idle: it owns a fresh state (pc 0, nothing retired), an empty map and an empty decoder, with no logger, no thread and no stop request |
| `XrveInstance.Instance.SingleStep` | lib/instance.rs:83-87 | one tick on the instance's own components: the registers become `Written(old, rd, result)` and the count rises by one when the tick completes; both stay as they were when it panics |
| `XrveInstance.Instance.RunInThread` | lib/instance.rs:89-112 | from idle, every component moves to the thread, the instance holds none of them, and the stop request is cleared |
| `XrveInstance.Instance.StopThread` | lib/instance.rs:114-130 | from running, the stop request is set and every component comes back from the joined thread |
| `XrveInstance.Instance.GetLogReceiver` | lib/instance.rs:132-141 | installs the logger once, while no thread runs, and changes no other component |
| `XrveInstance.Instance.RegisterInstructionHandler` | lib/instance.rs:145-149 | while idle, the decoder gains the handler and the displaced one is returned |
| `XrveInstance.Instance.RegisterMemoryHandler` | lib/instance.rs:151-155 | while idle, the handler is appended to the map |
| `XrveInstance.Instance.ReadByteFromMemory` | lib/instance.rs:177-180 | the map's read result, passed back unchanged |
| `XrveInstance.Instance.WriteByteToMemory` | lib/instance.rs:182-185 | the map's write, with its result passed back |
| `XrveInstance.Instance.ReadHalfwordFromMemory` | lib/instance.rs:187-190 | the map's read result, passed back unchanged |
| `XrveInstance.Instance.WriteHalfwordToMemory` | lib/instance.rs:192-195 | the map's write, with its result passed back |
| `XrveInstance.Instance.ReadWordFromMemory` | lib/instance.rs:197-200 | the map's read result, passed back unchanged |
| `XrveInstance.Instance.WriteWordToMemory` | lib/instance.rs:202-205 | the map's write, with its result passed back |
| `XrveAbout.DigitValue` | lib/about.rs:52 | a digit's value is below 10 |
| `XrveAbout.PrefixValueBounded` | lib/about.rs:43-55 | the value of every prefix of a digit string is at most the whole string's, so the running result never exceeds the final one |
| `XrveAbout.ConstParseToU128` | lib/about.rs:31-58 | the loop computes the decimal value of a non-empty digit string, most significant digit first |
| `XrveAbout.Decimal` | lib/about.rs:31-58 | the rendering of a number is a non-empty digit string |
| `XrveAbout.ParseRendersBack` | lib/about.rs:31-58 | parsing inverts rendering: every natural number is the value of its decimal rendering |
| `XrveAbout.LeadingZeroIgnored` | lib/about.rs:70 | a leading zero does not change the value |
| `XrveAbout.Pow10` | lib/about.rs:47 | powers of ten are positive |
| `XrveAbout.ConcatValue` | lib/about.rs:43-55 | a string's value is its head's value times ten to the tail's length, plus the tail's value |
| `XrveAbout.ParserExamples` | lib/about.rs:66-71 | "0", "123", "1234567890" and "9876543210" parse to their values |
| `XrveAbout.ThirtyDigitExample` | lib/about.rs:69 | the 30-digit test input parses exactly and fits in 128 bits |
| `XrveAbout.ZerosExample` | lib/about.rs:70 | "0000000000" parses to 0 |
| `IrveWord.Bit` | lib/common.h:174-177 | `bit(b)` for `b < 32` is 0 or 1: bit b moved to the least significant position |
| `IrveWord.SignedNegateInverse` | lib/common.h:85 | two's-complement negation is an additive inverse and an involution, and 0x80000000 negates to itself |
| `IrveWord.AddSubWrap` | lib/common.h:88-97 | `+` and `-` work modulo 2^32: subtracting undoes adding, 0xFFFFFFFF + 1 is 0 and 0 - 1 is 0xFFFFFFFF |
| `IrveWord.ShiftFill` | lib/common.h:135-158 | the unit test's shift values (`0x80000000 srl 4 == 0x08000000`, `sra 4 == 0xF8000000`); `<<` drops the top bit; bit 31 is set iff the word is negative |
| `IrveWord.BitRangeExamples` | lib/common.h:187 | `bits(31, 0)` is the word; `bits(11, 7)`, `bits(6, 2)`, `bits(1, 0)` and `bit(3)` are the shifted, masked fields |
| `IrveWord.SignExtendFromBit11` | lib/common.h:197 | sign extension from bit 11 in closed form: bits above 11 all copy bit 11, bits up to 11 are kept |
| `IrveWord.SignExtendFromBit12` | lib/common.h:197 | the same from bit 12 |
| `IrveWord.SignExtendFromBit20` | lib/common.h:197 | the same from bit 20 |
| `IrveWord.SignExtendFromBit7` | lib/common.h:197 | the same from bit 7 (signed byte loads) |
| `IrveWord.SignExtendFromBit15` | lib/common.h:197 | the same from bit 15 (signed halfword loads) |
| `IrvePow.PowSquare` | lib/common.cpp:26-36 | squaring the base halves the exponent: `b^(2k) == (b*b)^k` and `b^(2k+1) == b*(b*b)^k`, the identity square-and-multiply rests on |
| `IrvePow.PowMod` | lib/common.cpp:26-36 | reducing the base modulo 2^32 first does not change the power modulo 2^32 |
| `IrvePow.Upow` | lib/common.cpp:26-36 | the square-and-multiply loop returns `base^exponent mod 2^32` |
| `IrvePow.UpowStep` | lib/common.cpp:28-34 | one loop step keeps `result * base^exponent mod 2^32` unchanged |
| `IrvePow.Spow` | lib/common.cpp:40-56 | `spow` returns what `SpowSpec` says: a negative exponent inverts the positive power (failing when it is 0); a negative base uses `upow` of its magnitude, negated for an odd exponent; otherwise `upow` cast to signed |
| `IrvePow.PowNegate` | lib/common.cpp:46-52 | `(-b)^e` is `-(b^e)` for odd e and `b^e` for even e |
| `IrvePow.SpowIsWrappedPower` | lib/common.cpp:46-56 | for a non-negative exponent `spow` is the true power wrapped to 32-bit two's complement, whatever the sign of the base |
| `IrvePow.SpowNegativeExponent` | lib/common.cpp:40-45 | for a negative exponent `spow` throws exactly when the positive power wraps to 0, and otherwise is `1 / power` truncated (1, -1 or 0) |
| `IrvePow.SpowSpec` | lib/common.cpp:38-56 | a non-negative exponent never throws, exponent 0 gives 1, and a negative exponent gives 1, 0 or -1 when it does not throw |
| `IrvePow.UpowSmallExponents` | lib/common.cpp:27-28 | `upow(b, 0) == 1`, `upow(b, 1) == b`, and `upow(2, 32)` wraps to 0 |
| `IrveRegFile.Observed` | src/reg_file.cpp:13-23 | what the 32 registers read as: x0 is 0 and every other index is its stored value |
| `IrveRegFile.RegFile.constructor` | src/reg_file.cpp:11 | value-initialised: all 32 stored registers are 0 |
| `IrveRegFile.RegFile.Read` | src/reg_file.cpp:19-23 | reading index i (below 32) zeroes the stored x0 and returns the observed value of i |
| `IrveRegFile.RegFile.Write` | src/reg_file.cpp:13-17 | a write through index i zeroes x0 first, then stores v at i |
| `IrveRegFile.WriteThenObserve` | src/reg_file.cpp:13-23 | after a write through i, x0 still reads 0 (even for i = 0), i reads v, and every other index is unchanged |
| `IrveRegFile.RegFileScenario` | src/reg_file.cpp:13-23 | after writes through x0 to x31, x0 reads 0 and each of x1, x2, x5, x20 and x31 reads the last value written to it |
| `IrveCpuState.CpuState.constructor` | lib/cpu_state.cpp:31-43 | pc 0, no reservation, and the 31 registers filled from the (pseudo-random) initial values |
| `IrveCpuState.CpuState.SetPc` | lib/cpu_state.cpp:49-51 | the pc becomes the value and the reservation flag is kept |
| `IrveCpuState.CpuState.GetR` | lib/cpu_state.cpp:53-60 | register n below 32 of the stored file; x0 reads 0 |
| `IrveCpuState.CpuState.SetR` | lib/cpu_state.cpp:62-67 | the registers become `Written(old, n, v)`: x0 ignores the write, n takes v, others unchanged |
| `IrveCpuState.CpuState.ValidateReservationSet` | lib/cpu_state.cpp:97-99 | the reservation becomes valid and the pc is unchanged |
| `IrveCpuState.CpuState.InvalidateReservationSet` | lib/cpu_state.cpp:101-103 | the reservation becomes invalid and the pc is unchanged |
| `IrveCpuState.CpuState.GotoNextSequentialPc` | lib/cpu_state.cpp:109-112 | the pc advances by 4 modulo 2^32 and the reservation flag is kept |
| `IrveCpuState.RegisterScenario` | tests/unit/cpu_state.cpp:47-66 | the unit test's register sequence: x0 ignores its write, x1, x20 and x31 hold their values, and x2 survives the writes to other registers |
| `IrveDecode.Decode` | lib/decode.cpp:41-121 | decoding throws an illegal-instruction exception iff the word is 0, all ones, has low bits other than `11`, or has an opcode outside the format table; otherwise the decoded opcode is bits 6:2 and the format is the table's |
| `IrveDecode.GetFunct3` | lib/decode.cpp:204-210 | for any instruction word that decodes to this instruction, the funct3 field of the word |
| `IrveDecode.GetFunct5` | lib/decode.cpp:212-216 | for any instruction word that decodes to this instruction, the funct5 field of the word |
| `IrveDecode.GetRd` | lib/decode.cpp:224-230 | for any instruction word that decodes to this instruction, the rd field of the word |
| `IrveDecode.GetRs1` | lib/decode.cpp:232-238 | for any instruction word that decodes to this instruction, the rs1 field of the word |
| `IrveDecode.GetImm` | lib/decode.cpp:248-272 | for any instruction word that decodes to this instruction, the immediate of the word's format (none for R-type) |
| `IrveDecode.FieldsShape` | lib/decode.cpp:42-48 | opcode = bits 6:2, funct3 = 14:12, funct5 = 31:27, funct7 = 31:25, rd = 11:7, rs1 = 19:15, rs2 = 24:20 |
| `IrveDecode.ImmIClosed` | lib/decode.cpp:49 | the I immediate is the word shifted right arithmetically by 20: bits 31:20 sign-extended from bit 11 |
| `IrveDecode.ImmSClosed` | lib/decode.cpp:50-56 | the S immediate is bits 31:25 above bits 11:7, sign-extended from bit 11 |
| `IrveDecode.ImmBClosed` | lib/decode.cpp:57-66 | the B immediate is bits 31, 7, 30:25 and 11:8 placed at 12, 11, 10:5 and 4:1, bit 0 clear, sign-extended from bit 12 |
| `IrveDecode.ImmJClosed` | lib/decode.cpp:68-77 | the J immediate is bits 31, 19:12, 20 and 30:21 placed at 20, 19:12, 11 and 10:1, bit 0 clear, sign-extended from bit 20 |
| `IrveDecode.ImmIShape` | lib/decode.cpp:49 | the I immediate fits in 12 signed bits and has the sign of the instruction word |
| `IrveDecode.ImmSShape` | lib/decode.cpp:50-56 | the S immediate fits in 12 signed bits and has the sign of the instruction word |
| `IrveDecode.ImmBShape` | lib/decode.cpp:57-66 | the B immediate fits in 13 signed bits, is even, and has the sign of the instruction word |
| `IrveDecode.ImmJShape` | lib/decode.cpp:68-77 | the J immediate fits in 21 signed bits, is even, and has the sign of the instruction word |
| `IrveDecode.ReencodeR` | lib/decode.cpp:42-48 | re-encoding an R-type word's fields gives the word back: the fields cover every bit |
| `IrveDecode.ReencodeI` | lib/decode.cpp:42-49 | re-encoding an I-type word's immediate and fields gives the word back |
| `IrveDecode.ReencodeS` | lib/decode.cpp:42-56 | re-encoding an S-type word's immediate and fields gives the word back |
| `IrveDecode.ReencodeB` | lib/decode.cpp:42-66 | re-encoding a B-type word's immediate and fields gives the word back |
| `IrveDecode.ReencodeU` | lib/decode.cpp:67 | re-encoding a U-type word's immediate and rd gives the word back |
| `IrveDecode.ReencodeJ` | lib/decode.cpp:68-77 | re-encoding a J-type word's immediate and rd gives the word back |
| `IrveDecode.DecodeEncodeR` | lib/decode.cpp:42-48 | every field of an encoded R-type instruction decodes to the value encoded |
| `IrveDecode.DecodeEncodeI` | lib/decode.cpp:42-49 | every field of an encoded I-type instruction, the 12-bit signed immediate included, decodes to the value encoded |
| `IrveDecode.DecodeEncodeS` | lib/decode.cpp:50-56 | every field of an encoded S-type instruction decodes to the value encoded |
| `IrveDecode.DecodeEncodeB` | lib/decode.cpp:57-66 | every field of an encoded B-type instruction, the even 13-bit immediate included, decodes to the value encoded |
| `IrveDecode.DecodeEncodeU` | lib/decode.cpp:67 | an encoded U-type instruction decodes to its immediate (low 12 bits clear) and rd |
| `IrveDecode.DecodeEncodeJ` | lib/decode.cpp:68-77 | an encoded J-type instruction decodes to its even 21-bit immediate and rd |
| `IrveDecode.DecodeRoundTrip` | lib/decode.cpp:41-272 | a decoded instruction, re-encoded in its format from its getters (`get_imm` included), is the original word |
| `IrveDecode.DecodeExamples` | tests/unit/decode.cpp:27-66 | `0x00000013` decodes to OP_IMM, I-type, with rd, rs1, funct3 and imm all 0; `0`, `0xFFFFFFFF` and `1` raise illegal-instruction |
| `IrveDecode.FormatTable` | lib/decode.cpp:85-120 | exactly the thirteen opcodes LOAD, CUSTOM_0, MISC_MEM, OP_IMM, AUIPC, STORE, AMO, OP, LUI, BRANCH, JALR, JAL and SYSTEM have a format |
| `IrveCsr.Reset` | lib/csr.cpp:46-77 | the reset register file is well formed: 64 pmpaddr entries (the random start values are parameters), pmpcfg all zero |
| `IrveCsr.NameOf` | lib/csr.cpp:95-164 | every address that falls under a case label names a register whose index (hpm counter, pmpcfg, pmpaddr) lies inside its range; all other addresses are the default label |
| `IrveCsr.HalfReplacement` | lib/csr.cpp:209-215 | writing the low (high) half of a 64-bit counter keeps the other half and replaces that half with the data |
| `IrveCsr.LowReplaced` | lib/csr.cpp:209-210 | replacing the low word of a high:low pair equals masking out the low 32 bits and or-ing in the data |
| `IrveCsr.HighReplaced` | lib/csr.cpp:214-215 | replacing the high word of a high:low pair equals masking out the high 32 bits and or-ing in the data shifted by 32 |
| `IrveCsr.WriteNamed` | lib/csr.cpp:171-241 | a write that does not throw keeps the register file well formed and the privilege mode unchanged |
| `IrveCsr.WriteSupervisorRegs` | lib/csr.cpp:175-185 | a supervisor-register write touches neither the pmp registers, the counters nor the privilege mode |
| `IrveCsr.WriteSetupRegs` | lib/csr.cpp:186-195 | a machine trap-setup write leaves the supervisor registers, counters, pmp registers and mode unchanged |
| `IrveCsr.WriteHandlingRegs` | lib/csr.cpp:199-203 | a machine trap-handling write leaves the supervisor registers, counters, pmp registers and mode unchanged |
| `IrveCsr.WriteCounterHalves` | lib/csr.cpp:209-217 | a counter write changes only the counters |
| `IrveCsr.WriteTimerRegs` | lib/csr.cpp:219-238 | a timer write leaves everything but the timer registers unchanged except, at most, clearing mip.MTIP |
| `IrveCsr.Write` | lib/csr.cpp:171-241 | `implicit_write`: a write that does not raise keeps the file well formed and the mode unchanged |
| `IrveCsr.WriteOrKeep` | lib/csr.cpp:171-241 | the state after `implicit_write`, whether it raised (state kept) or not, is well formed with the same mode |
| `IrveCsr.Csr.Snapshot` | lib/csr.cpp:46-77 | the value view of the CSR object is a well-formed register file |
| `IrveCsr.Csr.constructor` | lib/csr.cpp:46-77 | a new CSR object holds exactly the reset register file for the given random start values |
| `IrveCsr.Csr.SetPrivilegeMode` | lib/csr.cpp:244-246 | only the privilege mode changes, to the given one |
| `IrveCsr.Csr.ImplicitWrite` | lib/csr.cpp:171-241 | the object ends in `WriteOrKeep` of its old state; it raises illegal-instruction exactly when `Write` does |
| `IrveCsr.Csr.WriteSupervisor` | lib/csr.cpp:175-185 | the object ends in `WriteSupervisorRegs` of its old state |
| `IrveCsr.Csr.WriteSetup` | lib/csr.cpp:186-195 | the object ends in `WriteSetupRegs` of its old state, or is unchanged when that raises illegal-instruction |
| `IrveCsr.Csr.WriteHandling` | lib/csr.cpp:199-207 | the object ends in `WriteHandlingRegs` of its old state |
| `IrveCsr.Csr.WriteCounter` | lib/csr.cpp:209-217 | the object ends in `WriteCounterHalves` of its old state |
| `IrveCsr.Csr.WriteTimer` | lib/csr.cpp:219-238 | the object ends in `WriteTimerRegs` of its old state |
| `IrveCsr.Csr.ExplicitWriteCsr` | lib/csr.cpp:86-92 | the privilege-checked write: the object ends in `ExplicitWrite` of its old state, or is unchanged when it raises illegal-instruction |
| `IrveCsr.Read` | lib/csr.cpp:95-169 | a read succeeds exactly for an implemented CSR address, and any other address raises illegal-instruction |
| `IrveCsr.ExplicitRead` | lib/csr.cpp:79-84 | a privilege-checked read succeeds exactly when the current mode may read the address and it is implemented; it then returns the unchecked read, and otherwise raises illegal-instruction |
| `IrveCsr.Csr.ImplicitRead` | lib/csr.cpp:95-169 | the object's read succeeds exactly for an implemented address and returns the named register of its state; any other address raises illegal-instruction |
| `IrveCsr.Csr.ExplicitReadCsr` | lib/csr.cpp:79-84 | the object's checked read succeeds exactly when the mode may read an implemented address, returns what `ImplicitRead` returns, and otherwise raises illegal-instruction |
| `IrveCsrFacts.SupervisorNames` | lib/csr.cpp:97-107 | sstatus, sie, sip, senvcfg, sepc and satp each decode to their own supervisor register |
| `IrveCsrFacts.SupervisorTrapNames` | lib/csr.cpp:99-105 | stvec, scause and stval decode to their own supervisor register |
| `IrveCsrFacts.MachineSetupNames` | lib/csr.cpp:108-118 | mstatus, mtvec, mie, medeleg, mideleg, menvcfg and the ignored setup registers decode to machine trap-setup registers |
| `IrveCsrFacts.MachineHandlingNames` | lib/csr.cpp:117-126 | mcause, mip, mepc and mtval decode to machine trap-handling registers |
| `IrveCsrFacts.MachineCounterNames` | lib/csr.cpp:131-137 | minstret(h) and mcycle(h) decode to the two counters' halves |
| `IrveCsrFacts.MachineTimerNames` | lib/csr.cpp:141-144 | mtime(h) and mtimecmp(h) decode to the timer registers' halves |
| `IrveCsrFacts.UserCounterNames` | lib/csr.cpp:146-153 | cycle(h) and time(h) decode to read-only user counters |
| `IrveCsrFacts.InformationNames` | lib/csr.cpp:148-161 | instret(h), mvendorid and mhartid decode to read-only registers |
| `IrveCsrFacts.ResetMachineValues` | lib/csr.cpp:46-71 | after reset the mode is machine, mstatus and mcause read 0, mtvec reads 5, and the other trap registers read 0 |
| `IrveCsrFacts.ResetCounterValues` | lib/csr.cpp:65-66 | after reset both halves of minstret and mcycle read 0 |
| `IrveCsrFacts.ResetTimerValues` | lib/csr.cpp:67-68 | after reset mtime reads 0 and both halves of mtimecmp read all ones |
| `IrveCsrFacts.MergeBits` | lib/csr.cpp:175-184 | a masked merge takes the data's bits inside the mask and keeps the field's bits outside it |
| `IrveCsrFacts.SstatusView` | lib/csr.cpp:175 | writing sstatus reads back as the data under the sstatus mask, keeps mstatus's other bits, and changes nothing but mstatus |
| `IrveCsrFacts.SieView` | lib/csr.cpp:176 | writing sie reads back as the data under the sie mask, keeps mie's other bits, and changes nothing but mie |
| `IrveCsrFacts.SipView` | lib/csr.cpp:184 | writing sip reads back as the data under the sip mask, keeps mip's other bits, and changes nothing but mip |
| `IrveCsrFacts.MaskedReads` | lib/csr.cpp:97-106 | sstatus, sie and sip read as mstatus, mie and mip under their masks |
| `IrveCsrFacts.ExceptionPcWrites` | lib/csr.cpp:181-200 | sepc and mepc read back as the data with its low two bits cleared |
| `IrveCsrFacts.SatpWrite` | lib/csr.cpp:185 | satp reads back as the data under the satp mask (no ASID bits) |
| `IrveCsrFacts.MedelegWrite` | lib/csr.cpp:188 | medeleg reads back as the data restricted to the delegable exceptions |
| `IrveCsrFacts.EnvcfgWrites` | lib/csr.cpp:179-192 | senvcfg and menvcfg read back as the data's bit 0 alone |
| `IrveCsrFacts.InterruptEnableWrites` | lib/csr.cpp:189-190 | mideleg and mie read back as the data restricted to the six standard interrupt bits |
| `IrveCsrFacts.MipWrite` | lib/csr.cpp:203 | mip reads back as the data restricted to the supervisor pending bits, so no machine pending bit is set by software |
| `IrveCsrFacts.CycleLowWrite` | lib/csr.cpp:209 | writing mcycle reads back as the data, keeps mcycleh, and replaces the low half of the 64-bit counter |
| `IrveCsrFacts.CycleHighWrite` | lib/csr.cpp:214 | writing mcycleh reads back as the data, keeps mcycle, and replaces the high half of the 64-bit counter |
| `IrveCsrFacts.InstretLowWrite` | lib/csr.cpp:210 | writing minstret reads back as the data, keeps minstreth, and replaces the low half of the 64-bit counter |
| `IrveCsrFacts.InstretHighWrite` | lib/csr.cpp:215 | writing minstreth reads back as the data, keeps minstret, and replaces the high half of the 64-bit counter |
| `IrveCsrFacts.CycleReads` | lib/csr.cpp:146-152 | cycle and cycleh read the same as mcycle and mcycleh |
| `IrveCsrFacts.TimeReads` | lib/csr.cpp:147-153 | time and timeh read the same as mtime and mtimeh |
| `IrveCsrFacts.InstretReads` | lib/csr.cpp:148-154 | instret and instreth read the same as minstret and minstreth |
| `IrveCsrFacts.ReadOnlyWrites` | lib/csr.cpp:240 | writes to read-only registers (cycle, timeh, mvendorid, hpmcounterh) raise illegal-instruction |
| `IrveCsrFacts.TimerCompareLowWrite` | lib/csr.cpp:231-234 | writing mtimecmp reads back as the data and clears mip.MTIP leaving mip's other bits |
| `IrveCsrFacts.TimerCompareHighWrite` | lib/csr.cpp:235-238 | writing mtimecmph reads back as the data and clears mip.MTIP leaving mip's other bits |
| `IrveCsrFacts.IgnoredWrites` | lib/csr.cpp:187-195 | writes to misa, mstatush, menvcfgh and mcountinhibit succeed and change nothing |
| `IrveCsrFacts.IgnoredCounterWrites` | lib/csr.cpp:197-217 | writes to mtval and the hpm counters succeed and change nothing |
| `IrveCsrFacts.ResetIsLegal` | lib/csr.cpp:46-77 | the reset register file satisfies every constraint the writes enforce |
| `IrveCsrFacts.SupervisorWriteKeepsLegal` | lib/csr.cpp:175-185 | every supervisor-register write preserves the write constraints |
| `IrveCsrFacts.SetupWriteKeepsLegal` | lib/csr.cpp:186-195 | every machine trap-setup write preserves the write constraints |
| `IrveCsrFacts.HandlingWriteKeepsLegal` | lib/csr.cpp:199-207 | every machine trap-handling write preserves the write constraints |
| `IrveCsrFacts.TimerWriteKeepsLegal` | lib/csr.cpp:219-238 | every timer write preserves the write constraints |
| `IrveCsrFacts.WriteKeepsLegal` | lib/csr.cpp:171-241 | every successful `implicit_write` preserves the write constraints (aligned epcs, no ASID, masked delegation and interrupt registers) |
| `IrveCsrFacts.PrivilegeMonotone` | lib/csr.cpp:284-297 | machine mode may read every CSR, and a higher privilege may read and write whatever a lower one may |
| `IrveCsrFacts.WriteCheckIsStricter` | lib/csr.cpp:291-297 | addresses with top bits `11` are never writable, and every writable CSR is readable |
| `IrveCsrFacts.PrivilegeExamples` | lib/csr.cpp:284-297 | user mode cannot read sstatus or mstatus but can read cycle; supervisor mode reads sstatus but not mstatus; nobody writes cycle or mvendorid |
| `IrveCsrFacts.ExplicitAccessChecks` | lib/csr.cpp:79-92 | explicit reads and writes raise illegal-instruction when the privilege check fails and otherwise behave as the implicit ones |
| `IrveCsrFacts.UnknownAddresses` | lib/csr.cpp:95-241 | a read succeeds iff the address has a case label; addresses without one raise illegal-instruction on read and write |
| `IrveCsrFacts.MtinstIsUnknown` | lib/csr.cpp:164 | mtinst has no case label, so reading or writing it raises illegal-instruction |
| `IrveCsrFacts.WrittenIsReadable` | lib/csr.cpp:79-92 | any CSR that can be explicitly written can be explicitly read |
| `IrveAclint.ForwardedTo` | lib/aclint.cpp:33-40 | exactly the four timer offsets (mtime, mtimeh, mtimecmp, mtimecmph) are forwarded, each to the CSR address that names the matching timer register |
| `IrveAclint.RegisterRead` | lib/aclint.cpp:26-43 | every offset other than the four timer offsets reads as 0 |
| `IrveAclint.RegisterReadForwards` | lib/aclint.cpp:42 | a forwarded read returns what the CSR file's `implicit_read` of the matching timer CSR returns |
| `IrveAclint.RegisterWrite` | lib/aclint.cpp:45-62 | writes keep the CSR file well formed and its mode; writes to other offsets change nothing |
| `IrveAclint.RegisterWriteForwards` | lib/aclint.cpp:61 | a forwarded write succeeds and has the effect of the CSR file's `implicit_write` to the matching timer CSR |
| `IrveAclint.ForwardedReads` | lib/aclint.cpp:35-38 | the four timer offsets read the low and high halves of mtime and mtimecmp |
| `IrveAclint.RegisterWriteReadsBack` | lib/aclint.cpp:45-62 | a word written to a timer offset reads back unchanged |
| `IrveAclint.CompareWriteClearsPending` | lib/aclint.cpp:56-61 | writing either half of mtimecmp through the ACLINT clears mip.MTIP |
| `IrveAclint.Aclint.constructor` | lib/aclint.cpp:24 | the ACLINT holds the CSR object it was given |
| `IrveAclint.Aclint.Read` | lib/aclint.cpp:26-43 | an aligned read returns `RegisterRead` of the current CSR file and never raises |
| `IrveAclint.Aclint.Write` | lib/aclint.cpp:45-62 | an aligned write leaves the CSR object holding `RegisterWrite` of its old state |
| `IrveMemory.StoredBytes` | lib/memory.cpp:584-598 | a word store writes 4 bytes, a halfword store 2 and a byte store 1 |
| `IrveMemory.RamWrite` | lib/memory.cpp:569-599 | a RAM write keeps the RAM's size, whatever the address and width |
| `IrveMemory.ReadPhysical` | lib/memory.cpp:364-398 | a physical read that does not succeed returns 0; its effect per region is stated by `IrveMemoryFacts.UnmappedAccesses` and `IrveMemoryFacts.WideAddressAborts`, and an address of 2^34 or more aborts as the assertion at line 367 does |
| `IrveMemory.WritePhysical` | lib/memory.cpp:538-567 | a physical write keeps the memory state well formed and the privilege mode unchanged; an address of 2^34 or more aborts as the assertion at line 541 does, changing nothing (`IrveMemoryFacts.WideAddressAborts`) |
| `IrveMemory.Vpn` | lib/memory.cpp:71-72 | each virtual page number is a 10-bit table index |
| `IrveMemory.PageOffset` | lib/memory.cpp:327-328 | the page offset lies inside a 4 KiB page |
| `IrveMemory.Ppn` | lib/memory.cpp:74-75 | the PTE's PPN field is 22 bits wide |
| `IrveMemory.Ppn1` | lib/memory.cpp:76-77 | the PTE's PPN[1] field is 12 bits wide |
| `IrveMemory.Ppn0` | lib/memory.cpp:78-79 | the PTE's PPN[0] field is 10 bits wide |
| `IrveMemory.WalkStep` | lib/memory.cpp:258-305 | one level of the walk ends only on a valid leaf (not reserved) found at this level, and descends only from level 1 |
| `IrveMemory.Walk` | lib/memory.cpp:256-305 | a walk that succeeds ends on a valid, non-reserved leaf at level 1 or 0 |
| `IrveMemory.CheckLeaf` | lib/memory.cpp:307-339 | a leaf that passes the permission, superpage-alignment and A/D checks translates to a 34-bit physical address |
| `IrveMemory.Translate` | lib/memory.cpp:231-340 | a translation that succeeds yields a 34-bit physical address |
| `IrveMemory.StoreSpec` | lib/memory.cpp:214-229 | a store keeps the memory state well formed and the privilege mode unchanged |
| `IrveMemory.LoadSpec` | lib/memory.cpp:194-212 | a load completes exactly when the load translation succeeds and the physical read at the translated address is `Okay`, and then returns that read's data |
| `IrveMemory.FetchSpec` | lib/memory.cpp:177-192 | a fetch completes exactly when the instruction translation succeeds and the word read at the translated address is `Okay`, and then returns that word |
| `IrveMemory.Memory.Snapshot` | lib/memory.cpp:121-138 | the value view of the memory object is well formed |
| `IrveMemory.Memory.constructor` | lib/memory.cpp:121-138 | a new memory object holds the given RAM contents (the random fill is a parameter), an empty debug line and nothing printed |
| `IrveMemory.Memory.ReadRam` | lib/memory.cpp:400-441 | the array read returns `RamRead` of the RAM's contents: misaligned halfwords and words read 0 with a misaligned status, others read little-endian and sign- or zero-extended |
| `IrveMemory.Memory.WriteRam` | lib/memory.cpp:569-599 | the array ends holding `RamWrite` of its old contents, with the same status |
| `IrveMemory.Memory.ReadAclint` | lib/memory.cpp:487-507 | the ACLINT read returns `AclintRead` of the CSR file: non-word or misaligned accesses fail |
| `IrveMemory.Memory.WriteAclint` | lib/memory.cpp:634-654 | the CSR object ends in `AclintWrite` of its old state with that status |
| `IrveMemory.Memory.WriteDebug` | lib/memory.cpp:677-712 | the debug-address write leaves the memory in `DebugWrite` of its old state: only byte writes are accepted and they extend or flush the output line |
| `IrveMemory.Memory.ReadMemory` | lib/memory.cpp:364-398 | the routed read returns `ReadPhysical` of the current state, including the abort on an address of 2^34 or more |
| `IrveMemory.Memory.WriteMemory` | lib/memory.cpp:538-567 | the routed write leaves the memory in `WritePhysical` of its old state with that status, including the abort on an address of 2^34 or more |
| `IrveMemory.Memory.WalkTable` | lib/memory.cpp:256-305 | the loop over the table levels returns what `Walk` from the root at level 1 returns |
| `IrveMemory.Memory.TranslateAddress` | lib/memory.cpp:231-340 | the translation returns `Translate` of the current state |
| `IrveMemory.Memory.Instruction` | lib/memory.cpp:177-192 | a fetch returns `FetchSpec`: the translated word, an access fault for PMA/PMP violations, a misaligned fault otherwise |
| `IrveMemory.Memory.Load` | lib/memory.cpp:194-212 | a load returns `LoadSpec`: the translated read, with load access and misaligned faults on bad statuses |
| `IrveMemory.Memory.Store` | lib/memory.cpp:214-229 | a store leaves the memory and result as `StoreSpec` of the old state says |
| `IrveMemoryFacts.PageFaultCauses` | lib/memory.cpp:286-303 | the page fault of a fetch, load and store is cause 12, 13 and 15 (base 12 plus the access type) |
| `IrveMemoryFacts.RamWordRoundTrip` | lib/memory.cpp:418-423 | an aligned word written to RAM reads back unchanged and no byte outside its four changes |
| `IrveMemoryFacts.RamHalfwordRoundTrip` | lib/memory.cpp:424-429 | an aligned halfword written to RAM reads back zero- and sign-extended from its low 16 bits, and no other byte changes |
| `IrveMemoryFacts.RamByteRoundTrip` | lib/memory.cpp:430-435 | a byte written to RAM reads back zero- and sign-extended from its low 8 bits, and no other byte changes |
| `IrveMemoryFacts.HalfwordReadsOfWord` | lib/memory.cpp:418-429 | a halfword read at an aligned address is the low half of the word read there, zero- or sign-extended |
| `IrveMemoryFacts.ByteReadsOfWord` | lib/memory.cpp:418-435 | a byte read at an aligned address is the low byte of the word read there, zero- or sign-extended |
| `IrveMemoryFacts.MisalignedWord` | lib/memory.cpp:575-589 | a misaligned word write reports misaligned yet still writes the four bytes at the address; the misaligned read returns 0 |
| `IrveMemoryFacts.UnmappedAccesses` | lib/memory.cpp:376-396 | an address below 2^34 outside every region reads 0 and violates the PMA; writes there (other than the debug address) change nothing |
| `IrveMemoryFacts.WideAddressAborts` | lib/memory.cpp:367 | an address of 2^34 or more fails the 34-bit assertion of `read_memory` and `write_memory`: the read yields 0 with `Aborted`, the write changes nothing and is `Aborted` |
| `IrveMemoryFacts.RamRouting` | lib/memory.cpp:376-381 | addresses in user or kernel RAM are served by that RAM, relative to its start |
| `IrveMemoryFacts.AclintReads` | lib/memory.cpp:487-507 | word reads of the ACLINT's mtime and mtimecmph return the CSR halves; halfword and misaligned reads violate the PMA |
| `IrveMemoryFacts.AclintWriteReadsBack` | lib/memory.cpp:634-654 | a word written to mtimecmp through the memory map reads back unchanged |
| `IrveMemoryFacts.DebugAddressAccesses` | lib/memory.cpp:677-686 | the debug address cannot be read, and non-byte writes to it are refused with no effect |
| `IrveMemoryFacts.DebugLineEnd` | lib/memory.cpp:690-708 | writing `\n` or `\0` to the debug address prints the buffered line and empties the buffer |
| `IrveMemoryFacts.DebugCharacter` | lib/memory.cpp:709-710 | writing `\r` appends its escape; any other character is appended to the line |
| `IrveMemoryFacts.DebugLowByteOnly` | lib/memory.cpp:688 | a debug write depends only on the data's low byte |
| `IrveMemoryFacts.TranslationConditions` | lib/memory.cpp:342-362 | no translation in machine mode or with satp.MODE clear, or under MPRV with MPP = M; translation for loads and stores under MPRV with MPP below M and satp.MODE set |
| `IrveMemoryFacts.Untranslated` | lib/memory.cpp:232-235 | without translation the physical address is the virtual one |
| `IrveMemoryFacts.TranslationKeepsPageOffset` | lib/memory.cpp:327-336 | every successful translation keeps the page offset |
| `IrveMemoryFacts.WalkThrows` | lib/memory.cpp:258-305 | a failed walk raises only the access fault or the page fault of its access type |
| `IrveMemoryFacts.TranslateThrows` | lib/memory.cpp:231-340 | a failed translation raises only the access fault or the page fault of its access type |
| `IrveMemoryFacts.LoadThrows` | lib/memory.cpp:194-212 | a failed load raises only a load misaligned, access or page fault |
| `IrveMemoryFacts.StoreThrows` | lib/memory.cpp:214-229 | a failed store raises only a store misaligned, access or page fault, and changes memory only when translation succeeded |
| `IrveMemoryFacts.PageExample` | lib/memory.cpp:231-340 | a two-level walk example: root entry `0x401` and leaf `0x1047` translate 0x003C0FF0 to 0x4FF0 and the load reads there |
| `IrveMemoryFacts.WordLoadFromRam` | lib/memory.cpp:194-212 | an aligned word load that translates into user RAM returns the word stored at the physical address |
| `IrveMemoryFacts.TranslateByWalk` | lib/memory.cpp:307-339 | when translation is on and the walk finds a leaf, translation is the leaf check on that leaf |
| `IrveMemoryFacts.SuperpageExample` | lib/memory.cpp:313-334 | a superpage example: root leaf `0x43` maps 0xF24E0960 to 0xE0960 |
| `IrveMemoryFacts.UserPageCounterexample` | lib/memory.cpp:94-108 | the check as written lets a user-mode load through a valid readable page whose U bit is clear; the corrected check refuses it |
| `IrveMemoryFacts.UserPageCheckAgreement` | lib/memory.cpp:94-108 | the corrected check refuses everything the written check refuses, and outside user mode the two agree |
| `IrveMemoryFacts.UserPageProtection` | lib/memory.cpp:307-311 | with the corrected check, a user-mode access to a page without U, or a supervisor access to a user page with SUM clear, page faults |
| `IrveExecute.OpSpec` | lib/execute.cpp:515-747 | an OP instruction (base ALU or M extension) leaves the machine well formed; its values are stated by `IrveExecuteFacts.OpLegality` and `BaseOpMatchesPrototype` |
| `IrveExecute.OpImmSpec` | lib/execute.cpp:137-216 | an OP-IMM instruction leaves the machine well formed; its values are stated by `IrveExecuteFacts.OpImmLegality` |
| `IrveExecute.LuiSpec` | lib/execute.cpp:749-770 | LUI leaves the machine well formed; its effect is stated by `IrveControlFacts.LuiLoads` |
| `IrveExecute.AuipcSpec` | lib/execute.cpp:218-238 | AUIPC leaves the machine well formed; its effect is stated by `IrveControlFacts.AuipcAdds` |
| `IrveExecute.BranchSpec` | lib/execute.cpp:772-843 | a branch leaves the machine well formed; its effect is stated by `IrveControlFacts.BranchEffect` |
| `IrveExecute.JalSpec` | lib/execute.cpp:875-897 | JAL leaves the machine well formed; its effect is stated by `IrveControlFacts.JalLinks` |
| `IrveExecute.JalrSpec` | lib/execute.cpp:845-873 | JALR leaves the machine well formed; its effect is stated by `IrveControlFacts.JalrLinks` |
| `IrveExecute.LoadInstSpec` | lib/execute.cpp:36-82 | a load instruction leaves the machine well formed |
| `IrveExecute.StoreInstSpec` | lib/execute.cpp:240-281 | a store instruction leaves the machine well formed |
| `IrveExecute.LrSpec` | lib/execute.cpp:306-350 | LR.W leaves the machine well formed; its effect is stated by `IrveControlFacts.LrReserves` |
| `IrveExecute.ScSpec` | lib/execute.cpp:351-404 | SC.W (with the store's own fault raised) leaves the machine well formed; its effect is stated by `IrveControlFacts.ScWithoutReservation` and `ScWithReservation` |
| `IrveExecute.RmwSpec` | lib/execute.cpp:436-512 | a read-modify-write AMO leaves the machine well formed |
| `IrveExecute.Modified` | lib/execute.cpp:473-512 | the end of a read-modify-write AMO, once the load has answered, leaves the machine well formed |
| `IrveExecute.AmoSpec` | lib/execute.cpp:283-513 | an AMO-opcode instruction leaves the machine well formed |
| `IrveExecute.MiscMemSpec` | lib/execute.cpp:119-135 | FENCE and FENCE.I leave the machine well formed; their effect is stated by `IrveControlFacts.FenceOnlyAdvances` |
| `IrveExecute.EcallSpec` | lib/execute.cpp:930-961 | ECALL always throws, keeping registers, pc and reservation; it undoes the tick's count of minstret, and raises the U-, S- or M-mode environment call of the current mode |
| `IrveExecute.EbreakSpec` | lib/execute.cpp:962-973 | EBREAK raises BREAKPOINT, keeping registers, pc and reservation, and undoes the tick's count of minstret |
| `IrveExecute.MretSpec` | lib/execute.cpp:979-997 | MRET completes, jumps to mepc, clears the reservation, keeps the registers, switches to the mode held in MPP, and updates mstatus as `Mreturned` says |
| `IrveExecute.SretSpec` | lib/execute.cpp:998-1022 | SRET completes, jumps to sepc, clears the reservation, keeps the registers, switches to S or U mode, and updates sstatus as `Sreturned` says |
| `IrveExecute.ScSpecAsWritten` | lib/execute.cpp:351-404 | SC.W as written: an aligned SC.W always clears the reservation; without a reservation it completes and stores nothing; a RISC-V exception it throws is a store misaligned, access or page fault |
| `IrveExecute.Custom0Spec` | lib/execute.cpp:84-117 | the emulator's exit instruction leaves the machine well formed |
| `IrveExecute.PrivSpec` | lib/execute.cpp:922-1031 | ECALL, EBREAK, WFI, MRET, SRET and SFENCE.VMA leave the machine well formed |
| `IrveExecute.ReturnOrFenceSpec` | lib/execute.cpp:979-1030 | MRET, SRET and SFENCE.VMA leave the machine well formed |
| `IrveExecute.CsrSpec` | lib/execute.cpp:1056-1106 | a Zicsr instruction leaves the machine well formed; its effect is stated by `IrveControlFacts.CsrEffect` |
| `IrveExecute.SystemSpec` | lib/execute.cpp:899-1107 | a SYSTEM instruction leaves the machine well formed |
| `IrveExecute.ExecuteSpec` | lib/emulator.cpp:164-225 | executing any decoded instruction leaves the machine well formed |
| `IrveExecute.WriteBack` | lib/execute.cpp:137-216 | on the objects, rd takes the value (x0 ignores it) and the pc advances by 4 |
| `IrveExecute.Advance` | lib/execute.cpp:119-135 | on the objects, only the pc advances by 4 |
| `IrveExecute.Load` | lib/execute.cpp:36-82 | `load` on the CPU and memory objects changes them exactly as `LoadInstSpec` says |
| `IrveExecute.FinishLoad` | lib/execute.cpp:70-81 | the end of `load` changes the objects exactly as `Loaded` says: rd takes the word, or the memory's exception is raised with nothing changed |
| `IrveExecute.Custom0` | lib/execute.cpp:84-117 | `custom_0` changes nothing and returns what `Custom0Spec` says |
| `IrveExecute.MiscMem` | lib/execute.cpp:119-135 | `misc_mem` changes the objects exactly as `MiscMemSpec` says |
| `IrveExecute.OpImm` | lib/execute.cpp:137-216 | `op_imm` changes the objects exactly as `OpImmSpec` says |
| `IrveExecute.Auipc` | lib/execute.cpp:218-238 | `auipc` changes the objects exactly as `AuipcSpec` says |
| `IrveExecute.Store` | lib/execute.cpp:240-281 | `store` changes the objects exactly as `StoreInstSpec` says |
| `IrveExecute.StoreAndAdvance` | lib/execute.cpp:270-280 | the store is made, then the pc advances unless the store threw, as `AfterStore` of `StoreSpec` says |
| `IrveExecute.Op` | lib/execute.cpp:515-747 | `op` changes the objects exactly as `OpSpec` says |
| `IrveExecute.Lui` | lib/execute.cpp:749-770 | `lui` changes the objects exactly as `LuiSpec` says |
| `IrveExecute.Branch` | lib/execute.cpp:772-843 | `branch` changes the objects exactly as `BranchSpec` says |
| `IrveExecute.TakeBranch` | lib/execute.cpp:828-842 | a taken branch to a misaligned target raises, a taken one jumps, an untaken one advances, as `Branched` says |
| `IrveExecute.Jalr` | lib/execute.cpp:845-873 | `jalr` changes the objects exactly as `JalrSpec` says |
| `IrveExecute.Jal` | lib/execute.cpp:875-897 | `jal` changes the objects exactly as `JalSpec` says |
| `IrveExecute.Amo` | lib/execute.cpp:283-513 | `amo` changes the objects exactly as `AmoSpec` says |
| `IrveExecute.LoadReserved` | lib/execute.cpp:306-350 | LR.W changes the objects exactly as `LrSpec` says |
| `IrveExecute.StoreConditionalInst` | lib/execute.cpp:351-404 | SC.W changes the objects exactly as `ScSpec` says |
| `IrveExecute.ReadModifyWriteInst` | lib/execute.cpp:436-512 | a read-modify-write AMO changes the objects exactly as `RmwSpec` says |
| `IrveExecute.Reserve` | lib/execute.cpp:345-349 | the end of LR.W changes the objects as `Reserved` says |
| `IrveExecute.StoreConditional` | lib/execute.cpp:370-404 | a reserved SC.W's store, then rd := 0 unless it threw, as `Conditional` of `StoreSpec` says |
| `IrveExecute.Modify` | lib/execute.cpp:473-512 | rd takes the old word, then the combined word is stored and the pc advances, as `Modified` says |
| `IrveExecute.System` | lib/execute.cpp:899-1107 | `system` changes the objects exactly as `SystemSpec` says |
| `IrveExecute.Privileged` | lib/execute.cpp:922-1031 | the funct3-000 SYSTEM instructions change the objects exactly as `PrivSpec` says |
| `IrveExecute.ReturnOrFence` | lib/execute.cpp:979-1030 | MRET, SRET and SFENCE.VMA change the objects exactly as `ReturnOrFenceSpec` says |
| `IrveExecute.Mret` | lib/execute.cpp:979-997 | MRET changes the objects exactly as `MretSpec` says |
| `IrveExecute.Sret` | lib/execute.cpp:998-1022 | SRET changes the objects exactly as `SretSpec` says |
| `IrveExecute.Uncount` | lib/execute.cpp:933-938 | the CSR object ends with the low word of minstret decremented by one (wrapping; the high word untouched), as `UncountInstruction` says |
| `IrveExecute.Ecall` | lib/execute.cpp:930-961 | ECALL changes the objects exactly as `EcallSpec` says: the count is undone and the mode's environment-call exception is raised |
| `IrveExecute.Ebreak` | lib/execute.cpp:962-973 | EBREAK changes the objects exactly as `EbreakSpec` says: the count is undone and a breakpoint is raised |
| `IrveExecute.MretCsr` | lib/execute.cpp:979-997 | the CSR side of MRET ends in `Mreturned` of the old CSR file and yields the old mepc |
| `IrveExecute.SretCsr` | lib/execute.cpp:998-1022 | the CSR side of SRET ends in `Sreturned` of the old CSR file and yields the old sepc |
| `IrveExecute.CsrInst` | lib/execute.cpp:1056-1106 | a Zicsr instruction changes the objects exactly as `CsrSpec` says |
| `IrveExecute.WriteCsr` | lib/execute.cpp:1065-1106 | the write of a Zicsr instruction, if it makes one, as `CsrWritten` says |
| `IrveExecute.StoreCsr` | lib/csr.cpp:86-92 | `explicit_write`, then the pc advances unless it was refused, as `CsrStored` says |
| `IrveExecuteFacts.BaseOpMatchesPrototype` | lib/execute.cpp:640-746 | the base OP instructions compute what the prototype's ALU computes for the same funct7 and funct3, and are illegal exactly where it finds no operation |
| `IrveExecuteFacts.OpImmMatchesPrototype` | lib/execute.cpp:137-216 | the OP-IMM instructions compute what the prototype's immediate ALU computes, and are illegal exactly where it finds no operation |
| `IrveExecuteFacts.OpLegality` | lib/execute.cpp:515-747 | an OP instruction is legal iff funct7 is 1 (M extension) or 0, or 0b0100000 with ADD/SUB or SRL/SRA |
| `IrveExecuteFacts.OpImmLegality` | lib/execute.cpp:137-216 | an OP-IMM instruction is illegal iff it is a right shift whose funct7 is neither 0 nor 0b0100000 |
| `IrveExecuteFacts.AluExamples` | lib/execute.cpp:515-747 | ADDI 5 + (-1) = 4; SLT of 0x80000000 < 1 is 1 while SLTU is 0; SLTIU 1 < -1 is 1 |
| `IrveExecuteFacts.DivisionEdgeCases` | lib/execute.cpp:578-633 | division by zero gives all ones (DIV, DIVU) and the dividend (REM, REMU); the overflowing DIV gives 0x80000000 and its REM 0 |
| `IrveExecuteFacts.TruncDivision` | lib/execute.cpp:588-618 | C's signed division and remainder: quotient times divisor plus remainder is the dividend, the remainder is smaller than the divisor in magnitude and has the dividend's sign, and the quotient's magnitude is the magnitudes' quotient |
| `IrveExecuteFacts.SignedQuotientFits` | lib/execute.cpp:584-590 | outside the one overflowing case, the signed quotient fits in 32 signed bits |
| `IrveExecuteFacts.HighProductsFit` | lib/execute.cpp:543-577 | the high halves of the signed, signed-unsigned and unsigned 64-bit products fit in 32 bits |
| `IrveExecuteFacts.HighMultiplyExamples` | tests/unit/execute.cpp:38-64 | the unit test's MULH, MULHSU and MULHU values (e.g. 0x7FFFFFFF squared has high word 0x3FFFFFFF; -1 times 0x7FFFFFFF has high word all ones) |
| `IrveControlFacts.BranchLegality` | lib/execute.cpp:792-825 | a branch is illegal iff funct3 is 2 or 3 |
| `IrveControlFacts.BranchPairs` | lib/execute.cpp:793-822 | BNE, BGE and BGEU are the negations of BEQ, BLT and BLTU; -1 < 0 signed but not unsigned |
| `IrveControlFacts.BranchEffect` | lib/execute.cpp:828-842 | an untaken branch advances the pc by 4; a taken one to a misaligned target raises instruction-address-misaligned and changes nothing; otherwise the pc becomes pc + imm |
| `IrveControlFacts.JalLinks` | lib/execute.cpp:875-897 | JAL never raises, jumps to pc + imm, writes pc + 4 to rd (unless x0), and leaves memory, reservation and other registers alone |
| `IrveControlFacts.LuiLoads` | lib/execute.cpp:749-770 | LUI completes, advances the pc by 4, writes the U-immediate to rd (unless rd is x0), and leaves memory, the reservation and every other register unchanged |
| `IrveControlFacts.AuipcAdds` | lib/execute.cpp:218-238 | AUIPC completes, advances the pc by 4, writes pc plus the U-immediate (wrapping) to rd (unless rd is x0), and leaves memory, the reservation and every other register unchanged |
| `IrveControlFacts.FenceOnlyAdvances` | lib/execute.cpp:119-135 | FENCE and FENCE.I only advance the pc by 4; any other funct3 raises illegal-instruction and changes nothing |
| `IrveControlFacts.JalrLinks` | lib/execute.cpp:845-873 | JALR never raises, jumps to rs1 (read before the link) + imm, writes pc + 4 to rd, and leaves memory, reservation and other registers alone |
| `IrveControlFacts.SltOrder` | lib/execute.cpp:667-677 | signed less-than is irreflexive and asymmetric |
| `IrveControlFacts.AmoSignedExtremes` | lib/execute.cpp:494-499 | AMOMIN.W and AMOMAX.W store one of the two words, and it is the signed minimum / maximum |
| `IrveControlFacts.UnsignedMinimum` | lib/execute.cpp:500-502 | the unsigned minimum is one of its arguments and no greater than either |
| `IrveControlFacts.UnsignedMaximum` | lib/execute.cpp:503-505 | the unsigned maximum is one of its arguments and no smaller than either |
| `IrveControlFacts.AmoUnsignedMin` | lib/execute.cpp:479-502 | AMOSWAP stores rs2; AMOMINU stores the unsigned minimum of the two words |
| `IrveControlFacts.AmoUnsignedMax` | lib/execute.cpp:503-505 | AMOMAXU stores the unsigned maximum of the two words |
| `IrveControlFacts.AmoMinExample` | lib/execute.cpp:494-505 | with words -1 and 1, AMOMIN picks -1, AMOMINU 1, AMOMAX 1 and AMOMAXU -1 |
| `IrveControlFacts.LrReserves` | lib/execute.cpp:306-350 | a successful LR.W writes the word to rd, sets the reservation and advances; a failed one raises and changes nothing |
| `IrveControlFacts.AmoFaultCauses` | lib/execute.cpp:319-342 | load access and page faults inside an AMO are re-raised as store/AMO access and page faults |
| `IrveControlFacts.ScWithoutReservation` | lib/execute.cpp:362-368 | an aligned SC.W always leaves the reservation cleared; without one it writes 1 to rd and advances, storing nothing |
| `IrveControlFacts.ScWithReservation` | lib/execute.cpp:370-404 | a reserved SC.W takes the store's memory; if the store completes rd takes 0 and the pc advances, otherwise the store's fault is raised |
| `IrveControlFacts.StoreFaultsBecomeAssertions` | lib/execute.cpp:378-397 | the rethrow, which names only load causes, turns every store/AMO fault into a failed assertion |
| `IrveControlFacts.ScAsWrittenAgreement` | lib/execute.cpp:351-404 | SC.W as written and as corrected reach the same state; they differ only in that a faulting reserved store is a failed assertion as written |
| `IrveControlFacts.UnmappedStore` | lib/memory.cpp:214-229 | an untranslated store to an unmapped address raises a store access fault and changes nothing |
| `IrveControlFacts.RefusedStore` | lib/memory.cpp:214-229 | a store that translates to an address whose region refuses it raises a store access fault and changes nothing |
| `IrveControlFacts.ScUnmappedCounterexample` | lib/execute.cpp:374-397 | a reserved SC.W to unmapped 0x10000000 raises a store access fault when corrected and is a failed assertion as written |
| `IrveControlFacts.CsrWriteSuppression` | lib/execute.cpp:1065-1097 | a Zicsr instruction skips its write iff it is CSRRS/CSRRC with rs1 = x0 or CSRRSI/CSRRCI with uimm = 0 |
| `IrveControlFacts.SetAndClear` | lib/execute.cpp:1070-1097 | setting bits makes exactly the mask's bits one; clearing makes them zero; the other bits are kept |
| `IrveControlFacts.CsrWriteMeaning` | lib/execute.cpp:1065-1097 | CSRRW writes rs1's value, CSRRWI the uimm, CSRRS/CSRRSI set and CSRRC/CSRRCI clear the given bits |
| `IrveControlFacts.CsrEffect` | lib/execute.cpp:1056-1106 | rd takes the CSR's old value; without a write the pc just advances; a write that is accepted lands in the CSR file and the pc advances; a refused write raises illegal-instruction with rd written |
| `IrveControlFacts.CsrReadRefused` | lib/execute.cpp:1056-1064 | a Zicsr instruction whose read is refused raises that exception and changes nothing |
| `IrveControlFacts.EcallCauses` | lib/execute.cpp:940-956 | ECALL raises the user, supervisor or machine environment-call cause (8 plus the mode) and is defined only for those three modes |
| `IrveEmulator.FetchAndDecodeSpec` | lib/emulator.cpp:125-161 | fetching through the icache keeps the cache holding only decoded, cacheable instructions, and every instruction it yields is decoded |
| `IrveEmulator.DecodedFields` | lib/decode.cpp:41-121 | every word the decoder accepts yields register numbers below 32 and funct fields of their widths |
| `IrveEmulator.HandleTrapSpec` | lib/emulator.cpp:302-421 | trap handling keeps the machine well formed |
| `IrveEmulator.InterruptSpec` | lib/emulator.cpp:227-300 | interrupt handling keeps the machine and the icache well formed |
| `IrveEmulator.TickSpec` | lib/emulator.cpp:54-92 | a tick keeps the machine and the icache well formed |
| `IrveEmulator.StepSpec` | lib/emulator.cpp:59-61 | the fetch-decode-execute body of a tick keeps the machine and the icache well formed |
| `IrveEmulator.Caught` | lib/emulator.cpp:62-91 | the end of a tick (trap, exit request or interrupt check) keeps the machine and the icache well formed |
| `IrveEmulator.EnterMachineCsr` | lib/emulator.cpp:371-395 | trap entry to M leaves the CSR object in `MTrapEntered` of its old state and yields the mtvec handler address |
| `IrveEmulator.PushMachineStatus` | lib/emulator.cpp:373-380 | mstatus gets MPP := the old mode, MPIE := MIE, MIE := 0, and the mode becomes M; nothing else changes |
| `IrveEmulator.RecordMachineTrap` | lib/emulator.cpp:383-385 | mcause takes the cause and mepc the pc with its low two bits cleared; the mtval write is ignored; nothing else changes |
| `IrveEmulator.EnterSupervisorCsr` | lib/emulator.cpp:396-420 | trap entry to S leaves the CSR object in `STrapEntered` of its old state and yields the stvec handler address |
| `IrveEmulator.PushSupervisorStatus` | lib/emulator.cpp:398-405 | the sstatus bits of mstatus get SPP := (the mode was S), SPIE := SIE, SIE := 0, and the mode becomes S; nothing else changes |
| `IrveEmulator.RecordSupervisorTrap` | lib/emulator.cpp:408-410 | scause, sepc (low bits cleared) and stval take the cause, pc and tval; nothing else changes |
| `IrveEmulator.HandleInMachineMode` | lib/emulator.cpp:357-369 | the trap goes to M iff it is an interrupt whose mideleg bit is clear, or an exception from M or whose medeleg bit is clear |
| `IrveEmulator.EnterTrapCsr` | lib/emulator.cpp:354-421 | the CSR side of trap entry, in the mode delegation chooses, as `TrapEnteredCsr` says, yielding `TrapHandler` |
| `IrveEmulator.EnterTrap` | lib/emulator.cpp:354-421 | the CPU and CSR objects end in `TrapEntered` of the old machine: CSRs updated and the pc at the handler |
| `IrveEmulator.IncrementPerfCounters` | lib/emulator.cpp:55 | the CSR object ends in `CountInstruction` of its old state: minstret goes up by one as a 64-bit counter |
| `IrveEmulator.CountInstruction` | lib/emulator.cpp:55 | counting changes only minstret: its low word goes up by one (wrapping), and the high word goes up by one exactly when the low word wraps to 0 |
| `IrveEmulator.PendingInterrupt` | lib/emulator.cpp:279-294 | no interrupt is taken exactly when none of the six sources is interrupting; MEI wins whenever it is interrupting, and the cause is always one of the six |
| `IrveEmulator.TrapEntered` | lib/emulator.cpp:354-421 | trap entry keeps the registers, the reservation and memory other than the CSRs, puts the pc at the trap handler, and enters M mode when the trap is handled there and S mode otherwise |
| `IrveEmulator.ReadInterruptRegs` | lib/emulator.cpp:245-249 | the registers interrupt selection reads (mode, mstatus, mie, mip, mideleg) are the CSR file's |
| `IrveEmulator.ExecuteMemory` | lib/emulator.cpp:168-196 | the memory opcodes change the objects exactly as `ExecuteSpec` says |
| `IrveEmulator.ExecuteRegisters` | lib/emulator.cpp:197-224 | the other opcodes change the objects exactly as `ExecuteSpec` says |
| `IrveEmulator.CacheOkInsert` | lib/emulator.cpp:151-157 | inserting a decoded instruction that is neither MISC-MEM nor SYSTEM keeps the cache's invariant |
| `IrveEmulator.FetchThroughCache` | lib/emulator.cpp:125-161 | the fetch returns `FetchAndDecodeSpec`: a hit returns the cached instruction; a miss fetches, decodes, and caches unless the opcode is MISC-MEM or SYSTEM, which flush the cache |
| `IrveEmulator.RunSpec` | lib/emulator.cpp:94-103 | a run stops as reached only once the count reaches a non-zero target, and out of ticks only below it |
| `IrveEmulator.Budgeted` | lib/emulator.cpp:97 | below the target, a run stops only as `StoppedRight` allows |
| `IrveEmulator.RunTick` | lib/emulator.cpp:97 | one tick of the run, then the rest, stops only as `StoppedRight` allows |
| `IrveEmulator.RunOn` | lib/emulator.cpp:97-101 | after a tick the run stops on an exit request or a failed assertion, else goes on, and stops only as `StoppedRight` allows |
| `IrveEmulator.RunGoesOn` | lib/emulator.cpp:97-101 | below the target with ticks left, the run is one tick, then: a thrown assertion ends it, an exit request ends it as exited, otherwise the rest of the run |
| `IrveEmulator.Emulator.State` | lib/emulator.cpp:44-52 | the value view of the emulator object is a well-formed machine with a well-formed icache |
| `IrveEmulator.Emulator.constructor` | lib/emulator.cpp:44-52 | a new emulator holds the given CPU and memory, an empty icache and interception off |
| `IrveEmulator.Emulator.GetInstCount` | lib/emulator.cpp:111-113 | returns the instruction count the state holds (minstret's low word) |
| `IrveEmulator.Emulator.TestAndClearBreakpoint` | lib/emulator.cpp:115-119 | returns the old breakpoint flag and clears it; nothing else changes |
| `IrveEmulator.Emulator.InterceptBreakpoints` | lib/emulator.cpp:106-107 | interception is switched on and the flag cleared; nothing else changes |
| `IrveEmulator.Emulator.FlushIcache` | lib/emulator.cpp:121-123 | the icache becomes empty; nothing else changes |
| `IrveEmulator.Emulator.FetchAndDecode` | lib/emulator.cpp:125-161 | returns and caches as `FetchAndDecodeSpec` says; only the icache changes |
| `IrveEmulator.Emulator.Execute` | lib/emulator.cpp:164-225 | changes the machine exactly as `ExecuteSpec` says; the icache and flags are untouched |
| `IrveEmulator.Emulator.HandleTrap` | lib/emulator.cpp:302-421 | the emulator ends in `HandleTrapSpec` of its old state |
| `IrveEmulator.Emulator.CheckAndHandleInterrupts` | lib/emulator.cpp:227-300 | the emulator ends in `InterruptSpec` of its old state |
| `IrveEmulator.Emulator.Catch` | lib/emulator.cpp:62-91 | the end of the tick, as `Caught` of the old state says |
| `IrveEmulator.Emulator.Tick` | lib/emulator.cpp:54-92 | the emulator ends in `TickSpec` of its old state and returns its result |
| `IrveEmulator.Emulator.CountInstructionOnce` | lib/emulator.cpp:55 | only the CSR file changes, to `CountInstruction` of the old one |
| `IrveEmulator.Emulator.Step` | lib/emulator.cpp:59-61 | the emulator ends in `StepSpec` of its old state |
| `IrveEmulator.Emulator.RunUntil` | lib/emulator.cpp:94-103 | the emulator ends as `RunSpec` of its old state says, with the same stop reason |
| `IrveEmulator.Emulator.TickUnlessDone` | lib/emulator.cpp:97 | either the run ends here as `RunSpec` says, or one tick was taken and the rest of the run from here equals the whole run from before |
| `IrveEmulatorFacts.PriorityBits` | lib/emulator.cpp:278-291 | interrupts are tried in the order MEI, MSI, MTI, SEI, SSI, STI, each with its own cause |
| `IrveEmulatorFacts.PendingIsFirstInterrupting` | lib/emulator.cpp:278-295 | the interrupt taken is the k-th of the priority list iff it is interrupting and no earlier one is |
| `IrveEmulatorFacts.PendingNoneIffQuiet` | lib/emulator.cpp:278-295 | no interrupt is taken iff none of the six is interrupting |
| `IrveEmulatorFacts.MachineModeMasked` | lib/emulator.cpp:247-274 | in M mode with mstatus.MIE clear nothing interrupts |
| `IrveEmulatorFacts.DelegatedWaitsInMachineMode` | lib/emulator.cpp:272-274 | in M mode an interrupt delegated to S never interrupts |
| `IrveEmulatorFacts.UserModeAlwaysInterrupted` | lib/emulator.cpp:266-274 | in U mode every pending, enabled interrupt interrupts, whatever the global enables |
| `IrveEmulatorFacts.SupervisorModeTakesMachineInterrupts` | lib/emulator.cpp:266-274 | in S mode a pending, enabled interrupt not delegated to S interrupts, whatever mstatus says |
| `IrveEmulatorFacts.MachineExceptionsStayInMachineMode` | lib/emulator.cpp:365-369 | an exception raised in M mode is handled in M |
| `IrveEmulatorFacts.TrapVectorAligned` | lib/emulator.cpp:388-395 | the handler address is 4-byte aligned, and for exceptions is the vector base |
| `IrveEmulatorFacts.MachineTrapMasksInterrupts` | lib/emulator.cpp:371-380 | after trap entry to M, the mode is M with MIE clear, so no interrupt is taken |
| `IrveEmulatorFacts.MachineTrapReturn` | lib/execute.cpp:979-997 | MRET after trap entry to M restores the mode and MIE, sets MPIE, keeps the other mstatus bits, and leaves mepc and mcause recording the trap |
| `IrveEmulatorFacts.StatusPushPop` | lib/emulator.cpp:373-380 | pushing the status on trap entry and popping it with MRET gives back the mode and MIE |
| `IrveEmulatorFacts.SupervisorTrapReturn` | lib/execute.cpp:998-1022 | SRET after trap entry to S restores the mode and SIE, sets SPIE, keeps the other bits, and leaves sepc, scause and stval recording the trap |
| `IrveEmulatorFacts.SupervisorStatusPushPop` | lib/emulator.cpp:398-405 | pushing sstatus on trap entry to S and popping it with SRET gives back the mode and SIE |
| `IrveEmulatorFacts.TrapThenMret` | lib/emulator.cpp:371-395 | a trap handled in M followed at once by MRET returns to the trapping pc (aligned) and mode with registers and MIE unchanged |
| `IrveEmulatorFacts.IncrementedAddsOne` | lib/emulator.cpp:55 | counting an instruction adds one to minstret as a 64-bit value, carrying into the high word |
| `IrveEmulatorFacts.CacheIsTransparent` | lib/emulator.cpp:125-161 | when the icache agrees with memory, fetching through it yields what an uncached fetch and decode would, and it stays in agreement |
| `IrveEmulatorFacts.TrapFlushesCache` | lib/emulator.cpp:302-303 | trap handling always empties the icache |
| `IrveEmulatorFacts.BreakpointIntercepted` | lib/emulator.cpp:335-350 | with interception on outside U mode a breakpoint only sets the flag; otherwise the trap is entered as usual |
| `IrveEmulatorFacts.UncountUndoesCount` | lib/execute.cpp:933-938 | undoing the count restores minstret's low word; the whole counter is restored unless the increment carried into the high word |
| `IrveEmulatorFacts.CounterRoundTrip` | lib/execute.cpp:933-938 | decrementing the low word after a 64-bit increment restores the low word, and the whole counter unless the low word was all ones |
| `IrveEmulatorFacts.CarryNotUndone` | lib/execute.cpp:933-938 | when the increment carried, the undo leaves the high word one too high |
| `IrveEmulatorFacts.RunBoundOnlyTruncates` | lib/emulator.cpp:94-103 | a run that did not run out of ticks gives the same result with any larger tick budget |
| `IrveEmulatorFacts.ReachedIgnoresBound` | lib/emulator.cpp:97 | once the count has been reached the run ends at once whatever the budget |
| `IrveEmulatorFacts.BelowTargetNeedsTicks` | lib/emulator.cpp:97 | below the target, a run with no ticks left runs out of ticks |
| `IrveLoaders.WriteFailure` | lib/loaders.cpp:50-53 | a failed write ends the load aborted exactly when the write failed an assertion, and otherwise as a failure; never as a success |
| `IrveLoaders.ApplyWrites` | lib/loaders.cpp:44-59 | carrying out the writes in order keeps memory well formed, and no writes leave memory untouched and the load successful |
| `IrveLoaders.Carry` | lib/loaders.cpp:44-59 | a plan without writes ends with the plan's own outcome on unchanged memory |
| `IrveLoaders.ApplyFirst` | lib/loaders.cpp:48-54 | the first write is done first; if it fails the load stops with that failure, otherwise the rest follows on the new memory |
| `IrveLoaders.CarryFirst` | lib/loaders.cpp:48-54 | the same for a plan: a failed first write ends the load before any other write and before the plan's own ending |
| `IrveLoaders.RawBinWrites` | lib/loaders.cpp:44-55 | the raw-binary load asks for one byte write per remaining byte of the file |
| `IrveLoaders.RawBin` | lib/loaders.cpp:22-60 | the raw-binary load keeps memory well formed; its effect is stated by `IrveLoadersFacts.RawBinIntoKernelRam`, `IrveLoadersFacts.RawBinUnmapped` (an unmapped start below 2^34 fails) and `IrveLoadersFacts.RawBinWide` (a start of 2^34 or more aborts) |
| `IrveLoaders.LoadRawBin` | lib/loaders.cpp:22-60 | the byte loop leaves memory and status exactly as `RawBin` says: every byte written in order, stopping at the first failed write, with a write at 2^34 or more ending the load `LoadAborted` |
| `IrveLoaders.Lex` | lib/loaders.cpp:70-72 | reading the file gives one token per whitespace-separated word, in order |
| `IrveLoaders.LexFirst` | lib/loaders.cpp:70-72 | the tokens from `i` on are token `i` followed by the tokens after it |
| `IrveLoaders.Vhex8` | lib/loaders.cpp:62-98 | the 8-bit Verilog load keeps memory well formed; its effect is stated by `IrveLoadersFacts.Verilog8IntoUserRam`, the two `Verilog8Bad*` lemmas and `IrveLoadersFacts.Verilog8NegativeAddress` (an address that `stoul` wraps past 2^34 aborts) |
| `IrveLoaders.Vhex32` | lib/loaders.cpp:100-138 | the 32-bit Verilog load keeps memory well formed; its effect is stated by `IrveLoadersFacts.Verilog32IntoUserRam`, `IrveLoadersFacts.Verilog32BadWord` and `IrveLoadersFacts.Verilog32NegativeAddress` (an address that `stoul` wraps past 2^34 aborts) |
| `IrveLoaders.LoadVerilog8` | lib/loaders.cpp:62-98 | the token loop leaves memory and status exactly as `Vhex8` says, so a write at 2^34 or more ends it `LoadAborted` |
| `IrveLoaders.LoadVerilog32` | lib/loaders.cpp:100-138 | the token loop leaves memory and status exactly as `Vhex32` says, so a write at 2^34 or more ends it `LoadAborted` |
| `IrveLoadersFacts.ByteIntoRam` | lib/memory.cpp:569-599 | a byte write inside a RAM region succeeds and changes exactly that byte |
| `IrveLoadersFacts.WordIntoRam` | lib/memory.cpp:569-599 | an aligned word write inside a RAM region succeeds and stores the word's four bytes, least significant first |
| `IrveLoadersFacts.BytesIntoUserRam` | lib/loaders.cpp:44-55 | byte writes to consecutive addresses inside user RAM all succeed and leave exactly those bytes in user RAM |
| `IrveLoadersFacts.BytesIntoKernelRam` | lib/loaders.cpp:44-55 | the same inside kernel RAM, at the address less the region's start |
| `IrveLoadersFacts.UnmappedFirstWrite` | lib/loaders.cpp:50-53 | when the first write goes to an unmapped address below 2^34 the load fails with memory unchanged |
| `IrveLoadersFacts.WideFirstWrite` | lib/loaders.cpp:49-53 | when the first write goes to an address of 2^34 or more the load ends `LoadAborted` with memory unchanged |
| `IrveLoadersFacts.RawBinWritesInOrder` | lib/loaders.cpp:44-55 | without 64-bit wrap-around, the raw-binary writes are the file's bytes to consecutive addresses from the start address |
| `IrveLoadersFacts.RawBinPlan` | lib/loaders.cpp:22-60 | the raw-binary load is the file's bytes written to consecutive addresses |
| `IrveLoadersFacts.RawBinIntoKernelRam` | lib/loaders.cpp:22-60 | a binary that fits in kernel RAM at its start address loads successfully, and kernel RAM then holds exactly the file at that offset |
| `IrveLoadersFacts.RawBinUnmapped` | lib/loaders.cpp:50-53 | a non-empty binary whose start address is unmapped and below 2^34 fails with memory unchanged |
| `IrveLoadersFacts.RawBinWide` | lib/loaders.cpp:44-53 | a non-empty binary whose start address is 2^34 or more ends `LoadAborted` with memory unchanged |
| `IrveLoadersFacts.Verilog8NegativeAddress` | lib/loaders.cpp:73-90 | the token `@-0000001` makes `stoul` wrap the address to 2^64 - 1, so the next byte's write fails the 34-bit assertion and the load ends `LoadAborted` with memory unchanged |
| `IrveLoadersFacts.Verilog32NegativeAddress` | lib/loaders.cpp:111-130 | the token `@-0000001` gives word address 2^64 - 1, whose byte address wraps to 2^64 - 4, so the next word's write aborts and memory is unchanged |
| `IrveHex.NegativeDigitsStoul` | lib/loaders.cpp:77 | `stoul` of a minus sign and hex digits whose value fits 64 bits is that value negated modulo 2^64 |
| `IrveLoadersFacts.LexAppend` | lib/loaders.cpp:70-72 | reading two files one after the other gives the tokens of the first, then those of the second |
| `IrveLoadersFacts.CarryAll` | lib/loaders.cpp:97 | a plan that ends successfully is just its writes |
| `IrveLoadersFacts.ByteTokenValue` | lib/loaders.cpp:86 | a byte written as two hex digits reads back as a two-character data token carrying the byte |
| `IrveLoadersFacts.ByteTokensRead` | lib/loaders.cpp:80-94 | a file of bytes in two-digit hex reads as the matching data tokens, in order |
| `IrveLoadersFacts.AddressToken` | lib/loaders.cpp:73-77 | an `@` followed by eight hex digits reads as an address token carrying that address |
| `IrveLoadersFacts.Verilog8TextRead` | lib/loaders.cpp:62-98 | a text of address lines, each followed by its bytes, reads as the matching tokens |
| `IrveLoadersFacts.LowByteOfByte` | lib/loaders.cpp:86-90 | keeping the low byte of a parsed byte gives the byte back |
| `IrveLoadersFacts.ByteStep` | lib/loaders.cpp:86-95 | a byte token writes its byte at the current address and moves the address on by one |
| `IrveLoadersFacts.ByteLexemesPlan` | lib/loaders.cpp:80-95 | a run of byte tokens writes its bytes to consecutive addresses, then the rest of the file continues after them |
| `IrveLoadersFacts.Verilog8Plan` | lib/loaders.cpp:62-98 | a well-formed 8-bit text asks for exactly its blocks' bytes, each at its address, and ends successfully |
| `IrveLoadersFacts.Verilog8Loads` | lib/loaders.cpp:62-98 | writing a byte image as 8-bit Verilog text and loading it back gives the image's writes and success |
| `IrveLoadersFacts.Verilog8IntoUserRam` | lib/loaders.cpp:62-98 | a single block that fits in user RAM loads successfully and user RAM then holds exactly its bytes at its address |
| `IrveLoadersFacts.Verilog8BadByte` | lib/loaders.cpp:80-83 | a data token of other than two characters fails the load before any write |
| `IrveLoadersFacts.Verilog8BadAddress` | lib/loaders.cpp:73-76 | an address token of other than eight digits aborts the load before any write |
| `IrveLoadersFacts.WordTokenValue` | lib/loaders.cpp:126 | a word written with enough hex digits reads back as a data token carrying that word |
| `IrveLoadersFacts.WordTokensRead` | lib/loaders.cpp:117-136 | a file of words in hex reads as the matching data tokens, in order |
| `IrveLoadersFacts.Verilog32TextRead` | lib/loaders.cpp:100-138 | a text of word-address lines, each followed by its words, reads as the matching tokens |
| `IrveLoadersFacts.WordLexemesPlan` | lib/loaders.cpp:124-136 | a run of word tokens writes its words to consecutive word addresses, then the rest of the file continues after them |
| `IrveLoadersFacts.WordStep` | lib/loaders.cpp:124-136 | a word token writes its value truncated to 32 bits at the current address and moves the address on by four |
| `IrveLoadersFacts.Verilog32Plan` | lib/loaders.cpp:100-138 | a well-formed 32-bit text asks for exactly its blocks' words, each at four times its word address, and ends successfully |
| `IrveLoadersFacts.Verilog32Loads` | lib/loaders.cpp:100-138 | writing a word image as 32-bit Verilog text and loading it back gives the image's writes and success |
| `IrveLoadersFacts.Verilog32BadWord` | lib/loaders.cpp:126 | a data token with no hex digits aborts the load (the `stoul` exception escapes) before any write |
| `IrveLoadersFacts.WordsIntoUserRam` | lib/loaders.cpp:130-134 | aligned word writes inside user RAM all succeed and leave exactly the words' bytes, little-endian, in user RAM |
| `IrveLoadersFacts.Verilog32IntoUserRam` | lib/loaders.cpp:100-138 | a single word block that fits in user RAM loads successfully and user RAM then holds exactly its words' bytes at four times its word address |
| `IrveElf.U16` | lib/loaders.cpp:165-166 | a 16-bit header field read little-endian is below 2^16 |
| `IrveElf.U32` | lib/loaders.cpp:167-170 | a 32-bit header field read little-endian is below 2^32 |
| `IrveElf.ProgramChunk` | lib/loaders.cpp:225-234 | a program header yields a chunk only when it is a PT_LOAD segment, and its offset, file size and address are 32-bit |
| `IrveElf.ProgramChunks` | lib/loaders.cpp:222-235 | the PT_LOAD chunks of the first `n` program headers are 32-bit and at most `n` |
| `IrveElf.SectionChunk` | lib/loaders.cpp:269-273 | a section header's offset, size and address, each 32-bit |
| `IrveElf.SectionChunks` | lib/loaders.cpp:253-277 | the kept chunks of the first `n` section headers are 32-bit and at most `n` |
| `IrveElf.Sections` | lib/loaders.cpp:220-277 | the chunks the loader copies are 32-bit; which ones they are is stated by `IrveElfFacts.SectionChunksMembers` |
| `IrveElf.Elf` | lib/loaders.cpp:142-297 | the ELF load keeps memory well formed; its outcomes are stated by `IrveElfFacts.Rejections` and `IrveElfFacts.ElfLoadsSections` |
| `IrveElf.TableStep` | lib/loaders.cpp:224-225 | reading one more table entry stays in the file exactly when that entry lies in the file, and once one does not, the whole table does not |
| `IrveElf.ProgramChunksStep` | lib/loaders.cpp:224-235 | one more program header adds its chunk when it is PT_LOAD, and nothing otherwise |
| `IrveElf.SectionChunksStep` | lib/loaders.cpp:255-277 | one more section header adds its chunk when it is kept, and nothing otherwise |
| `IrveElf.ReadProgramChunks` | lib/loaders.cpp:222-235 | the program header loop gives the PT_LOAD chunks when the table lies in the file, and reports a read past the end otherwise |
| `IrveElf.FindSegment` | lib/loaders.cpp:264-276 | the search over segments finds one exactly when some PT_LOAD segment holds the section's offset |
| `IrveElf.ReadSectionChunks` | lib/loaders.cpp:253-277 | the section header loop gives the kept chunks when the table lies in the file, and reports a read past the end otherwise |
| `IrveElf.CopyBound` | lib/loaders.cpp:284 | the copy loop's 32-bit bound lets it run for exactly the chunk's length, and the address does not wrap inside it |
| `IrveElf.CopyStep` | lib/loaders.cpp:284-294 | each pass copies the file byte at offset plus `k` to address plus `k`, or ends unspecified when the file has no such byte |
| `IrveElf.CopyByte` | lib/loaders.cpp:285-293 | one pass of the copy loop changes memory as the next write of the copy plan, stopping on a failed write |
| `IrveElf.CopyChunk` | lib/loaders.cpp:281-294 | the copy loop of a chunk does that chunk's part of the copy plan and leaves the remaining chunks to come |
| `IrveElf.CopySections` | lib/loaders.cpp:280-295 | copying all the kept chunks leaves memory and status as the copy plan says |
| `IrveElf.LoadElf32` | lib/loaders.cpp:142-297 | the loader leaves memory and status exactly as `Elf` says |
| `IrveElfFacts.Rejections` | lib/loaders.cpp:181-199 | memory changes only for an accepted header whose tables lie in the file; a file shorter than the header is unspecified, a wrong signature, type or machine fails, a non-ELF32 or big-endian file aborts, and none of these writes anything |
| `IrveElfFacts.NoSectionHeadersLoadsNothing` | lib/loaders.cpp:224-297 | the program header loop also runs `e_shnum` times, so a file with no section headers loads successfully without writing anything, whatever its segments hold |
| `IrveElfFacts.EntryInTable` | lib/loaders.cpp:224-225 | every entry of a table that lies in the file lies in the file |
| `IrveElfFacts.ProgramChunksMembers` | lib/loaders.cpp:224-235 | a chunk is kept from the program headers exactly when some header in the table is PT_LOAD with that chunk |
| `IrveElfFacts.ProgramChunksFromLoads` | lib/loaders.cpp:228-234 | every kept program chunk comes from a PT_LOAD header |
| `IrveElfFacts.LoadsInProgramChunks` | lib/loaders.cpp:228-234 | every PT_LOAD header's chunk is kept |
| `IrveElfFacts.SectionChunksMembers` | lib/loaders.cpp:255-277 | a chunk is copied exactly when some section header is PROGBITS or INIT_ARRAY, starts inside a PT_LOAD segment and has that chunk |
| `IrveElfFacts.SectionChunksAreKept` | lib/loaders.cpp:260-275 | every copied chunk comes from a program-data section that starts inside a PT_LOAD segment |
| `IrveElfFacts.KeptInSectionChunks` | lib/loaders.cpp:260-275 | every program-data section that starts inside a PT_LOAD segment is copied |
| `IrveElfFacts.InFileRest` | lib/loaders.cpp:280 | the chunks after the first still lie in the file when all of them do |
| `IrveElfFacts.CopyFrom` | lib/loaders.cpp:284-294 | the copy of a chunk from byte `k` is the file's bytes from offset plus `k` written to consecutive addresses, followed by the later chunks |
| `IrveElfFacts.CopyPlanWrites` | lib/loaders.cpp:280-297 | when every chunk lies in the file, the copy writes each chunk's bytes in turn and ends successfully |
| `IrveElfFacts.WrappingChunkSkipped` | lib/loaders.cpp:284 | a chunk whose end passes 2^32 writes nothing: the 32-bit bound is already below its start |
| `IrveElfFacts.CopyPastEnd` | lib/loaders.cpp:287 | a chunk that runs past the end of the file writes the bytes the file has and then ends unspecified |
| `IrveElfFacts.ElfLoadsSections` | lib/loaders.cpp:142-297 | a valid ELF file whose kept sections lie in the file loads as exactly those sections' bytes written in order |
| `IrveElfFacts.OneSectionWrites` | lib/loaders.cpp:284-294 | one section inside the file writes its bytes to consecutive addresses from its address |
| `IrveElfFacts.EmptyRest` | lib/loaders.cpp:280-295 | the writes of a single chunk are its bytes to consecutive addresses |
| `IrveElfFacts.OneSectionIntoKernelRam` | lib/loaders.cpp:142-297 | a file with a single kept section that fits in kernel RAM loads successfully and kernel RAM then holds exactly the section's bytes at its address |
| `IrveHex.DigitValue` | lib/loaders.cpp:86 | a character is worth a digit value below 16, or -1 when it is no hex digit in either case |
| `IrveHex.HexValue` | lib/loaders.cpp:86 | a string of `n` hex digits is worth less than 16^n |
| `IrveHex.DigitRun` | lib/loaders.cpp:86 | the parser takes the longest run of hex digits at the start of the text, and the character after it is none |
| `IrveHex.HexChar` | lib/gdbserver.cpp:466-473 | the digit written for a nibble reads back as that nibble |
| `IrveHex.HexDigits` | lib/gdbserver.cpp:466-473 | writing a value in `n` digits gives `n` hex digits |
| `IrveHex.HexDigitsValue` | lib/gdbserver.cpp:466-473 | a value below 16^n written in `n` digits reads back as itself |
| `IrveHex.ByteHex` | lib/gdbserver.cpp:466-473 | `byte_2_string` writes two hex digits |
| `IrveHex.Nibbles` | lib/gdbserver.cpp:467-469 | the masked nibbles of a byte are its quotient and remainder by 16 |
| `IrveHex.ByteHexIsDigits` | lib/gdbserver.cpp:466-473 | `byte_2_string` writes the high nibble first, as the two-digit hex numeral of the byte |
| `IrveHex.TwoDigits` | lib/gdbserver.cpp:466-473 | the two-digit numeral of a byte is the digit of its high nibble, then that of its low nibble |
| `IrveHex.ByteHexValue` | lib/gdbserver.cpp:466-473 | the two digits `byte_2_string` writes are worth the byte |
| `IrveHex.LeadingSpace` | lib/loaders.cpp:77 | the parser skips exactly the white space the text starts with |
| `IrveHex.DigitsAfterPrefix` | lib/loaders.cpp:77 | after the sign and an optional `0x`, the digits start no later than the text does |
| `IrveHex.ParseNumeral` | lib/loaders.cpp:77 | a number is read exactly when digits follow the white space, sign and prefix |
| `IrveHex.Stoul` | lib/loaders.cpp:77 | `stoul` either throws or gives a value below 2^64 |
| `IrveHex.Strtol` | lib/gdbserver.cpp:272 | `strtol` gives a value in the range of a 64-bit `long` |
| `IrveHex.DigitsParse` | lib/loaders.cpp:86 | a nonempty string of hex digits alone is read as a non-negative number worth its digits |
| `IrveHex.DigitRunAll` | lib/loaders.cpp:86 | a string made only of hex digits is consumed whole |
| `IrveHex.ShortNumeral` | lib/gdbserver.cpp:243 | at most two characters give a magnitude below 256 |
| `IrveHex.StrtolShort` | lib/gdbserver.cpp:243 | `strtol` of at most two characters lies strictly between -256 and 256 |
| `IrveHex.ByteHexParses` | lib/gdbserver.cpp:243 | `byte_2_string` read back by `strtol` or by `stoul` gives the byte |
| `IrveHex.DigitsStoul` | lib/loaders.cpp:86 | `n` digits of a value below 2^64 read back by `stoul` as the value |
| `IrveHex.EightDigitsParse` | lib/loaders.cpp:77 | eight digits of a 32-bit address read back by `stoul` as the address |
| `IrveHex.DigitsStrtol` | lib/gdbserver.cpp:272 | `n` digits of a value no larger than the `long` maximum read back by `strtol` as the value |
| `IrveGdb.ByteHexDigits` | lib/gdbserver.cpp:466-473 | `byte_2_string` writes two lower-case hex digits, the high nibble first |
| `IrveGdb.ByteRoundTrip` | lib/gdbserver.cpp:466 | a byte taken as a number and back is the same byte |
| `IrveGdb.Checksum` | lib/gdbserver.cpp:456-464 | the checksum is two hex digits worth the sum of the payload's characters modulo 256 |
| `IrveGdb.CharSumAppend` | lib/gdbserver.cpp:459-461 | the character sum of two strings put together is the sum of their sums |
| `IrveGdb.ComputeChecksum` | lib/gdbserver.cpp:456-464 | the accumulating loop gives `Checksum` of the packet |
| `IrveGdb.Find` | lib/gdbserver.cpp:440 | `find` gives the first occurrence of the character, or -1 (`npos`) exactly when there is none |
| `IrveGdb.TrailerIgnored` | lib/gdbserver.cpp:436-442 | the payload is what lies between the first `$` and the last three characters, whatever those three are: the checksum is not checked |
| `IrveGdb.FrameRoundTrip` | lib/gdbserver.cpp:370-454 | what `send_packet` frames, `raw_string_2_packet` reads back as the same packet |
| `IrveGdb.Acknowledgements` | lib/gdbserver.cpp:444-447 | a lone `+` is an ACK and a lone `-` a NACK |
| `IrveGdb.Interrupt` | lib/gdbserver.cpp:448-449 | a lone Ctrl-C is the interrupt request |
| `IrveGdb.TwoCharactersMalformed` | lib/gdbserver.cpp:450-451 | any two characters without a `$` are malformed |
| `IrveGdb.WordHex` | lib/gdbserver.cpp:218-222 | a register is sent as eight hex digits |
| `IrveGdb.RegNumber` | src/reg_file.cpp:13-22 | reading register `i` below 32 gives 0 for x0 and the stored value otherwise; writing x0 changes nothing |
| `IrveGdb.RegistersHex` | lib/gdbserver.cpp:216-223 | the first `n` registers take eight characters each |
| `IrveGdb.RegistersReply` | lib/gdbserver.cpp:209-232 | the `g` reply is 33 words of eight characters: x0 to x31, then the pc |
| `IrveGdb.ReadRegisters` | lib/gdbserver.cpp:209-232 | the loop over the registers builds exactly `RegistersReply` of the CPU's registers and pc |
| `IrveGdb.Head` | lib/gdbserver.cpp:243 | `substr(0, 2)` keeps at most two characters |
| `IrveGdb.OrAssignments` | lib/gdbserver.cpp:242-250 | the four or-assignments into a zero word give the four fields combined, least significant first |
| `IrveGdb.PayloadRegisters` | lib/gdbserver.cpp:240-252 | `G` determines all 31 stored registers |
| `IrveGdb.ParseWord` | lib/gdbserver.cpp:242-250 | reading one word consumes eight characters and gives the word the four fields spell |
| `IrveGdb.PayloadWords` | lib/gdbserver.cpp:240-264 | a `G` payload holds 33 words |
| `IrveGdb.PartlyWritten` | lib/gdbserver.cpp:240-252 | writing registers in turn keeps 31 stored registers |
| `IrveGdb.PartlyWrittenValues` | lib/gdbserver.cpp:240-252 | after the first `n` writes, stored register `k` holds word `k + 1` if it was written and its old value otherwise |
| `IrveGdb.NextWritten` | lib/gdbserver.cpp:251 | one more write sets the next register, except that the write to x0 is discarded |
| `IrveGdb.AllWritten` | lib/gdbserver.cpp:240-252 | after all 32 writes the stored registers are words 1 to 31 |
| `IrveGdb.WriteNextRegister` | lib/gdbserver.cpp:242-251 | one turn of the `G` loop consumes eight characters and writes the next register |
| `IrveGdb.NextRegister` | lib/gdbserver.cpp:242-251 | the word read at the front of the rest, written with `set_r`, gives the registers written one further |
| `IrveGdb.WriteRegisters` | lib/gdbserver.cpp:235-264 | `G` leaves the stored registers and the pc exactly as the payload's words say, and the reservation untouched |
| `IrveGdb.FieldOfByte` | lib/gdbserver.cpp:243 | a field written by `byte_2_string` reads back as the byte |
| `IrveGdb.ByteBits` | lib/gdbserver.cpp:243 | a non-negative field value keeps its bits in the word |
| `IrveGdb.Reassembled` | lib/gdbserver.cpp:242-250 | the four bytes of a word put back together give the word |
| `IrveGdb.Fields` | lib/gdbserver.cpp:242-250 | a word field is the four two-character fields combined |
| `IrveGdb.WordRoundTrip` | lib/gdbserver.cpp:218-250 | a word sent the way `g` sends it reads back the way `G` reads it as the same word |
| `IrveGdb.RegisterAt` | lib/gdbserver.cpp:216-223 | the characters of register `j` in the reply are its eight hex digits |
| `IrveGdb.ReplyWord` | lib/gdbserver.cpp:209-232 | the reply from word `j` on starts with register `j`'s digits, or the pc's for `j == 32` |
| `IrveGdb.ReplyWordRoundTrip` | lib/gdbserver.cpp:209-264 | word `j` of a `g` reply, read as `G` reads it, is register `j` (or the pc) |
| `IrveGdb.RegistersRoundTrip` | lib/gdbserver.cpp:209-264 | a `g` reply used as a `G` payload gives back exactly the registers and the pc it was made from |
| `IrveGdb.SkipLeading` | lib/gdbserver.cpp:271 | `find_first_not_of` skips exactly the run of that character the text starts with |
| `IrveGdb.WordRoundTrip32` | lib/gdbserver.cpp:272 | a word taken as a number and cast back to 32 bits is the same word |
| `IrveGdb.PrependTwice` | lib/gdbserver.cpp:281 | text added in front twice is the two texts added in front at once |
| `IrveGdb.HexOfStep` | lib/gdbserver.cpp:279-282 | a successful load adds the byte's two digits in front of the rest of the reply |
| `IrveGdb.HexOfStop` | lib/gdbserver.cpp:279-282 | a failing load ends the reply with what it threw |
| `IrveGdb.ReadNextByte` | lib/gdbserver.cpp:280 | one load of the `m` loop gives the next byte's outcome |
| `IrveGdb.ReadStep` | lib/gdbserver.cpp:279-282 | the text built so far grows by the loaded byte's digits |
| `IrveGdb.ReadEnd` | lib/gdbserver.cpp:284 | when all loads succeeded, the reply is the text built |
| `IrveGdb.ReadMemory` | lib/gdbserver.cpp:270-291 | the `m` loop gives exactly `MemoryHex` of the memory and the range, and changes nothing |
| `IrveGdb.ReadBytes` | lib/gdbserver.cpp:276-288 | the load loop gives the hex of all bytes, or what the first failing load throws |
| `IrveGdb.HexOfSucceeds` | lib/gdbserver.cpp:276-288 | the reply has data exactly when every load succeeded |
| `IrveGdb.HexOfContents` | lib/gdbserver.cpp:279-284 | a data reply has two digits per byte, and byte `k`'s digits are those of the `k`-th load |
| `IrveGdb.HexOfFirstFault` | lib/gdbserver.cpp:279-288 | a failed reply carries what the first failing load threw, every earlier load having succeeded |
| `IrveGdb.MemoryHex` | lib/gdbserver.cpp:270-291 | the `m` reply has data exactly when every byte of the range loads, and then holds two digits per byte |
| `IrveGdb.ReadArgs` | lib/gdbserver.cpp:271-274 | without a comma the length is parsed from the same text as the address, so the two are equal |
| `IrveGdb.WriteArgs` | lib/gdbserver.cpp:293-297 | without a colon after the comma the data is the whole text after the comma |
| `IrveGdb.RawToPacket` | lib/gdbserver.cpp:436-454 | a text packet exactly when at least three characters follow the `$`; its payload is what follows the `$` minus the last three; a short string other than `+`, `-` and Ctrl-C is malformed |
| `IrveGdb.LoadsAt` | lib/gdbserver.cpp:279-280 | load `k` of the loop is the byte load at the address plus `k` |
| `IrveGdb.LoadedSucceeds` | lib/gdbserver.cpp:276-288 | the reply over `n` loads has data exactly when all `n` byte loads succeed |
| `IrveGdb.LoadedBytes` | lib/gdbserver.cpp:279-284 | the data reply's `k`-th pair of digits is the byte loaded at the address plus `k` |
| `IrveGdb.LoadedFault` | lib/gdbserver.cpp:279-288 | a failed reply carries what the first failing byte load threw |
| `IrveGdb.MemoryHexSucceeds` | lib/gdbserver.cpp:276-288 | `m` reads data exactly when every byte of the range loads |
| `IrveGdb.MemoryHexBytes` | lib/gdbserver.cpp:279-284 | `m`'s data is two digits per byte of the range, each pair the byte loaded there |
| `IrveGdb.MemoryHexFault` | lib/gdbserver.cpp:279-288 | a failed `m` carries what the first failing byte load of the range threw |
| `IrveGdb.ReadArgsRoundTrip` | lib/gdbserver.cpp:271-274 | `m` arguments written as hex address, comma, hex length read back as that address and length |
| `IrveGdb.CommaSplit` | lib/gdbserver.cpp:271-273 | the text before the first comma is the address digits and the text after it the rest |
| `IrveGdb.Separators` | lib/gdbserver.cpp:272-297 | the comma and the colon are no hex digits |
| `IrveGdb.NothingTrimmed` | lib/gdbserver.cpp:271 | text that starts with a hex digit has no leading spaces to remove |
| `IrveGdb.SeparatorSplit` | lib/gdbserver.cpp:294-297 | hex digits, a separator and a rest split at the separator into the digits and the rest |
| `IrveGdb.NumberRoundTrip` | lib/gdbserver.cpp:272 | a 32-bit number written in hex reads back by `strtol` and the 32-bit cast as itself |
| `IrveGdb.StoreBytes` | lib/gdbserver.cpp:300-304 | the `M` stores keep memory well formed |
| `IrveGdb.MemoryWrite` | lib/gdbserver.cpp:292-310 | the `M` command keeps memory well formed; what it stores is stated by `IrveGdb.WriteThenRead` and `IrveGdb.OneByteWrite` |
| `IrveGdb.Count` | lib/gdbserver.cpp:300 | the loop runs as many times as the 32-bit length says |
| `IrveGdb.StoreNextByte` | lib/gdbserver.cpp:301-303 | one pass of the `M` loop is the byte store of the next field at the address plus `i` |
| `IrveGdb.StoreStep` | lib/gdbserver.cpp:300-304 | a store that throws ends the loop there, and one that succeeds goes on from the next byte |
| `IrveGdb.WriteMemory` | lib/gdbserver.cpp:292-310 | the `M` loop leaves memory and outcome exactly as `MemoryWrite` says |
| `IrveGdb.StoreAll` | lib/gdbserver.cpp:299-304 | the store loop leaves memory and outcome as `StoreBytes` says |
| `IrveGdb.WriteArgsRoundTrip` | lib/gdbserver.cpp:293-297 | `M` arguments written as address, comma, length, colon, data read back as that range and data |
| `IrveGdb.WriteArgsPieces` | lib/gdbserver.cpp:293-297 | the address is read before the comma, the length before the colon, and the data is what follows |
| `IrveGdb.WriteArgsSplit` | lib/gdbserver.cpp:293-297 | the three pieces of `M`'s arguments are found at the first comma and the first colon after it |
| `IrveGdb.ByteStoreLoad` | lib/memory.cpp:194-229 | without translation, a byte stored in user RAM succeeds and a byte load there gives it back sign-extended |
| `IrveGdb.SignedByteLow` | lib/gdbserver.cpp:281 | the low byte of a sign-extended byte is the byte |
| `IrveGdb.WriteThenRead` | lib/gdbserver.cpp:270-310 | without translation, `M` of one byte in user RAM succeeds and `m` of that byte then reads it back |
| `IrveGdb.OneByteWrite` | lib/gdbserver.cpp:300-303 | `M` of one byte is one byte store of it at the address |
| `IrveGdb.OneStore` | lib/gdbserver.cpp:300-303 | `M` of length one is one byte store of the first field |
| `IrveGdb.OneByteArgs` | lib/gdbserver.cpp:301-303 | the first address of a range is its address, and a byte's digits read as the byte |
| `IrveGdb.OneByteLoad` | lib/gdbserver.cpp:280-281 | a byte load that gives a sign-extended byte makes `m` read that byte |
| `IrveGdb.OneByteRead` | lib/gdbserver.cpp:276-284 | `m` of one byte that loads is its two hex digits |
| `IrveGdbHandler.Serve` | lib/gdbserver.cpp:172-368 | handling a packet leaves the emulator usable; what each packet does is stated by the lemmas below |
| `IrveGdbHandler.ServeWith` | lib/gdbserver.cpp:172-368 | the same, given the outcome of one tick |
| `IrveGdbHandler.Command` | lib/gdbserver.cpp:204-365 | every command leaves the emulator usable and either replies, resumes the run, or lets a non-RISC-V exception escape; it never disconnects |
| `IrveGdbHandler.RegistersWritten` | lib/gdbserver.cpp:235-264 | writing the registers from `G` keeps the emulator usable |
| `IrveGdbHandler.ReadServed` | lib/gdbserver.cpp:270-291 | `m` changes nothing and replies unless something other than a RISC-V exception escapes |
| `IrveGdbHandler.WriteServed` | lib/gdbserver.cpp:292-315 | `M` keeps the emulator usable and replies unless something other than a RISC-V exception escapes |
| `IrveGdbHandler.StoresServed` | lib/gdbserver.cpp:299-312 | the end of `M` keeps the emulator usable and replies unless something other than a RISC-V exception escaped |
| `IrveGdbHandler.TickServed` | lib/gdbserver.cpp:354-360 | a step leaves the emulator as the tick did, replying unless the tick threw |
| `IrveGdbHandler.HandlePacket` | lib/gdbserver.cpp:172-368 | the handler changes the emulator's objects and responds exactly as `Serve` says |
| `IrveGdbHandler.HandleCommand` | lib/gdbserver.cpp:202-365 | dispatching on the first character changes the objects and responds exactly as `Command` says |
| `IrveGdbHandler.HandleWriteRegisters` | lib/gdbserver.cpp:235-264 | `G` leaves the emulator exactly as `RegistersWritten` says |
| `IrveGdbHandler.HandleWriteMemory` | lib/gdbserver.cpp:292-315 | `M` leaves the emulator and response exactly as `WriteServed` says |
| `IrveGdbHandler.StoreAndFinish` | lib/gdbserver.cpp:300-315 | the stores of a parsed `M` command, the reply and the flush leave the emulator exactly as `StoresServed` says |
| `IrveGdbHandler.FinishWrite` | lib/gdbserver.cpp:306-312 | the end of `M` answers and flushes the icache as `StoresServed` says |
| `IrveGdbHandler.HandleStep` | lib/gdbserver.cpp:354-360 | a step leaves the emulator and response exactly as `TickServed` of one tick says |
| `IrveGdbHandler.Dispatched` | lib/gdbserver.cpp:202-204 | a nonempty payload is handled as the command named by its first character, applied to the rest |
| `IrveGdbHandler.DisconnectExactly` | lib/gdbserver.cpp:184-198 | the connection is dropped exactly for a special packet other than ACK and for an empty payload |
| `IrveGdbHandler.OnlyWritesChangeState` | lib/gdbserver.cpp:204-365 | only `G`, `M`, `s` and `S` change the emulator; every other packet leaves it as it was |
| `IrveGdbHandler.UnknownCommand` | lib/gdbserver.cpp:361-364 | an unknown command gets an empty reply and changes nothing |
| `IrveGdbHandler.ReadMemoryReply` | lib/gdbserver.cpp:270-291 | `m` changes nothing; it replies with the bytes' digits, or "E00" when a load raised a RISC-V exception |
| `IrveGdbHandler.HexReplyData` | lib/gdbserver.cpp:276-284 | when every byte of the range loads, `m` replies with two digits per byte, each pair the byte loaded there |
| `IrveGdbHandler.HexReplyError` | lib/gdbserver.cpp:285-288 | when the first failing load raises a RISC-V exception, `m` replies "E00" |
| `IrveGdbHandler.WriteRegistersCommand` | lib/gdbserver.cpp:235-269 | `G` replies "OK" and sets the registers and pc from the payload, changing nothing else |
| `IrveGdbHandler.ReadRegistersCommand` | lib/gdbserver.cpp:209-234 | `g` replies with the registers and pc and changes nothing |
| `IrveGdbHandler.WriteThenReadRegisters` | lib/gdbserver.cpp:209-269 | after `G` with a `g` reply as payload, `g` replies with that same payload |
| `IrveGdbHandler.WriteMemoryFlushes` | lib/gdbserver.cpp:292-315 | `M` keeps the stores made before a fault, leaves registers and pc alone, and whenever it replies ("OK" or "E00") it has flushed the icache |
| `IrveGdbHandler.WriteMemoryCommand` | lib/gdbserver.cpp:292-315 | `M` is the stores its arguments spell |
| `IrveGdbHandler.StoresFlush` | lib/gdbserver.cpp:306-312 | the end of `M` replies exactly when no non-RISC-V exception escaped, and then flushes the icache |
| `IrveGdbHandler.StepIsTick` | lib/gdbserver.cpp:354-360 | `s` leaves the emulator as one tick does and sends the stop reply exactly when the tick did not throw |

## Left out

Weaker contracts, by member:
- `XrvePmmap.PhysicalMemoryMap.ReadByte`: requires `Backed`, meaning the routed handler holds every byte of the access. The slice indexing of legacy_from_xrve/lib/pmmap/ram.rs (lines 67-68) panics on an access that starts inside a RAM and runs past its end; the model excludes that case by the precondition instead of returning a `Panicked` outcome.
- `XrvePmmap.PhysicalMemoryMap.ReadHalfword`: requires `Backed`, as `ReadByte` does, for the same reason.
- `XrvePmmap.PhysicalMemoryMap.ReadWord`: requires `Backed`, as `ReadByte` does, for the same reason.
- `XrvePmmap.PhysicalMemoryMap.WriteByte`: requires `Backed`, as `ReadByte` does, for the same reason.
- `XrvePmmap.PhysicalMemoryMap.WriteHalfword`: requires `Backed`, as `ReadByte` does, for the same reason.
- `XrvePmmap.PhysicalMemoryMap.WriteWord`: requires `Backed`, as `ReadByte` does, for the same reason.
- `XrvePmmap.PhysicalMemoryMap.FetchByte`: requires `Backed`, as `ReadByte` does, for the same reason.
- `XrvePmmap.PhysicalMemoryMap.FetchHalfword`: requires `Backed`, as `ReadByte` does, for the same reason.
- `XrvePmmap.PhysicalMemoryMap.FetchWord`: requires `Backed`, as `ReadByte` does, for the same reason.
- `XrveInstance.Instance.ReadByteFromMemory`: requires `Backed`, inherited from the memory map accessor it calls.
- `XrveInstance.Instance.WriteByteToMemory`: requires `Backed`, inherited from the memory map accessor it calls.
- `XrveInstance.Instance.ReadHalfwordFromMemory`: requires `Backed`, inherited from the memory map accessor it calls.
- `XrveInstance.Instance.WriteHalfwordToMemory`: requires `Backed`, inherited from the memory map accessor it calls.
- `XrveInstance.Instance.ReadWordFromMemory`: requires `Backed`, inherited from the memory map accessor it calls.
- `XrveInstance.Instance.WriteWordToMemory`: requires `Backed`, inherited from the memory map accessor it calls.
- `XrveInstance.Tick`: requires `FetchBacked`: the fetch at the pc must not run past the end of a RAM, for the same reason.
- `XrveInstance.Instance.SingleStep`: requires `FetchBacked`, as `Tick` does.
- `XrveFetch.FetchRaw`: requires `FetchBacked`, as `Tick` does.
- `XrvePmmap.PhysicalMemoryMap.RegisterHandler`: accepts only a `Ram`. The source's map holds any boxed `MemoryHandler` (legacy_from_xrve/lib/pmmap.rs:36 and 53-56), so a handler with other criteria or its own read and write behaviour cannot be registered in the model.
- `XrvePmmap.PhysicalMemoryMap.Search`: proved equal to `FirstMatch` over the registered handlers' criteria, but those are always a RAM's three `AddressRange` criteria. The `Never`, `Always` and `SingleAddress` criteria of `XrveHandler` are stated on their own and never reach the map.
- `XrveInstance.Instance.RegisterMemoryHandler`: accepts only a `Ram`, as `RegisterHandler` does. The source accepts any `impl MemoryHandler` (lib/instance.rs:151-155).
- `XrveInstance.Instance.RegisterInstructionHandler`: accepts only the reference OP and OP-IMM handlers (`XrveI.Handler`). The source accepts any `impl InstructionHandler` (lib/instance.rs:145-149).
- `XrveDecoder.Decoder.Lookup`: the Rust decoder's own source is not part of this model. The model routes only 32-bit instructions, by major opcode. A 16-bit (compressed) fetch finds no handler.
- `XrveState.State`: the `boot_time` and `physical_memory` fields are not modelled. They are never read by the modelled operations.
- `IrvePow.Spow`: requires that neither the base nor the exponent is -2^31. Negating that value overflows a 32-bit `int`, which is undefined behaviour in C++.
- `IrveEmulator.CountInstruction`: `increment_perf_counters` (called at lib/emulator.cpp:55) has no body in the material modelled. The model advances minstret only; mcycle changes only through CSR writes.
- `IrveEmulator.Emulator.HandleTrap`: the semihosting check of lib/emulator.cpp:308-341 is not modelled. An M-mode EBREAK between the semihosting marker instructions is treated as an ordinary breakpoint. The semihosting handler is not part of this model.
- `IrveEmulatorFacts.RunBoundOnlyTruncates`: `run_until` loops without a bound. `IrveEmulator.RunSpec` carries a tick budget instead, and a run that exhausts it ends `OutOfTicks`. The lemma shows a larger budget never changes a run that finished.
- `IrveCsr.Csr.ImplicitRead`: reading MTIME and MTIMEH does not first call `update_timer` (lib/csr.cpp:141-142). The wall-clock timer is not modelled, and mtime changes only through writes.
- `IrveElf.Elf`: a file shorter than the 52-byte header ends `LoadUnspecified`, even when its first 20 bytes already show a wrong signature, type or machine. The source then reads a partial header, and the rest of the struct is bytes the model does not know.
- `IrveMemory.RamWrite`: a halfword or word that starts inside a RAM region but runs past its end has the bytes past the end dropped. The source writes past the end of its array there.
- `IrveGdb.Checksum`: packets are strings of Unicode characters, not bytes. For a character above 255 the model's character sum differs from the C++ byte sum; received packets are bytes, so this does not arise on the wire.
- `IrveMemory.CheckLeaf`: follows the corrected `AccessNotAllowed` (see Findings), not the code as written. Input where they differ: leaf PTE 0x47 in user mode with mstatus 0. The source translates it; the model raises a page fault. `IrveMemory.LoadSpec`, `FetchSpec`, `StoreSpec`, `IrveMemory.Memory.Load`, `Store`, `Instruction`, `IrveExecute.ExecuteSpec` and `IrveEmulator.TickSpec` inherit this difference, and so does every member proved equal to them: among others `IrveExecute.Load`, `Store`, `LoadReserved`, `ReadModifyWriteInst`, `IrveEmulator.Emulator.Tick`, `Step`, `RunUntil` and `IrveGdbHandler.HandleStep`.
- `IrveMemory.Translate`: uses `CheckLeaf`, so the same input (leaf PTE 0x47, user mode, mstatus 0) page-faults in the model and translates in the source. The same members inherit this difference.
- `IrveMemory.Memory.TranslateAddress`: proved equal to `Translate`, so it page-faults on the same input (leaf PTE 0x47, user mode, mstatus 0) where the source translates. The same members inherit this difference.
- `IrveExecute.ScSpec`: follows the corrected SC.W handler (see Findings), not the code as written. Input where they differ: a reserved SC.W to the unmapped address 0x10000000 without translation. The source reaches `assert(false)`; the model raises STORE_OR_AMO_ACCESS_FAULT. `IrveExecute.ExecuteSpec` and `IrveEmulator.TickSpec` inherit this difference, and so does every member proved equal to them: among others `IrveEmulator.Emulator.Tick`, `Step`, `RunUntil` and `IrveGdbHandler.HandleStep`.
- `IrveExecute.AmoSpec`: uses `ScSpec` for SC.W, so on the same input (reserved SC.W to 0x10000000) it raises STORE_OR_AMO_ACCESS_FAULT where the source aborts. `ExecuteSpec`, `TickSpec` and every member proved equal to them inherit this difference.
- `IrveExecute.Amo`: proved equal to `AmoSpec`, so it differs from the source on the same SC.W input.
- `IrveExecute.StoreConditionalInst`: proved equal to `ScSpec`, so it differs from the source on the same SC.W input. The as-written handler is `IrveExecute.ScSpecAsWritten`.

Operations not modelled:
- The timer: `Csr::update_timer` and `Csr::occasional_update_timer` (lib/csr.cpp:252-278) read the host's steady clock.
- `Csr::set_exti_pending` (lib/csr.cpp:280-282), and the peripheral update counter and `update_peripherals` of `emulator_t::tick` (lib/emulator.cpp:71-84). External interrupts come only from writes to mip.
- The UART's behaviour: in this version the UART region of physical memory is an assertion failure (`assert(false)` at lib/memory.cpp:516 and 662). The model makes every UART access `Aborted`, as for any failed assertion; lib/uart.cpp, which talks to the host terminal, is not part of this model.
- The random start values of sscratch, mscratch and the PMP address registers (lib/csr.cpp:50-60) are parameters of the CSR constructor.
- File access in the loaders: the files are given as their bytes or as the tokens `>>` reads. `load_memory_image_files` and the second copies of the loaders in lib/memory.cpp (714-858) are not modelled; the `Memory` constructor's image loading is not modelled either.
- Logging (`irvelog`) everywhere.
- The GDB server's sockets: `gdbserver::start`, `recieve_packet`, `recieve_packet_nonblocking`, `nicesend`, `nicerecv` and `setup_server_socket`. A received string and the payload sent are the interface.
- The `c`/`C` continue loop (lib/gdbserver.cpp:320-352) has no counterpart in the model. It ticks until an intercepted breakpoint sets the flag that `test_and_clear_breakpoint_encountered_flag` reads, until `tick()` returns false, or until a packet arrives on the socket. The model's handler only answers `Resume`. `IrveEmulator.Emulator.RunUntil` is not that loop: it stops on the instruction count, an exit request, a failed assertion or its tick budget, and never tests the breakpoint flag.
- XRVE's thread body, `emulation_thread`: `RunInThread` and `StopThread` model only who holds the components.

## Findings

| source | as written | input that shows it | evidently intended | confidence | as-written member | corrected member |
|---|---|---|---|---|---|---|
| lib/memory.cpp:94-108 | `ACCESS_NOT_ALLOWED` refuses supervisor access to user pages, but never refuses user-mode access to a page whose U bit is clear | a user-mode load through a leaf PTE `0x47` (valid, readable, writable, accessed, U clear) with mstatus 0 is allowed | user mode may only reach pages with U set (section 4.3.1 of the RISC-V privileged specification), so the access is a load page fault | not executed | `IrveMemoryFacts.UserPageCounterexample` | `IrveMemoryFacts.UserPageProtection` |
| lib/execute.cpp:374-397 | the SC.W catch handler switches on load causes only, so any store fault reaches `assert(false)` | a reserved SC.W to the unmapped address `0x10000000` without translation: the store access fault aborts the emulator | the store fault is raised as the guest's STORE_OR_AMO access or page fault | not executed | `IrveControlFacts.ScUnmappedCounterexample` | `IrveControlFacts.ScWithReservation` |

`IrveMemory.Translate` and `IrveMemory.CheckLeaf` use the corrected `IrveMemory.AccessNotAllowed`; the as-written check is kept as `IrveMemory.AccessNotAllowedAsWritten`. `IrveExecute.AmoSpec` and `IrveExecute.StoreConditionalInst` use the corrected `IrveExecute.ScSpec`; the as-written handler is kept as `IrveExecute.ScSpecAsWritten`. The properties proved about translation and SC.W are therefore about the corrected behaviour.
