// XRVE: fetching the raw bits of the next instruction. The low two bits of the first
// halfword give the length: `11` is a 32-bit instruction, anything else a 16-bit one
// (section 1.5, "Base Instruction-Length Encoding", of the RISC-V Unprivileged ISA).

module XrveFetch {
  import opened Common
  import opened XrveHandler
  import opened XrvePmmap
  import opened XrveState

  datatype RawInstruction =
    | Regular(word: bv32)
    | Compressed(half: bv16)
    | Unaligned
    | Fault

  /** A halfword whose low two bits are `11` starts a 32-bit instruction. */
  predicate StartsRegular(first: bv16)
  {
    first & 3 == 3
  }

  /** The 32-bit instruction with `first` as its low and `second` as its high halfword. */
  function Join(first: bv16, second: bv16): bv32
  {
    ((second as bv32) << 16) | (first as bv32)
  }

  /** `Join` keeps both halfwords intact, and the length bits of the word are those of `first`. */
  lemma JoinSplits(first: bv16, second: bv16)
    ensures var w := Join(first, second);
      (w & 0xFFFF) as bv16 == first && (w >> 16) as bv16 == second && ((w & 3 == 3) <==> StartsRegular(first))
  {
  }

  /**
   * What a fetch yields, given the pc and the answers of the halfword reads at `pc` and
   * at `pc + 2` (the second is consulted only when the first starts a 32-bit instruction).
   */
  function Classify(pc: u32, first: Result<bv16>, second: Result<bv16>): RawInstruction
  {
    if pc % 2 != 0 then Unaligned
    else match first
      case Err => Fault
      case Ok(lo) =>
        if !StartsRegular(lo) then Compressed(lo)
        else match second
          case Err => Fault
          case Ok(hi) => Regular(Join(lo, hi))
  }

  /**
   * `Unaligned` exactly for an odd `pc`; a 16-bit instruction exactly when the first
   * halfword reads and does not start a 32-bit one; a 32-bit instruction, made of the two
   * halfwords low one first, exactly when both read; otherwise `Fault`.
   */
  lemma ClassifyMeaning(pc: u32, first: Result<bv16>, second: Result<bv16>)
    ensures var r := Classify(pc, first, second);
      (r.Unaligned? <==> pc % 2 != 0) &&
      (r.Compressed? <==> (pc % 2 == 0 && first.Ok? && !StartsRegular(first.value))) &&
      (r.Compressed? ==> first == Ok(r.half)) &&
      (r.Regular? <==> (pc % 2 == 0 && first.Ok? && StartsRegular(first.value) && second.Ok?)) &&
      (r.Regular? ==> r.word & 3 == 3 && first == Ok((r.word & 0xFFFF) as bv16) && second == Ok((r.word >> 16) as bv16)) &&
      (r.Fault? <==> (pc % 2 == 0 && (first.Err? || (StartsRegular(first.value) && second.Err?))))
  {
    if pc % 2 == 0 && first.Ok? && StartsRegular(first.value) && second.Ok? {
      JoinSplits(first.value, second.value);
    }
  }

  /**
   * The accesses a fetch at `pc` may make are backed by memory, and the address of a
   * second halfword, when one is read, does not overflow (the source adds with
   * overflow checking). An odd `pc` is never read, and `Backed` holds for it trivially.
   */
  ghost predicate FetchBacked(pc: u32, m: PhysicalMemoryMap)
    requires m.Valid()
    reads m, m.Backings()
  {
    m.Backed(pc, Read, Halfword) &&
    (pc % 2 == 0 && m.HalfwordAt(pc, Read).Ok? && StartsRegular(m.HalfwordAt(pc, Read).value) ==>
       pc + 2 < 0x1_0000_0000 && m.Backed(pc + 2, Read, Halfword))
  }

  /** The answer of the read at `pc + 2`, where a fetch would make it. */
  ghost function SecondAt(pc: u32, m: PhysicalMemoryMap): Result<bv16>
    requires m.Valid()
    reads m, m.Backings()
  {
    if pc + 2 < 0x1_0000_0000 && m.Backed(pc + 2, Read, Halfword) then m.HalfwordAt(pc + 2, Read) else Err
  }

  /** What a fetch at `pc` yields over the current memory contents. */
  ghost function RawAt(pc: u32, m: PhysicalMemoryMap): RawInstruction
    requires m.Valid()
    reads m, m.Backings()
  {
    Classify(pc, if m.Backed(pc, Read, Halfword) then m.HalfwordAt(pc, Read) else Err, SecondAt(pc, m))
  }

  /** `fetch_raw`: both halfwords are read with read-type routing, at `pc` and at `pc + 2`. */
  method FetchRaw(state: State, m: PhysicalMemoryMap) returns (r: RawInstruction)
    requires m.Valid() && FetchBacked(state.pc, m)
    ensures r == RawAt(state.pc, m)
  {
    var pc := state.Pc();
    if pc % 2 != 0 {
      return Unaligned;
    }
    var first := m.ReadHalfword(pc);
    if first.Err? {
      return Fault;
    }
    if StartsRegular(first.value) {
      r := FetchSecondHalf(pc, m, first.value);
    } else {
      r := Compressed(first.value);
    }
  }

  /** The rest of `fetch_raw` once the first halfword `lo` starts a 32-bit instruction. */
  method FetchSecondHalf(pc: u32, m: PhysicalMemoryMap, lo: bv16) returns (r: RawInstruction)
    requires m.Valid() && pc % 2 == 0 && m.Backed(pc, Read, Halfword) && m.HalfwordAt(pc, Read) == Ok(lo)
    requires StartsRegular(lo) && FetchBacked(pc, m)
    ensures r == Classify(pc, Ok(lo), SecondAt(pc, m))
  {
    assert pc + 2 < 0x1_0000_0000 && m.Backed(pc + 2, Read, Halfword);
    var second := m.ReadHalfword(pc + 2);
    assert SecondAt(pc, m) == second;
    if second.Err? {
      return Fault;
    }
    return Regular(Join(lo, second.value));
  }
}
