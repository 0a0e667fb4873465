// XRVE: the architectural state — a program counter, the 31 stored registers x1..x31
// (x0 is hard-wired to zero) and the count of retired instructions.

module XrveState {
  import opened Common
  import opened Registers

  const U64_LIMIT: nat := 0x1_0000_0000_0000_0000

  class State {
    /** There is no setter, so the program counter keeps its initial value. */
    const pc: u32
    /** `registers[i]` holds x(i+1). */
    const registers: array<bv32>
    var instsRetired: nat

    ghost predicate Valid()
      reads this
    {
      registers.Length == 31 && instsRetired < U64_LIMIT
    }

    constructor ()
      ensures Valid() && fresh(registers)
      ensures pc == 0 && instsRetired == 0
      ensures forall i :: 0 <= i < 31 ==> registers[i] == 0
    {
      pc := 0;
      registers := new bv32[31](_ => 0);
      instsRetired := 0;
    }

    function Pc(): (r: u32)
      ensures r == pc
    {
      pc
    }

    /** Register `r`; x0 always reads 0. A number of 32 or more is a panic in the source. */
    function GetR(r: bv8): (v: bv32)
      requires Valid() && r < 32
      reads this, registers
      ensures v == RegValue(registers[..], r)
      ensures r == 0 ==> v == 0
    {
      if r == 0 then 0 else registers[r as int - 1]
    }

    /** Writes to x0 are discarded; any other register takes the value and no other changes. */
    method SetR(r: bv8, v: bv32)
      requires Valid() && r < 32
      modifies registers
      ensures Valid()
      ensures registers[..] == Written(old(registers[..]), r, v)
    {
      if r != 0 {
        registers[r as int - 1] := v;
      }
    }

    /** A plain (non-wrapping) increment: the count must stay within 64 bits. */
    method RetireInst()
      requires Valid() && instsRetired + 1 < U64_LIMIT
      modifies this
      ensures Valid() && instsRetired == old(instsRetired) + 1
    {
      instsRetired := instsRetired + 1;
    }

    function RetiredInsts(): (n: nat)
      reads this
      ensures n == instsRetired
    {
      instsRetired
    }
  }
}
