// The general-purpose register file both emulators share: registers x1..x31 are stored,
// x0 is hard-wired to zero, so reads of x0 give 0 and writes to it are discarded.

module Registers {
  /** The value of register `r` in a register file `regs` holding x1..x31. */
  function RegValue(regs: seq<bv32>, r: bv8): bv32
    requires |regs| == 31 && r < 32
  {
    if r == 0 then 0 else regs[r as int - 1]
  }

  /** The register file after writing `v` to register `r`; a write to x0 is discarded. */
  function Written(regs: seq<bv32>, r: bv8, v: bv32): (w: seq<bv32>)
    requires |regs| == 31 && r < 32
    ensures |w| == 31
  {
    if r == 0 then regs else regs[r as int - 1 := v]
  }

  /** Reading back: x0 stays 0, the written register reads `v`, every other register is unchanged. */
  lemma WrittenReadsBack(regs: seq<bv32>, r: bv8, v: bv32, other: bv8)
    requires |regs| == 31 && r < 32 && other < 32
    ensures RegValue(Written(regs, r, v), 0) == 0
    ensures r != 0 ==> RegValue(Written(regs, r, v), r) == v
    ensures other != r ==> RegValue(Written(regs, r, v), other) == RegValue(regs, other)
  {
  }
}
