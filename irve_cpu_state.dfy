// IRVE: the CPU state — the program counter, the 31 stored registers x1..x31 and the
// reservation-set flag of LR/SC. The CSRs live in their own class (IrveCsr).

module IrveCpuState {
  import opened Registers

  class CpuState {
    var pc: bv32
    /** `regs[i]` holds x(i+1). */
    const regs: array<bv32>
    var reservationValid: bool

    ghost predicate Valid()
      reads this
    {
      regs.Length == 31
    }

    /** The stored registers, x1 first. */
    ghost function Registers(): seq<bv32>
      reads this, regs
    {
      regs[..]
    }

    /**
     * Reset: the pc is 0 and no reservation is held. The registers are filled from
     * `initial`, which stands for the source's pseudo-random values.
     */
    constructor (initial: seq<bv32>)
      requires |initial| == 31
      ensures Valid() && fresh(regs)
      ensures pc == 0 && !reservationValid && Registers() == initial
    {
      pc := 0;
      reservationValid := false;
      regs := new bv32[31];
      new;
      var i := 0;
      while i < 31
        invariant 0 <= i <= 31
        invariant forall j :: 0 <= j < i ==> regs[j] == initial[j]
        modifies regs
      {
        regs[i] := initial[i];
        i := i + 1;
      }
    }

    function GetPc(): bv32
      reads this
    {
      pc
    }

    method SetPc(newPc: bv32)
      modifies this
      ensures pc == newPc && reservationValid == old(reservationValid)
    {
      pc := newPc;
    }

    /** Register `n`, with x0 reading 0; a number of 32 or more fails the source's assertion. */
    function GetR(n: bv8): (v: bv32)
      requires Valid() && n < 32
      reads this, regs
      ensures v == RegValue(Registers(), n)
    {
      if n != 0 then regs[n as int - 1] else 0
    }

    /** A write to x0 is ignored; any other register takes the value. */
    method SetR(n: bv8, v: bv32)
      requires Valid() && n < 32
      modifies regs
      ensures Registers() == Written(old(Registers()), n, v)
    {
      if n != 0 {
        regs[n as int - 1] := v;
      }
    }

    method ValidateReservationSet()
      modifies this
      ensures reservationValid && pc == old(pc)
    {
      reservationValid := true;
    }

    method InvalidateReservationSet()
      modifies this
      ensures !reservationValid && pc == old(pc)
    {
      reservationValid := false;
    }

    function ReservationSetValid(): bool
      reads this
    {
      reservationValid
    }

    /** The pc advances by 4, wrapping modulo 2^32; nothing else changes. */
    method GotoNextSequentialPc()
      modifies this
      ensures pc == old(pc) + 4 && reservationValid == old(reservationValid)
    {
      pc := pc + 4;
    }
  }

  /** The register sequence of the unit test: x0 ignores writes; later writes leave x2 alone. */
  method RegisterScenario(s: CpuState)
    requires s.Valid()
    modifies s.regs
    ensures s.GetR(0) == 0 && s.GetR(1) == 0x9876_5432 && s.GetR(20) == 0xFFFF_FF85
    ensures s.GetR(31) == 0xFFFF_FFFF && s.GetR(2) == 0x7FFF_FFFF
  {
    s.SetR(0, 0x1234_5678);
    s.SetR(1, 0x9876_5432);
    s.SetR(2, 0xABCD_1234);
    s.SetR(3, 0x1234_ABCD);
    s.SetR(4, 0);
    s.SetR(5, 0xFFFF_FFFF);
    s.SetR(20, 0xFFFF_FF85);
    s.SetR(31, 0xFFFF_FFFF);
    assert s.GetR(2) == 0xABCD_1234;
    s.SetR(2, 0x7FFF_FFFF);
  }
}
