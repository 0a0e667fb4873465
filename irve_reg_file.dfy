// IRVE: the legacy register file `reg_file_t`, 32 stored words whose element 0 is forced
// back to zero on every access. Indexing hands out a reference, so a write through `[0]`
// does land in element 0, and the next access clears it again.

module IrveRegFile {
  /** What reads observe: the stored words with element 0 cleared. */
  function Observed(stored: seq<bv32>): (o: seq<bv32>)
    requires |stored| == 32
    ensures |o| == 32 && o[0] == 0
    ensures forall j :: 1 <= j < 32 ==> o[j] == stored[j]
  {
    stored[0 := 0]
  }

  class RegFile {
    const regs: array<bv32>

    ghost predicate Valid()
      reads this
    {
      regs.Length == 32
    }

    /** Value-initialised: every element is zero. */
    constructor ()
      ensures Valid() && fresh(regs)
      ensures forall j :: 0 <= j < 32 ==> regs[j] == 0
    {
      regs := new bv32[32](_ => 0);
    }

    /** `operator[]` used for reading: element 0 is cleared first. */
    method Read(i: bv8) returns (v: bv32)
      requires Valid() && i < 32
      modifies regs
      ensures regs[..] == old(regs[..])[0 := 0]
      ensures v == Observed(old(regs[..]))[i]
    {
      regs[0] := 0;
      v := regs[i];
    }

    /** `operator[]` used as the target of an assignment: clear element 0, then store. */
    method Write(i: bv8, v: bv32)
      requires Valid() && i < 32
      modifies regs
      ensures regs[..] == old(regs[..])[0 := 0][i := v]
    {
      regs[0] := 0;
      regs[i] := v;
    }
  }

  /**
   * Through the observed view the file behaves as a register file with x0 hard-wired to
   * zero: a write to index `i > 0` is read back, a write to 0 is invisible, and other
   * indices keep their values.
   */
  lemma WriteThenObserve(stored: seq<bv32>, i: bv8, v: bv32)
    requires |stored| == 32 && i < 32
    ensures Observed(stored[0 := 0][i := v]) == if i == 0 then Observed(stored) else Observed(stored)[i := v]
  {
  }

  /** The unit test's sequence of writes and reads. */
  method RegFileScenario(f: RegFile)
    requires f.Valid()
    modifies f.regs
    ensures Observed(f.regs[..])[0] == 0 && Observed(f.regs[..])[1] == 0x9876_5432
    ensures Observed(f.regs[..])[2] == 0xABCD_1234 && Observed(f.regs[..])[5] == 0xFFFF_FFFF
    ensures Observed(f.regs[..])[20] == 0xFFFF_FF85 && Observed(f.regs[..])[31] == 0xFFFF_FFFF
  {
    var x := f.Read(0);
    assert x == 0;
    f.Write(0, 0x1234_5678);
    x := f.Read(0);
    assert x == 0;
    f.Write(1, 0x9876_5432);
    f.Write(2, 0xABCD_1234);
    f.Write(3, 0x1234_ABCD);
    f.Write(4, 0);
    f.Write(5, 0xFFFF_FFFF);
    f.Write(20, 0xFFFF_FF85);
    f.Write(31, 0xFFFF_FFFF);
    x := f.Read(2);
    assert x == 0xABCD_1234;
    x := f.Read(1);
    assert x == 0x9876_5432;
  }
}
