// IRVE: the 32-bit `Word` and its explicit operations. `+`, `-`, `*`, `~`, `|`, `&`,
// `^` and `==` are Dafny's own operators on `bv32` (modulo 2^32, on the unsigned
// pattern); the operations below are the ones the `Word` type spells out.

module IrveWord {
  import opened Bits

  // Load/store data-type codes: the funct3 field of LOAD and STORE.
  const DT_BYTE: bv8 := 0
  const DT_HALFWORD: bv8 := 1
  const DT_WORD: bv8 := 2
  const DT_SIGNED_BYTE: bv8 := 0
  const DT_SIGNED_HALFWORD: bv8 := 1
  const DT_UNSIGNED_BYTE: bv8 := 4
  const DT_UNSIGNED_HALFWORD: bv8 := 5

  /** Two's-complement negation of the signed view (the most negative word negates to itself). */
  function SignedNegate(w: bv32): bv32
  {
    0 - w
  }

  /** `<<`: the shift amount must be below 32. */
  function Shl(w: bv32, n: bv32): bv32
    requires n < 32
  {
    w << n
  }

  /** `srl`: logical shift right, zero-filling. */
  function Srl(w: bv32, n: bv32): bv32
    requires n < 32
  {
    w >> n
  }

  /** `bit(b)`: bit `b` in the least significant position. */
  function Bit(w: bv32, b: bv32): (r: bv32)
    requires b < 32
    ensures r == 0 || r == 1
  {
    Srl(w, b) & 1
  }

  /** `!w`: the word is zero. */
  predicate IsZero(w: bv32)
  {
    w == 0
  }

  /** Bits `top` down to `bottom`, moved to the least significant positions. */
  function BitRange(w: bv32, top: bv32, bottom: bv32): bv32
    requires bottom <= top < 32
  {
    Srl(w, bottom) & (0xFFFF_FFFF >> (31 - (top - bottom)))
  }

  /** Copies bit `b` into every bit above it. */
  function SignExtendFromBit(w: bv32, b: bv32): bv32
    requires b < 32
  {
    var keep := 0xFFFF_FFFF >> (31 - b);
    if Bit(w, b) == 1 then w | !keep else w & keep
  }

  /** Negation is an additive inverse and an involution. */
  lemma SignedNegateInverse(w: bv32)
    ensures w + SignedNegate(w) == 0
    ensures SignedNegate(SignedNegate(w)) == w
    ensures SignedNegate(0x8000_0000) == 0x8000_0000
  {
  }

  /** Addition and subtraction wrap around modulo 2^32, and subtraction undoes addition. */
  lemma AddSubWrap(a: bv32, b: bv32)
    ensures (a + b) - b == a
    ensures 0xFFFF_FFFF + (1 as bv32) == 0
    ensures (0 as bv32) - 1 == 0xFFFF_FFFF
  {
  }

  /** `srl` fills with zeros, `sra` with copies of the sign bit. */
  lemma ShiftFill(w: bv32)
    ensures Srl(0x8000_0000, 4) == 0x0800_0000
    ensures Sra(0x8000_0000, 4) == 0xF800_0000
    ensures Shl(0x8000_0001, 1) == 2
    ensures Bit(w, 31) == 1 <==> Neg(w)
  {
    SraExample();
  }

  /** The single bits and bit ranges the decoder and trap logic take apart. */
  lemma BitRangeExamples(w: bv32)
    ensures BitRange(w, 31, 0) == w
    ensures BitRange(w, 11, 7) == (w >> 7) & 0x1F
    ensures BitRange(w, 6, 2) == (w >> 2) & 0x1F
    ensures BitRange(w, 1, 0) == w & 3
    ensures Bit(w, 3) == (w >> 3) & 1
  {
  }

  /** Sign-extending from bit 11 keeps the low twelve bits and fills the rest with bit 11. */
  lemma SignExtendFromBit11(w: bv32)
    ensures SignExtendFromBit(w, 11) == if w & 0x800 != 0 then w | 0xFFFF_F000 else w & 0xFFF
  {
    assert Bit(w, 11) == 1 <==> w & 0x800 != 0;
  }

  lemma SignExtendFromBit12(w: bv32)
    ensures SignExtendFromBit(w, 12) == if w & 0x1000 != 0 then w | 0xFFFF_E000 else w & 0x1FFF
  {
    assert Bit(w, 12) == 1 <==> w & 0x1000 != 0;
  }

  lemma SignExtendFromBit20(w: bv32)
    ensures SignExtendFromBit(w, 20) == if w & 0x10_0000 != 0 then w | 0xFFE0_0000 else w & 0x1F_FFFF
  {
    assert Bit(w, 20) == 1 <==> w & 0x10_0000 != 0;
  }

  /** Sign-extending from bit 7 or bit 15 is the sign extension of a byte or halfword load. */
  lemma SignExtendFromBit7(w: bv32)
    ensures SignExtendFromBit(w, 7) == if w & 0x80 != 0 then w | 0xFFFF_FF00 else w & 0xFF
  {
    assert Bit(w, 7) == 1 <==> w & 0x80 != 0;
  }

  lemma SignExtendFromBit15(w: bv32)
    ensures SignExtendFromBit(w, 15) == if w & 0x8000 != 0 then w | 0xFFFF_0000 else w & 0xFFFF
  {
    assert Bit(w, 15) == 1 <==> w & 0x8000 != 0;
  }
}
