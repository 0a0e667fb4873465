// Two's-complement views of 32-bit words, shared by both emulators.
// Values stay bit-vectors throughout; the signed view is defined from the sign bit.

module Bits {
  /** The sign bit of the two's-complement view. */
  predicate Neg(w: bv32)
  {
    w & 0x8000_0000 != 0
  }

  /** Signed less-than: a negative word is below every non-negative one; same signs compare as patterns. */
  predicate Slt(a: bv32, b: bv32)
  {
    if Neg(a) != Neg(b) then Neg(a) else a < b
  }

  /** Arithmetic right shift: the vacated high bits copy the sign bit. */
  function Sra(a: bv32, n: bv32): bv32
    requires n < 32
  {
    if Neg(a) then !((!a) >> n) else a >> n
  }

  /** Signed order is the unsigned order of the words with their sign bits flipped. */
  lemma SltIsFlippedUnsigned(a: bv32, b: bv32)
    ensures Slt(a, b) <==> (a ^ 0x8000_0000) < (b ^ 0x8000_0000)
  {
  }

  /** `Slt` is a strict order. */
  lemma SltIrreflexive(a: bv32)
    ensures !Slt(a, a)
  {
  }

  lemma SltTransitive(a: bv32, b: bv32, c: bv32)
    requires Slt(a, b) && Slt(b, c)
    ensures Slt(a, c)
  {
  }

  /** The most negative word is below every other one, and `-1` is below `0`. */
  lemma SltExtremes(w: bv32)
    ensures w != 0x8000_0000 ==> Slt(0x8000_0000, w)
    ensures w != 0x7FFF_FFFF ==> Slt(w, 0x7FFF_FFFF)
    ensures Slt(0xFFFF_FFFF, 0) && !Slt(0, 0xFFFF_FFFF)
  {
  }

  /** An arithmetic shift fills the vacated bits with ones exactly when the word is negative. */
  lemma SraSignFill(a: bv32, n: bv32)
    requires n < 32
    ensures Neg(a) ==> Sra(a, n) | (0xFFFF_FFFF >> n) == 0xFFFF_FFFF && Neg(Sra(a, n))
    ensures !Neg(a) ==> Sra(a, n) == a >> n && !Neg(Sra(a, n))
  {
  }

  /** Shifting the most negative word right by four keeps its sign in the four vacated bits. */
  lemma SraExample()
    ensures Sra(0x8000_0000, 4) == 0xF800_0000
  {
  }

  /** A shift by 31 leaves only copies of the sign bit. */
  lemma SraBy31(a: bv32)
    ensures Sra(a, 31) == if Neg(a) then 0xFFFF_FFFF else 0
  {
  }
}
