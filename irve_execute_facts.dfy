// IRVE: what the per-opcode instruction semantics promise, stated over the spec functions of
// IrveExecute: the ALU against the Rust prototype's reference handlers, the M extension's
// division rules, branches and jumps, the A extension, and the Zicsr write suppression.

module IrveExecuteFacts {
  import opened Common
  import opened Bits
  import opened Registers
  import opened IrveTrap
  import opened IrveWord
  import opened IrveDecode
  import opened IrveCsr
  import opened IrveMemory
  import opened IrveMemoryFacts
  import opened IrveExecute
  import XrveI

  // ---------------------------------------------------------------------------------------
  // OP and OP-IMM against the prototype's reference ALU.

  /** The base OP instructions compute what the prototype's `Op` handler computes, and reject the same encodings. */
  lemma BaseOpMatchesPrototype(funct7: bv8, funct3: bv8, a: bv32, b: bv32)
    requires funct3 < 8
    ensures BaseOp(funct7, funct3, a, b) ==
      match XrveI.OpKind(funct7, funct3)
      case None => None
      case Some(op) => Some(XrveI.Alu(op, a, b))
  {
    if funct3 == 0 {
    } else if funct3 == 1 {
    } else if funct3 == 2 {
    } else if funct3 == 3 {
    } else if funct3 == 4 {
    } else if funct3 == 5 {
    } else if funct3 == 6 {
    } else {
    }
  }

  /** OP-IMM computes what the prototype's `OpImm` handler computes, with funct7 taken from imm bits 11:5. */
  lemma OpImmMatchesPrototype(funct3: bv8, a: bv32, imm: bv32)
    requires funct3 < 8
    ensures OpImmValue(funct3, a, imm) ==
      match XrveI.OpImmKind(funct3, ((imm >> 5) & 0x7F) as bv8)
      case None => None
      case Some(op) => Some(XrveI.Alu(op, a, imm))
  {
    if funct3 == 0 {
    } else if funct3 == 1 {
    } else if funct3 == 2 {
    } else if funct3 == 3 {
    } else if funct3 == 4 {
    } else if funct3 == 5 {
    } else if funct3 == 6 {
    } else {
    }
  }

  /**
   * OP is legal exactly for funct7 = 1 (the M extension), funct7 = 0, and funct7 = 0b0100000
   * with the funct3 of ADD/SUB or SRL/SRA.
   */
  lemma OpLegality(funct7: bv8, funct3: bv8, a: bv32, b: bv32)
    requires funct3 < 8
    ensures OpValue(funct7, funct3, a, b).Some? <==>
      funct7 == 1 || funct7 == 0 || (funct7 == 0x20 && (funct3 == 0 || funct3 == 5))
  {
    if funct7 != 1 {
      assert OpValue(funct7, funct3, a, b) == BaseOp(funct7, funct3, a, b);
      BaseOpMatchesPrototype(funct7, funct3, a, b);
      XrveI.OpLegalExactly(funct7, funct3);
    }
  }

  /** OP-IMM is illegal only for a shift right whose imm bits 11:5 are neither 0 nor 0b0100000. */
  lemma OpImmLegality(funct3: bv8, a: bv32, imm: bv32)
    requires funct3 < 8
    ensures OpImmValue(funct3, a, imm).None? <==>
      funct3 == 5 && (imm >> 5) & 0x7F != 0 && (imm >> 5) & 0x7F != 0x20
  {
    if funct3 == 0 {
    } else if funct3 == 1 {
    } else if funct3 == 2 {
    } else if funct3 == 3 {
    } else if funct3 == 4 {
    } else if funct3 == 5 {
    } else if funct3 == 6 {
    } else {
    }
  }

  /** ADDI with the immediate -1 subtracts one; SLT and SLTU tell 0x80000000 and 1 apart differently. */
  lemma AluExamples()
    ensures OpImmValue(0, 5, 0xFFFF_FFFF) == Some(4)
    ensures OpValue(0, 2, 0x8000_0000, 1) == Some(1) && OpValue(0, 3, 0x8000_0000, 1) == Some(0)
    ensures OpImmValue(3, 1, 0xFFFF_FFFF) == Some(1)
  {
  }

  // ---------------------------------------------------------------------------------------
  // The M extension.

  /** The division rules the ISA fixes: by zero, and the one signed overflow. */
  lemma DivisionEdgeCases(a: bv32)
    ensures MulDiv(4, a, 0) == 0xFFFF_FFFF && MulDiv(5, a, 0) == 0xFFFF_FFFF
    ensures MulDiv(6, a, 0) == a && MulDiv(7, a, 0) == a
    ensures MulDiv(4, 0x8000_0000, 0xFFFF_FFFF) == 0x8000_0000
    ensures MulDiv(6, 0x8000_0000, 0xFFFF_FFFF) == 0
  {
  }

  lemma NegatedProducts(a: int, b: int)
    ensures (-a) * b == -(a * b) && a * (-b) == -(a * b) && (-a) * (-b) == a * b
  {
  }

  lemma EuclidPositive(n: nat, d: nat)
    requires d > 0
    ensures n == (n / d) * d + n % d && 0 <= n % d < d
  {
  }

  /**
   * C's signed division and remainder: the quotient rounds toward zero, the remainder is
   * smaller than the divisor and has the dividend's sign, and together they rebuild the dividend.
   */
  lemma TruncDivision(x: int, y: int)
    requires y != 0
    ensures TruncDiv(x, y) * y + TruncRem(x, y) == x
    ensures Abs(TruncRem(x, y)) < Abs(y)
    ensures TruncRem(x, y) != 0 ==> (TruncRem(x, y) < 0 <==> x < 0)
    ensures Abs(TruncDiv(x, y)) == Abs(x) / Abs(y)
  {
    TruncRebuild(x, y);
    TruncSigns(x, y);
  }

  /** The quotient times the divisor, plus the remainder, is the dividend. */
  lemma TruncRebuild(x: int, y: int)
    requires y != 0
    ensures TruncDiv(x, y) * y + TruncRem(x, y) == x
  {
    var ax: int, ay: int := Abs(x), Abs(y);
    var q: int, r: int := ax / ay, ax % ay;
    EuclidPositive(ax, ay);
    assert x == WithSign(x < 0, ax) && y == WithSign(y < 0, ay);
    assert TruncDiv(x, y) == WithSign((x < 0) != (y < 0), q) && TruncRem(x, y) == WithSign(x < 0, r);
    SignedRebuild(x < 0, y < 0, q, ay, r);
  }

  /** The remainder is smaller than the divisor and has the dividend's sign; the quotient's size is Euclid's. */
  lemma TruncSigns(x: int, y: int)
    requires y != 0
    ensures Abs(TruncRem(x, y)) < Abs(y)
    ensures TruncRem(x, y) != 0 ==> (TruncRem(x, y) < 0 <==> x < 0)
    ensures Abs(TruncDiv(x, y)) == Abs(x) / Abs(y)
  {
    EuclidPositive(Abs(x), Abs(y));
  }

  /** `v` with its sign flipped when `negative`. */
  function WithSign(negative: bool, v: int): int
  {
    if negative then -v else v
  }

  /** Signs of a quotient and divisor multiply out as signs do. */
  lemma SignedRebuild(sx: bool, sy: bool, q: int, ay: int, r: int)
    ensures WithSign(sx != sy, q) * WithSign(sy, ay) + WithSign(sx, r) == WithSign(sx, q * ay + r)
  {
    NegatedProducts(q, ay);
  }

  /** A quotient is no larger than its dividend, and at most half of it for a divisor of 2 or more. */
  lemma QuotientBound(n: nat, d: nat)
    requires d > 0
    ensures n / d <= n
    ensures d >= 2 ==> 2 * (n / d) <= n
  {
    var q := n / d;
    EuclidPositive(n, d);
    MulMonotone(q, 1, d);
    if d >= 2 {
      MulMonotone(q, 2, d);
    }
  }

  /**
   * Every signed 32-bit quotient fits in 32 bits except the most negative word divided by -1,
   * which is the one case the instruction handles before dividing.
   */
  lemma SignedQuotientFits(x: int, y: int)
    requires -0x8000_0000 <= x < 0x8000_0000 && -0x8000_0000 <= y < 0x8000_0000 && y != 0
    requires !(x == -0x8000_0000 && y == -1)
    ensures -0x8000_0000 <= TruncDiv(x, y) < 0x8000_0000
  {
    EuclidPositive(Abs(x), Abs(y));
    QuotientBound(Abs(x), Abs(y));
  }

  /** The integer views of a word lie in the signed and the unsigned 32-bit ranges. */
  lemma ViewRanges(a: bv32)
    ensures -0x8000_0000 <= Signed(a) < 0x8000_0000 && 0 <= Unsigned(a) < TWO32
  {
  }

  lemma ProductBound(x: int, y: int, boundX: nat, boundY: nat)
    requires Abs(x) <= boundX && Abs(y) <= boundY
    ensures Abs(x * y) <= boundX * boundY
  {
    var ax: int, ay: int := Abs(x), Abs(y);
    MulMonotone(ax, ay, boundY);
    MulMonotone(boundY, ax, boundX);
    NegatedProducts(ax, ay);
    assert Abs(x * y) == ax * ay by {
      if x < 0 && y < 0 {
        assert x * y == (-ax) * (-ay);
      } else if x < 0 {
        assert x * y == (-ax) * ay;
      } else if y < 0 {
        assert x * y == ax * (-ay);
      }
    }
  }

  /** Dividing a product of two 32-bit magnitudes by 2^32 leaves a 32-bit magnitude. */
  lemma HighHalfRange(p: int, bound: nat)
    requires Abs(p) <= bound * TWO32
    ensures -(bound as int) <= p / TWO32 <= bound
  {
  }

  /** The upper half of a product of magnitudes at most `boundX` and `boundY`. */
  lemma HighOfProduct(x: int, y: int, boundX: nat, boundY: nat, bound: nat)
    requires Abs(x) <= boundX && Abs(y) <= boundY && boundX * boundY <= bound * TWO32
    ensures -(bound as int) <= (x * y) / TWO32 <= bound
  {
    ProductBound(x, y, boundX, boundY);
    HighHalfRange(x * y, bound);
  }

  /** MULHSU's product: a signed word times an unsigned one keeps its upper half below 2^31. */
  lemma MixedHighRange(x: int, y: int)
    requires -0x8000_0000 <= x < 0x8000_0000 && 0 <= y < TWO32
    ensures -0x8000_0000 <= (x * y) / TWO32 < 0x8000_0000
  {
    if x >= 0 {
      MulMonotone(y, x, 0x7FFF_FFFF);
      MulMonotone(0x7FFF_FFFF, y, 0xFFFF_FFFF);
      MulMonotone(x, 0, y);
    } else {
      MulMonotone(y, -x, 0x8000_0000);
      MulMonotone(0x8000_0000, y, 0xFFFF_FFFF);
      NegatedProducts(x, y);
    }
  }

  /**
   * The upper halves of the 64-bit products are in range: MULH and MULHSU give a signed
   * 32-bit value and MULHU an unsigned one, so keeping 32 bits loses nothing.
   */
  lemma HighProductsFit(a: bv32, b: bv32)
    ensures -0x8000_0000 <= (Signed(a) * Signed(b)) / TWO32 < 0x8000_0000
    ensures -0x8000_0000 <= (Signed(a) * Unsigned(b)) / TWO32 < 0x8000_0000
    ensures 0 <= (Unsigned(a) * Unsigned(b)) / TWO32 < TWO32
  {
    ViewRanges(a);
    ViewRanges(b);
    HighRanges(Signed(a), Signed(b), Unsigned(a), Unsigned(b));
  }

  lemma HighRanges(sa: int, sb: int, ua: int, ub: int)
    requires -0x8000_0000 <= sa < 0x8000_0000 && -0x8000_0000 <= sb < 0x8000_0000
    requires 0 <= ua < TWO32 && 0 <= ub < TWO32
    ensures -0x8000_0000 <= (sa * sb) / TWO32 < 0x8000_0000
    ensures -0x8000_0000 <= (sa * ub) / TWO32 < 0x8000_0000
    ensures 0 <= (ua * ub) / TWO32 < TWO32
  {
    HighOfProduct(sa, sb, 0x8000_0000, 0x8000_0000, 0x4000_0000);
    MixedHighRange(sa, ub);
    HighOfProduct(ua, ub, 0xFFFF_FFFF, 0xFFFF_FFFF, 0xFFFF_FFFF);
    MulMonotone(ua, 0, ub);
  }

  /** The high products of the unit test, before they are cast to a word. */
  lemma HighMultiplyExamples()
    ensures (Signed(0x7FFF_FFFF) * Signed(0x7FFF_FFFF)) / TWO32 == 0x3FFF_FFFF
    ensures (Signed(0xFFFF_FFFF) * Signed(0x7FFF_FFFF)) / TWO32 == -1
    ensures (Signed(0xFFFF_FF9C) * Signed(10)) / TWO32 == -1
    ensures (Signed(0xFFFF_FFFF) * Unsigned(0x7FFF_FFFF)) / TWO32 == -1
    ensures (Signed(0x7FFF_FFFF) * Unsigned(0xFFFF_FFFF)) / TWO32 == 0x7FFF_FFFE
    ensures (Unsigned(0xFFFF_FFFF) * Unsigned(0x7FFF_FFFF)) / TWO32 == 0x7FFF_FFFE
    ensures (Unsigned(0x7FFF_FFFF) * Unsigned(0x7FFF_FFFF)) / TWO32 == 0x3FFF_FFFF
  {
  }
}
