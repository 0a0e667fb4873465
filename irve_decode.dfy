// IRVE: decoding a 32-bit instruction into its fields, immediates and format
// (sections 2.2 and 2.3 of the RISC-V Unprivileged ISA). Compressed instructions are
// not supported: a word whose low two bits are not `11` is illegal.

module IrveDecode {
  import opened Bits
  import opened IrveWord
  import opened IrveTrap
  import opened Common

  // Major opcodes (bits 6:2) that have a format.
  const LOAD: bv8 := 0x00
  const CUSTOM_0: bv8 := 0x02
  const MISC_MEM: bv8 := 0x03
  const OP_IMM: bv8 := 0x04
  const AUIPC: bv8 := 0x05
  const STORE: bv8 := 0x08
  const AMO: bv8 := 0x0B
  const OP: bv8 := 0x0C
  const LUI: bv8 := 0x0D
  const BRANCH: bv8 := 0x18
  const JALR: bv8 := 0x19
  const JAL: bv8 := 0x1B
  const SYSTEM: bv8 := 0x1C

  datatype Format = R_TYPE | I_TYPE | S_TYPE | B_TYPE | U_TYPE | J_TYPE

  /** Everything the constructor extracts; every immediate is computed, whatever the format. */
  datatype DecodedInst = DecodedInst(
    opcode: bv8, funct3: bv8, funct5: bv8, funct7: bv8, rd: bv8, rs1: bv8, rs2: bv8,
    immI: bv32, immS: bv32, immB: bv32, immU: bv32, immJ: bv32, format: Format)

  // The fields, as fixed bit slices.

  function Opcode(w: bv32): (r: bv8) ensures r < 32 { BitRange(w, 6, 2) as bv8 }
  function Funct3(w: bv32): (r: bv8) ensures r < 8 { BitRange(w, 14, 12) as bv8 }
  function Funct5(w: bv32): (r: bv8) ensures r < 32 { BitRange(w, 31, 27) as bv8 }
  function Funct7(w: bv32): (r: bv8) ensures r < 128 { BitRange(w, 31, 25) as bv8 }
  function Rd(w: bv32): (r: bv8) ensures r < 32 { BitRange(w, 11, 7) as bv8 }
  function Rs1(w: bv32): (r: bv8) ensures r < 32 { BitRange(w, 19, 15) as bv8 }
  function Rs2(w: bv32): (r: bv8) ensures r < 32 { BitRange(w, 24, 20) as bv8 }

  // The immediates, built as the constructor builds them and then sign-extended.

  function ImmI(w: bv32): bv32
  {
    SignExtendFromBit(BitRange(w, 31, 20), 11)
  }

  function ImmSRaw(w: bv32): bv32
  {
    Shl(BitRange(w, 31, 25), 5) | BitRange(w, 11, 7)
  }

  function ImmS(w: bv32): bv32
  {
    SignExtendFromBit(ImmSRaw(w), 11)
  }

  function ImmBRaw(w: bv32): bv32
  {
    Shl(Bit(w, 31), 12) | Shl(Bit(w, 7), 11) | Shl(BitRange(w, 30, 25), 5) | Shl(BitRange(w, 11, 8), 1) | 0
  }

  function ImmB(w: bv32): bv32
  {
    SignExtendFromBit(ImmBRaw(w), 12)
  }

  /** The U-type immediate: the instruction with its low twelve bits cleared. */
  function ImmU(w: bv32): bv32
  {
    w & 0xFFFF_F000
  }

  function ImmJRaw(w: bv32): bv32
  {
    Shl(Bit(w, 31), 20) | Shl(BitRange(w, 19, 12), 12) | Shl(Bit(w, 20), 11) | Shl(BitRange(w, 30, 21), 1) | 0
  }

  function ImmJ(w: bv32): bv32
  {
    SignExtendFromBit(ImmJRaw(w), 20)
  }

  /** The format of each opcode the decoder knows; `None` for every other opcode. */
  function FormatOf(opcode: bv8): Option<Format>
  {
    if opcode == OP || opcode == CUSTOM_0 || opcode == AMO then Some(R_TYPE)
    else if opcode == LOAD || opcode == OP_IMM || opcode == JALR || opcode == SYSTEM || opcode == MISC_MEM then Some(I_TYPE)
    else if opcode == STORE then Some(S_TYPE)
    else if opcode == BRANCH then Some(B_TYPE)
    else if opcode == LUI || opcode == AUIPC then Some(U_TYPE)
    else if opcode == JAL then Some(J_TYPE)
    else None
  }

  /** All zeros, all ones and anything not ending in `11` are illegal. */
  predicate DefinedIllegal(w: bv32)
  {
    w == 0 || w == 0xFFFF_FFFF || w & 3 != 3
  }

  /** The `DecodedInst` constructor: the fields, or an illegal-instruction exception. */
  function Decode(w: bv32): (r: Outcome<DecodedInst>)
    ensures r.Throw? <==> DefinedIllegal(w) || FormatOf(Opcode(w)).None?
    ensures r.Throw? ==> r.thrown == RvException(ILLEGAL_INSTRUCTION, 0)
    ensures r.Normal? ==> r.value.opcode == Opcode(w) && Some(r.value.format) == FormatOf(Opcode(w))
  {
    if DefinedIllegal(w) then Raise(ILLEGAL_INSTRUCTION)
    else match FormatOf(Opcode(w))
      case None => Raise(ILLEGAL_INSTRUCTION)
      case Some(f) =>
        Normal(DecodedInst(Opcode(w), Funct3(w), Funct5(w), Funct7(w), Rd(w), Rs1(w), Rs2(w),
                           ImmI(w), ImmS(w), ImmB(w), ImmU(w), ImmJ(w), f))
  }

  // The getters. Each assertion of the source becomes a precondition.

  /** `get_funct3`: bits 14:12 of the word the instruction was decoded from. */
  function GetFunct3(d: DecodedInst): (r: bv8)
    requires d.format != U_TYPE && d.format != J_TYPE
    ensures forall w :: Decode(w) == Normal(d) ==> r == Funct3(w)
  {
    d.funct3
  }

  /** `get_funct5`: bits 31:27 of the word the AMO instruction was decoded from. */
  function GetFunct5(d: DecodedInst): (r: bv8)
    requires d.opcode == AMO
    ensures forall w :: Decode(w) == Normal(d) ==> r == Funct5(w)
  {
    d.funct5
  }

  /** `get_rd`: bits 11:7 of the word the instruction was decoded from. */
  function GetRd(d: DecodedInst): (r: bv8)
    requires d.format != S_TYPE && d.format != B_TYPE
    ensures forall w :: Decode(w) == Normal(d) ==> r == Rd(w)
  {
    d.rd
  }

  /** `get_rs1`: bits 19:15 of the word the instruction was decoded from. */
  function GetRs1(d: DecodedInst): (r: bv8)
    requires d.format != U_TYPE && d.format != J_TYPE
    ensures forall w :: Decode(w) == Normal(d) ==> r == Rs1(w)
  {
    d.rs1
  }

  /** The immediate a format assembles from the instruction word. */
  function ImmOf(f: Format, w: bv32): bv32
  {
    match f
    case R_TYPE => 0
    case I_TYPE => ImmI(w)
    case S_TYPE => ImmS(w)
    case B_TYPE => ImmB(w)
    case U_TYPE => ImmU(w)
    case J_TYPE => ImmJ(w)
  }

  /** `get_imm`: the immediate of the instruction's own format; R-type has none. */
  function GetImm(d: DecodedInst): (r: bv32)
    requires d.format != R_TYPE
    ensures forall w :: Decode(w) == Normal(d) ==> r == ImmOf(d.format, w)
  {
    match d.format
    case I_TYPE => d.immI
    case S_TYPE => d.immS
    case B_TYPE => d.immB
    case U_TYPE => d.immU
    case J_TYPE => d.immJ
  }

  // The immediates in closed form: sign copies of bit 31 above the instruction bits the
  // immediate is made of. Each is proved in small steps, one shape change per lemma.

  lemma BitRangeTop12(w: bv32)
    ensures BitRange(w, 31, 20) == w >> 20
  {
  }

  lemma SraBy20(w: bv32)
    ensures (var x := w >> 20; if x & 0x800 != 0 then x | 0xFFFF_F000 else x & 0xFFF) == Sra(w, 20)
  {
  }

  /** `imm_I` is bits 31:20, sign-extended. */
  lemma ImmIClosed(w: bv32)
    ensures ImmI(w) == Sra(w, 20)
  {
    BitRangeTop12(w);
    SignExtendFromBit11(w >> 20);
    SraBy20(w);
  }

  lemma ImmSRawShape(w: bv32)
    ensures ImmSRaw(w) == ((w >> 20) & 0xFE0) | ((w >> 7) & 0x1F)
  {
  }

  lemma ImmSExtend(w: bv32)
    ensures (var x := ((w >> 20) & 0xFE0) | ((w >> 7) & 0x1F); if x & 0x800 != 0 then x | 0xFFFF_F000 else x & 0xFFF)
         == (Sra(w, 20) & 0xFFFF_FFE0) | ((w >> 7) & 0x1F)
  {
  }

  /** `imm_S` is bits 31:25 above bits 11:7, sign-extended. */
  lemma ImmSClosed(w: bv32)
    ensures ImmS(w) == (Sra(w, 20) & 0xFFFF_FFE0) | ((w >> 7) & 0x1F)
  {
    ImmSRawShape(w);
    SignExtendFromBit11(ImmSRaw(w));
    ImmSExtend(w);
  }

  lemma ImmBRawShape(w: bv32)
    ensures ImmBRaw(w) == ((w >> 19) & 0x1000) | ((w << 4) & 0x800) | ((w >> 20) & 0x7E0) | ((w >> 7) & 0x1E)
  {
  }

  lemma ImmBExtend(w: bv32)
    ensures (var x := ((w >> 19) & 0x1000) | ((w << 4) & 0x800) | ((w >> 20) & 0x7E0) | ((w >> 7) & 0x1E);
             if x & 0x1000 != 0 then x | 0xFFFF_E000 else x & 0x1FFF)
         == (Sra(w, 19) & 0xFFFF_F000) | ((w << 4) & 0x800) | ((w >> 20) & 0x7E0) | ((w >> 7) & 0x1E)
  {
  }

  /** `imm_B`: bit 31, bit 7, bits 30:25 and bits 11:8 above a zero bit, sign-extended from bit 12. */
  lemma ImmBClosed(w: bv32)
    ensures ImmB(w) == (Sra(w, 19) & 0xFFFF_F000) | ((w << 4) & 0x800) | ((w >> 20) & 0x7E0) | ((w >> 7) & 0x1E)
  {
    ImmBRawShape(w);
    SignExtendFromBit12(ImmBRaw(w));
    ImmBExtend(w);
  }

  lemma ImmJRawShape(w: bv32)
    ensures ImmJRaw(w) == ((w >> 11) & 0x10_0000) | (w & 0xF_F000) | ((w >> 9) & 0x800) | ((w >> 20) & 0x7FE)
  {
  }

  lemma ImmJExtend(w: bv32)
    ensures (var x := ((w >> 11) & 0x10_0000) | (w & 0xF_F000) | ((w >> 9) & 0x800) | ((w >> 20) & 0x7FE);
             if x & 0x10_0000 != 0 then x | 0xFFE0_0000 else x & 0x1F_FFFF)
         == (Sra(w, 11) & 0xFFF0_0000) | (w & 0xF_F000) | ((w >> 9) & 0x800) | ((w >> 20) & 0x7FE)
  {
  }

  /** `imm_J`: bit 31, bits 19:12, bit 20 and bits 30:21 above a zero bit, sign-extended from bit 20. */
  lemma ImmJClosed(w: bv32)
    ensures ImmJ(w) == (Sra(w, 11) & 0xFFF0_0000) | (w & 0xF_F000) | ((w >> 9) & 0x800) | ((w >> 20) & 0x7FE)
  {
    var x := ((w >> 11) & 0x10_0000) | (w & 0xF_F000) | ((w >> 9) & 0x800) | ((w >> 20) & 0x7FE);
    ImmJRawShape(w);
    assert ImmJ(w) == SignExtendFromBit(x, 20);
    SignExtendFromBit20(x);
    ImmJExtend(w);
  }

  /** Every field, widened back to a word, is its slice of the instruction. */
  lemma FieldsShape(w: bv32)
    ensures Opcode(w) as bv32 == (w >> 2) & 0x1F
    ensures Funct3(w) as bv32 == (w >> 12) & 0x7
    ensures Funct5(w) as bv32 == w >> 27
    ensures Funct7(w) as bv32 == w >> 25
    ensures Rd(w) as bv32 == (w >> 7) & 0x1F
    ensures Rs1(w) as bv32 == (w >> 15) & 0x1F
    ensures Rs2(w) as bv32 == (w >> 20) & 0x1F
  {
  }

  // The standard encodings of the six formats (figures 2.3 and 2.4 of the Unprivileged
  // ISA), from the fields and the immediate. They serve as the reference the decoder is
  // checked against.

  predicate Fields(funct3: bv8, rd: bv8, rs1: bv8, rs2: bv8, opcode: bv8)
  {
    funct3 < 8 && rd < 32 && rs1 < 32 && rs2 < 32 && opcode < 32
  }

  function Base(funct3: bv8, rd: bv8, rs1: bv8, rs2: bv8, opcode: bv8): bv32
    requires Fields(funct3, rd, rs1, rs2, opcode)
  {
    ((rs2 as bv32) << 20) | ((rs1 as bv32) << 15) | ((funct3 as bv32) << 12) | ((rd as bv32) << 7) | ((opcode as bv32) << 2) | 3
  }

  function EncodeR(funct7: bv8, rs2: bv8, rs1: bv8, funct3: bv8, rd: bv8, opcode: bv8): bv32
    requires funct7 < 128 && Fields(funct3, rd, rs1, rs2, opcode)
  {
    ((funct7 as bv32) << 25) | Base(funct3, rd, rs1, rs2, opcode)
  }

  function EncodeI(imm: bv32, rs1: bv8, funct3: bv8, rd: bv8, opcode: bv8): bv32
    requires Fields(funct3, rd, rs1, 0, opcode)
  {
    (imm << 20) | Base(funct3, rd, rs1, 0, opcode)
  }

  function EncodeS(imm: bv32, rs2: bv8, rs1: bv8, funct3: bv8, opcode: bv8): bv32
    requires Fields(funct3, 0, rs1, rs2, opcode)
  {
    ((imm & 0xFE0) << 20) | ((imm & 0x1F) << 7) | Base(funct3, 0, rs1, rs2, opcode)
  }

  function EncodeB(imm: bv32, rs2: bv8, rs1: bv8, funct3: bv8, opcode: bv8): bv32
    requires Fields(funct3, 0, rs1, rs2, opcode)
  {
    ((imm & 0x1000) << 19) | ((imm & 0x7E0) << 20) | ((imm & 0x1E) << 7) | ((imm & 0x800) >> 4) | Base(funct3, 0, rs1, rs2, opcode)
  }

  function EncodeU(imm: bv32, rd: bv8, opcode: bv8): bv32
    requires Fields(0, rd, 0, 0, opcode)
  {
    (imm & 0xFFFF_F000) | Base(0, rd, 0, 0, opcode)
  }

  function EncodeJ(imm: bv32, rd: bv8, opcode: bv8): bv32
    requires Fields(0, rd, 0, 0, opcode)
  {
    ((imm & 0x10_0000) << 11) | ((imm & 0x7FE) << 20) | ((imm & 0x800) << 9) | (imm & 0xF_F000) | Base(0, rd, 0, 0, opcode)
  }

  /** Re-encoding the decoded fields of any word ending in `11` gives the word back, in every format. */
  lemma ReencodeR(w: bv32)
    requires w & 3 == 3
    ensures EncodeR(Funct7(w), Rs2(w), Rs1(w), Funct3(w), Rd(w), Opcode(w)) == w
  {
    FieldsShape(w);
  }

  lemma ReencodeI(w: bv32)
    requires w & 3 == 3
    ensures EncodeI(ImmI(w), Rs1(w), Funct3(w), Rd(w), Opcode(w)) == w
  {
    FieldsShape(w);
    ImmIClosed(w);
  }

  lemma ReencodeS(w: bv32)
    requires w & 3 == 3
    ensures EncodeS(ImmS(w), Rs2(w), Rs1(w), Funct3(w), Opcode(w)) == w
  {
    FieldsShape(w);
    ImmSClosed(w);
  }

  lemma ReencodeB(w: bv32)
    requires w & 3 == 3
    ensures EncodeB(ImmB(w), Rs2(w), Rs1(w), Funct3(w), Opcode(w)) == w
  {
    FieldsShape(w);
    ImmBClosed(w);
  }

  lemma ReencodeU(w: bv32)
    requires w & 3 == 3
    ensures EncodeU(ImmU(w), Rd(w), Opcode(w)) == w
  {
    FieldsShape(w);
  }

  lemma ReencodeJ(w: bv32)
    requires w & 3 == 3
    ensures EncodeJ(ImmJ(w), Rd(w), Opcode(w)) == w
  {
    FieldsShape(w);
    ImmJClosed(w);
  }

  // The signed ranges of the immediates: all bits from the top encoded one upward agree.

  /** A signed 12-bit value (I- and S-type immediates). */
  predicate FitsSigned12(imm: bv32)
  {
    imm & 0xFFFF_F800 == 0 || imm & 0xFFFF_F800 == 0xFFFF_F800
  }

  /** A signed 13-bit value (B-type offsets). */
  predicate FitsSigned13(imm: bv32)
  {
    imm & 0xFFFF_F000 == 0 || imm & 0xFFFF_F000 == 0xFFFF_F000
  }

  /** A signed 21-bit value (J-type offsets). */
  predicate FitsSigned21(imm: bv32)
  {
    imm & 0xFFF0_0000 == 0 || imm & 0xFFF0_0000 == 0xFFF0_0000
  }

  /** The fields of an encoded word decode to what was encoded. */
  lemma BaseRegisters(funct3: bv8, rd: bv8, rs1: bv8, rs2: bv8, opcode: bv8, hi: bv32)
    requires Fields(funct3, rd, rs1, rs2, opcode) && hi & 0x01FF_F07F == 0
    ensures var w := hi | Base(funct3, rd, rs1, rs2, opcode);
      Opcode(w) == opcode && Funct3(w) == funct3 && Rs1(w) == rs1 && Rs2(w) == rs2
  {
    FieldsShape(hi | Base(funct3, rd, rs1, rs2, opcode));
  }

  lemma BaseDestination(rd: bv8, opcode: bv8, hi: bv32)
    requires Fields(0, rd, 0, 0, opcode) && hi & 0xFFF == 0
    ensures var w := hi | Base(0, rd, 0, 0, opcode);
      Opcode(w) == opcode && Rd(w) == rd
  {
    FieldsShape(hi | Base(0, rd, 0, 0, opcode));
  }

  /** Decoding an I-type word yields the encoded 12-bit signed immediate and registers. */
  lemma DecodeEncodeI(imm: bv32, rs1: bv8, funct3: bv8, rd: bv8, opcode: bv8)
    requires Fields(funct3, rd, rs1, 0, opcode) && FitsSigned12(imm)
    ensures var w := EncodeI(imm, rs1, funct3, rd, opcode);
      ImmI(w) == imm && Rs1(w) == rs1 && Funct3(w) == funct3 && Rd(w) == rd && Opcode(w) == opcode
  {
    var w := EncodeI(imm, rs1, funct3, rd, opcode);
    FieldsShape(w);
    ImmIClosed(w);
  }

  lemma DecodeEncodeR(funct7: bv8, rs2: bv8, rs1: bv8, funct3: bv8, rd: bv8, opcode: bv8)
    requires funct7 < 128 && Fields(funct3, rd, rs1, rs2, opcode)
    ensures var w := EncodeR(funct7, rs2, rs1, funct3, rd, opcode);
      Funct7(w) == funct7 && Rs2(w) == rs2 && Rs1(w) == rs1 && Funct3(w) == funct3 && Rd(w) == rd && Opcode(w) == opcode
  {
    FieldsShape(EncodeR(funct7, rs2, rs1, funct3, rd, opcode));
  }

  lemma DecodeEncodeS(imm: bv32, rs2: bv8, rs1: bv8, funct3: bv8, opcode: bv8)
    requires Fields(funct3, 0, rs1, rs2, opcode) && FitsSigned12(imm)
    ensures var w := EncodeS(imm, rs2, rs1, funct3, opcode);
      ImmS(w) == imm && Rs2(w) == rs2 && Rs1(w) == rs1 && Funct3(w) == funct3 && Opcode(w) == opcode
  {
    var w := EncodeS(imm, rs2, rs1, funct3, opcode);
    FieldsShape(w);
    ImmSClosed(w);
  }

  /** The B-type immediate slots of a word carry the encoded offset, whatever the other bits. */
  lemma ImmBRawOfEncoding(imm: bv32, rest: bv32)
    requires rest & 0xFE00_0F80 == 0 && imm & 1 == 0
    ensures ImmBRaw(((imm & 0x1000) << 19) | ((imm & 0x7E0) << 20) | ((imm & 0x1E) << 7) | ((imm & 0x800) >> 4) | rest) == imm & 0x1FFF
  {
    ImmBRawShape(((imm & 0x1000) << 19) | ((imm & 0x7E0) << 20) | ((imm & 0x1E) << 7) | ((imm & 0x800) >> 4) | rest);
  }

  /** Sign-extending the low thirteen bits of a signed 13-bit value gives it back. */
  lemma ExtendFits13(imm: bv32)
    requires FitsSigned13(imm)
    ensures SignExtendFromBit(imm & 0x1FFF, 12) == imm
  {
    SignExtendFromBit12(imm & 0x1FFF);
    Fits13Low(imm);
  }

  lemma Fits13Low(imm: bv32)
    requires imm & 0xFFFF_F000 == 0 || imm & 0xFFFF_F000 == 0xFFFF_F000
    ensures var x := imm & 0x1FFF; (if x & 0x1000 != 0 then x | 0xFFFF_E000 else x & 0x1FFF) == imm
  {
  }

  /** Branch offsets are even: bit 0 is not encoded. */
  lemma DecodeEncodeB(imm: bv32, rs2: bv8, rs1: bv8, funct3: bv8, opcode: bv8)
    requires Fields(funct3, 0, rs1, rs2, opcode) && FitsSigned13(imm) && imm & 1 == 0
    ensures var w := EncodeB(imm, rs2, rs1, funct3, opcode);
      ImmB(w) == imm && Rs2(w) == rs2 && Rs1(w) == rs1 && Funct3(w) == funct3 && Opcode(w) == opcode
  {
    EncodeBRegisters(imm, rs2, rs1, funct3, opcode);
    EncodeBRaw(imm, rs2, rs1, funct3, opcode);
    ExtendFits13(imm);
  }

  lemma EncodeBRegisters(imm: bv32, rs2: bv8, rs1: bv8, funct3: bv8, opcode: bv8)
    requires Fields(funct3, 0, rs1, rs2, opcode)
    ensures var w := EncodeB(imm, rs2, rs1, funct3, opcode);
      Rs2(w) == rs2 && Rs1(w) == rs1 && Funct3(w) == funct3 && Opcode(w) == opcode
  {
    var pieces := ((imm & 0x1000) << 19) | ((imm & 0x7E0) << 20) | ((imm & 0x1E) << 7) | ((imm & 0x800) >> 4);
    assert pieces & 0x01FF_F07F == 0;
    BaseRegisters(funct3, 0, rs1, rs2, opcode, pieces);
  }

  lemma EncodeBRaw(imm: bv32, rs2: bv8, rs1: bv8, funct3: bv8, opcode: bv8)
    requires Fields(funct3, 0, rs1, rs2, opcode) && imm & 1 == 0
    ensures ImmBRaw(EncodeB(imm, rs2, rs1, funct3, opcode)) == imm & 0x1FFF
  {
    var rest := Base(funct3, 0, rs1, rs2, opcode);
    assert rest & 0xFE00_0F80 == 0;
    ImmBRawOfEncoding(imm, rest);
  }

  lemma DecodeEncodeU(imm: bv32, rd: bv8, opcode: bv8)
    requires Fields(0, rd, 0, 0, opcode) && imm & 0xFFF == 0
    ensures var w := EncodeU(imm, rd, opcode);
      ImmU(w) == imm && Rd(w) == rd && Opcode(w) == opcode
  {
    FieldsShape(EncodeU(imm, rd, opcode));
  }

  /** The J-type immediate slots of a word carry the encoded offset, whatever the other bits. */
  lemma ImmJRawOfEncoding(imm: bv32, rest: bv32)
    requires rest & 0xFFFF_F000 == 0 && imm & 1 == 0
    ensures ImmJRaw(((imm & 0x10_0000) << 11) | ((imm & 0x7FE) << 20) | ((imm & 0x800) << 9) | (imm & 0xF_F000) | rest) == imm & 0x1F_FFFF
  {
    ImmJRawShape(((imm & 0x10_0000) << 11) | ((imm & 0x7FE) << 20) | ((imm & 0x800) << 9) | (imm & 0xF_F000) | rest);
  }

  /** Sign-extending the low 21 bits of a signed 21-bit value gives it back. */
  lemma ExtendFits21(imm: bv32)
    requires FitsSigned21(imm)
    ensures SignExtendFromBit(imm & 0x1F_FFFF, 20) == imm
  {
    SignExtendFromBit20(imm & 0x1F_FFFF);
    Fits21Low(imm);
  }

  lemma Fits21Low(imm: bv32)
    requires imm & 0xFFF0_0000 == 0 || imm & 0xFFF0_0000 == 0xFFF0_0000
    ensures var x := imm & 0x1F_FFFF; (if x & 0x10_0000 != 0 then x | 0xFFE0_0000 else x & 0x1F_FFFF) == imm
  {
  }

  /** Jump offsets are even: bit 0 is not encoded. */
  lemma DecodeEncodeJ(imm: bv32, rd: bv8, opcode: bv8)
    requires Fields(0, rd, 0, 0, opcode) && FitsSigned21(imm) && imm & 1 == 0
    ensures var w := EncodeJ(imm, rd, opcode);
      ImmJ(w) == imm && Rd(w) == rd && Opcode(w) == opcode
  {
    EncodeJDestination(imm, rd, opcode);
    EncodeJRaw(imm, rd, opcode);
    ExtendFits21(imm);
  }

  lemma EncodeJDestination(imm: bv32, rd: bv8, opcode: bv8)
    requires Fields(0, rd, 0, 0, opcode)
    ensures var w := EncodeJ(imm, rd, opcode); Rd(w) == rd && Opcode(w) == opcode
  {
    var pieces := ((imm & 0x10_0000) << 11) | ((imm & 0x7FE) << 20) | ((imm & 0x800) << 9) | (imm & 0xF_F000);
    assert pieces & 0xFFF == 0;
    BaseDestination(rd, opcode, pieces);
  }

  lemma EncodeJRaw(imm: bv32, rd: bv8, opcode: bv8)
    requires Fields(0, rd, 0, 0, opcode) && imm & 1 == 0
    ensures ImmJRaw(EncodeJ(imm, rd, opcode)) == imm & 0x1F_FFFF
  {
    var rest := Base(0, rd, 0, 0, opcode);
    assert rest & 0xFFFF_F000 == 0;
    ImmJRawOfEncoding(imm, rest);
  }

  lemma Extend11Facts(x: bv32)
    requires x & 0xFFFF_F000 == 0
    ensures FitsSigned12(SignExtendFromBit(x, 11)) && (Neg(SignExtendFromBit(x, 11)) <==> x & 0x800 != 0)
  {
    SignExtendFromBit11(x);
  }

  lemma Extend12Facts(x: bv32)
    requires x & 0xFFFF_E000 == 0
    ensures FitsSigned13(SignExtendFromBit(x, 12)) && (Neg(SignExtendFromBit(x, 12)) <==> x & 0x1000 != 0)
    ensures SignExtendFromBit(x, 12) & 1 == x & 1
  {
    SignExtendFromBit12(x);
  }

  lemma Extend20Facts(x: bv32)
    requires x & 0xFFE0_0000 == 0
    ensures FitsSigned21(SignExtendFromBit(x, 20)) && (Neg(SignExtendFromBit(x, 20)) <==> x & 0x10_0000 != 0)
    ensures SignExtendFromBit(x, 20) & 1 == x & 1
  {
    SignExtendFromBit20(x);
  }

  /** The decoded immediates are signed values of their format's width, with the instruction's sign. */
  lemma ImmIShape(w: bv32)
    ensures FitsSigned12(ImmI(w)) && Neg(ImmI(w)) == Neg(w)
  {
    Extend11Facts(BitRange(w, 31, 20));
  }

  lemma ImmSShape(w: bv32)
    ensures FitsSigned12(ImmS(w)) && Neg(ImmS(w)) == Neg(w)
  {
    ImmSRawShape(w);
    Extend11Facts(ImmSRaw(w));
  }

  /** Branch offsets are even. */
  lemma ImmBShape(w: bv32)
    ensures FitsSigned13(ImmB(w)) && ImmB(w) & 1 == 0 && Neg(ImmB(w)) == Neg(w)
  {
    ImmBRawShape(w);
    Extend12Facts(ImmBRaw(w));
  }

  /** Jump offsets are even. */
  lemma ImmJShape(w: bv32)
    ensures FitsSigned21(ImmJ(w)) && ImmJ(w) & 1 == 0 && Neg(ImmJ(w)) == Neg(w)
  {
    ImmJRawShape(w);
    Extend20Facts(ImmJRaw(w));
  }

  /**
   * Decoding loses nothing: re-encoding what the getters of a decoded instruction return,
   * in the instruction's own format, gives back the instruction word.
   */
  lemma DecodeRoundTrip(w: bv32)
    requires Decode(w).Normal?
    ensures var d := Decode(w).value;
      match d.format
      case R_TYPE => EncodeR(d.funct7, d.rs2, GetRs1(d), GetFunct3(d), GetRd(d), d.opcode) == w
      case I_TYPE => EncodeI(GetImm(d), GetRs1(d), GetFunct3(d), GetRd(d), d.opcode) == w
      case S_TYPE => EncodeS(GetImm(d), d.rs2, GetRs1(d), GetFunct3(d), d.opcode) == w
      case B_TYPE => EncodeB(GetImm(d), d.rs2, GetRs1(d), GetFunct3(d), d.opcode) == w
      case U_TYPE => EncodeU(GetImm(d), GetRd(d), d.opcode) == w
      case J_TYPE => EncodeJ(GetImm(d), GetRd(d), d.opcode) == w
  {
    var d := Decode(w).value;
    match d.format
    case R_TYPE => ReencodeR(w);
    case I_TYPE => ReencodeI(w);
    case S_TYPE => ReencodeS(w);
    case B_TYPE => ReencodeB(w);
    case U_TYPE => ReencodeU(w);
    case J_TYPE => ReencodeJ(w);
  }

  /** `addi x0, x0, 0` decodes to an I-type OP-IMM with all fields zero; 0, all ones and 1 are illegal. */
  lemma DecodeExamples()
    ensures Decode(0x13).Normal?
    ensures var d := Decode(0x13).value;
      d.opcode == OP_IMM && d.format == I_TYPE && GetFunct3(d) == 0 && GetRd(d) == 0 && GetRs1(d) == 0 && GetImm(d) == 0
    ensures Decode(0) == Raise(ILLEGAL_INSTRUCTION)
    ensures Decode(0xFFFF_FFFF) == Raise(ILLEGAL_INSTRUCTION)
    ensures Decode(1) == Raise(ILLEGAL_INSTRUCTION)
  {
    FieldsShape(0x13);
    ImmIClosed(0x13);
  }

  /** Exactly the thirteen opcodes of the table have a format. */
  lemma FormatTable(opcode: bv8)
    ensures FormatOf(opcode).Some? <==> opcode in {LOAD, CUSTOM_0, MISC_MEM, OP_IMM, AUIPC, STORE, AMO, OP, LUI, BRANCH, JALR, JAL, SYSTEM}
  {
  }
}
