// XRVE: the decoder, a table from the 5-bit major opcode (bits 6:2 of a 32-bit
// instruction) to the handler registered for it.

module XrveDecoder {
  import opened Common
  import opened XrveFetch
  import opened XrveI

  /** Bits 6:2 of a 32-bit instruction. */
  function MajorOpcode(w: bv32): (op: nat)
    ensures op < 32
  {
    (((w >> 2) & 0x1F) as bv8) as nat
  }

  class Decoder {
    var handlers: map<nat, Handler>

    constructor ()
      ensures handlers == map[]
    {
      handlers := map[];
    }

    /** The handler for a raw instruction: only 32-bit instructions are routed, by their major opcode. */
    function Lookup(raw: RawInstruction): (h: Option<Handler>)
      reads this
      ensures h.Some? ==> raw.Regular? && MajorOpcode(raw.word) in handlers && h.value == handlers[MajorOpcode(raw.word)]
      ensures raw.Regular? && MajorOpcode(raw.word) in handlers ==> h.Some?
    {
      match raw
      case Regular(w) => if MajorOpcode(w) in handlers then Some(handlers[MajorOpcode(w)]) else None
      case _ => None
    }

    method Decode(raw: RawInstruction) returns (h: Option<Handler>)
      ensures h == Lookup(raw)
    {
      h := Lookup(raw);
    }

    /** Installs `h` for the opcode it declares and hands back the handler it displaces, if any. */
    method RegisterHandler(h: Handler) returns (displaced: Option<Handler>)
      modifies this
      ensures handlers == old(handlers)[MajorOpcodeHandled(h) := h]
      ensures displaced == if MajorOpcodeHandled(h) in old(handlers) then Some(old(handlers)[MajorOpcodeHandled(h)]) else None
    {
      var op := MajorOpcodeHandled(h);
      displaced := if op in handlers then Some(handlers[op]) else None;
      handlers := handlers[op := h];
    }
  }

  /** After registering `h`, every 32-bit instruction with `h`'s major opcode decodes to `h`; other opcodes are unaffected. */
  lemma RegisteredHandlerDecodes(before: map<nat, Handler>, after: map<nat, Handler>, h: Handler, w: bv32)
    requires after == before[MajorOpcodeHandled(h) := h]
    ensures MajorOpcode(w) == MajorOpcodeHandled(h) ==> MajorOpcode(w) in after && after[MajorOpcode(w)] == h
    ensures MajorOpcode(w) != MajorOpcodeHandled(h) ==>
      (MajorOpcode(w) in after <==> MajorOpcode(w) in before) &&
      (MajorOpcode(w) in before ==> after[MajorOpcode(w)] == before[MajorOpcode(w)])
  {
  }

  /** The OP and OP-IMM opcodes from the standard encoding: `0110011` is OP and `0010011` is OP-IMM. */
  lemma StandardOpcodes()
    ensures MajorOpcode(0x0000_0033) == MajorOpcodeHandled(OpHandler)
    ensures MajorOpcode(0x0000_0013) == MajorOpcodeHandled(OpImmHandler)
  {
  }
}
