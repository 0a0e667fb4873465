// XRVE: the instance that owns the emulator's components. While idle it holds them
// itself; while an emulation thread runs, the thread owns them and the instance holds
// nothing but the thread handle. Only this ownership hand-off is modelled: the thread
// body is not.

module XrveInstance {
  import opened Common
  import opened XrveHandler
  import opened XrveRam
  import opened XrvePmmap
  import opened XrveState
  import opened Registers
  import opened XrveFetch
  import opened XrveI
  import opened XrveDecoder

  /** The host I/O object; it carries no state this model looks at. */
  datatype Io = Io

  /** What the emulation thread hands back when it is joined. */
  datatype Parked = Parked(state: State, pmmap: PhysicalMemoryMap, decoder: Decoder, io: Io, logger: bool)

  /** `Panic` stands for the thread panicking: a missing handler or an invalid instruction. */
  datatype TickOutcome = Retired | Panic

  /**
   * `tick`: fetch, decode, unwrap (a missing handler is a panic), handle, retire.
   * A completed tick writes at most rd and raises the retired count by exactly one;
   * a panicking one leaves the state as it was.
   */
  method Tick(state: State, m: PhysicalMemoryMap, decoder: Decoder) returns (o: TickOutcome)
    requires state.Valid() && m.Valid() && FetchBacked(state.pc, m)
    requires state.instsRetired + 1 < U64_LIMIT
    modifies state, state.registers
    ensures state.Valid()
    ensures var raw := old(RawAt(state.pc, m));
      var res := TickResult(raw, decoder, old(state.registers[..]));
      (o == Retired <==> res.Some?) &&
      (res.None? ==> state.registers[..] == old(state.registers[..]) && state.instsRetired == old(state.instsRetired)) &&
      (res.Some? ==>
        state.registers[..] == Written(old(state.registers[..]), Rd(raw.word), res.value) &&
        state.instsRetired == old(state.instsRetired) + 1)
  {
    var raw := FetchRaw(state, m);
    o := DecodeAndExecute(state, raw, decoder);
  }

  /** The part of `tick` after the fetch: decode, unwrap, handle, retire. */
  method DecodeAndExecute(state: State, raw: RawInstruction, decoder: Decoder) returns (o: TickOutcome)
    requires state.Valid()
    requires state.instsRetired + 1 < U64_LIMIT
    modifies state, state.registers
    ensures state.Valid()
    ensures var res := TickResult(raw, decoder, old(state.registers[..]));
      (o == Retired <==> res.Some?) &&
      (res.None? ==> state.registers[..] == old(state.registers[..]) && state.instsRetired == old(state.instsRetired)) &&
      (res.Some? ==>
        state.registers[..] == Written(old(state.registers[..]), Rd(raw.word), res.value) &&
        state.instsRetired == old(state.instsRetired) + 1)
  {
    var h := decoder.Decode(raw);
    if h.None? {
      return Panic;
    }
    var handled := Handle(h.value, state, raw.word);
    if handled == Panicked {
      return Panic;
    }
    state.RetireInst();
    o := Retired;
  }

  /** The value a tick writes to rd: `None` when the decoder has no handler or the handler panics. */
  ghost function TickResult(raw: RawInstruction, decoder: Decoder, regs: seq<bv32>): (r: Option<bv32>)
    requires |regs| == 31
    reads decoder
    ensures r.Some? ==> raw.Regular?
  {
    match decoder.Lookup(raw)
    case None => None
    case Some(h) => HandlerResult(h, raw.word, regs)
  }

  class Instance {
    var state: Option<State>
    var pmmap: Option<PhysicalMemoryMap>
    var decoder: Option<Decoder>
    var io: Option<Io>
    /** Whether a logger is installed. */
    var logger: bool
    var thread: Option<Parked>
    var stopRequested: bool

    /** The instance owns every component and no thread runs. */
    ghost predicate Idle()
      reads this
    {
      thread.None? && state.Some? && pmmap.Some? && decoder.Some? && io.Some?
    }

    /** A thread owns every component (and the logger); the instance holds none of them. */
    ghost predicate Running()
      reads this
    {
      thread.Some? && state.None? && pmmap.None? && decoder.None? && io.None? && !logger
    }

    /** The components of an idle instance are well formed. */
    ghost predicate Ready()
      reads this, if state.Some? then {state.value} else {}, if pmmap.Some? then {pmmap.value} else {}
    {
      Idle() && state.value.Valid() && pmmap.value.Valid()
    }

    constructor ()
      ensures Ready() && fresh(state.value) && fresh(pmmap.value) && fresh(decoder.value)
      ensures state.value.pc == 0 && state.value.instsRetired == 0
      ensures pmmap.value.handlers == [] && decoder.value.handlers == map[]
      ensures !logger && !stopRequested
    {
      var s := new State();
      var m := new PhysicalMemoryMap();
      var d := new Decoder();
      state := Some(s);
      pmmap := Some(m);
      decoder := Some(d);
      io := Some(Io);
      logger := false;
      thread := None;
      stopRequested := false;
    }

    /**
     * One tick on the instance's own components. The pc is a constant and the memory map is
     * not written, so the registers and the retired count are all that can change: rd takes
     * the handler's result and the count goes up by one, or, on a panic, nothing changes.
     */
    method SingleStep() returns (o: TickOutcome)
      requires Ready() && FetchBacked(state.value.pc, pmmap.value)
      requires state.value.instsRetired + 1 < U64_LIMIT
      modifies state.value, state.value.registers
      ensures Ready()
      ensures var s := state.value; var m := pmmap.value;
        var raw := Classify(s.pc, m.HalfwordAt(s.pc, Read), SecondAt(s.pc, m));
        var h := decoder.value.Lookup(raw);
        var res := if h.Some? then HandlerResult(h.value, raw.word, old(s.registers[..])) else None;
        (o == Retired <==> res.Some?) &&
        s.registers[..] == (if res.Some? then Written(old(s.registers[..]), Rd(raw.word), res.value) else old(s.registers[..])) &&
        s.instsRetired == old(s.instsRetired) + (if res.Some? then 1 else 0)
    {
      o := Tick(state.value, pmmap.value, decoder.value);
    }

    /** Hands every component to a new thread and clears the stop request. */
    method RunInThread()
      requires Idle()
      modifies this
      ensures Running() && !stopRequested
      ensures thread == Some(Parked(old(state.value), old(pmmap.value), old(decoder.value), old(io.value), old(logger)))
    {
      stopRequested := false;
      thread := Some(Parked(state.value, pmmap.value, decoder.value, io.value, logger));
      state := None;
      pmmap := None;
      decoder := None;
      io := None;
      logger := false;
    }

    /** Requests a stop, joins the thread and takes back everything it held. */
    method StopThread()
      requires Running()
      modifies this
      ensures Idle() && stopRequested && thread == None
      ensures var p := old(thread.value);
        state == Some(p.state) && pmmap == Some(p.pmmap) && decoder == Some(p.decoder) && io == Some(p.io) && logger == p.logger
    {
      stopRequested := true;
      var p := thread.value;
      thread := None;
      state := Some(p.state);
      pmmap := Some(p.pmmap);
      decoder := Some(p.decoder);
      logger := p.logger;
      io := Some(p.io);
    }

    /** Installs the logger; only once, and not while a thread runs. */
    method GetLogReceiver()
      requires !logger && thread.None?
      modifies this
      ensures logger
      ensures state == old(state) && pmmap == old(pmmap) && decoder == old(decoder) && io == old(io) && thread == old(thread)
    {
      logger := true;
    }

    method RegisterInstructionHandler(h: Handler) returns (displaced: Option<Handler>)
      requires Idle()
      modifies decoder.value
      ensures decoder.value.handlers == old(decoder.value.handlers)[MajorOpcodeHandled(h) := h]
      ensures displaced == if MajorOpcodeHandled(h) in old(decoder.value.handlers)
        then Some(old(decoder.value.handlers)[MajorOpcodeHandled(h)]) else None
    {
      displaced := decoder.value.RegisterHandler(h);
    }

    method RegisterMemoryHandler(h: Ram)
      requires Ready() && h.Valid() && h.backing !in pmmap.value.Backings()
      modifies pmmap.value
      ensures Ready() && pmmap.value.handlers == old(pmmap.value.handlers) + [h]
    {
      pmmap.value.RegisterHandler(h);
    }

    // The memory accessors pass the map's answer back unchanged.

    method ReadByteFromMemory(addr: u32) returns (r: Result<bv8>)
      requires Ready() && pmmap.value.Backed(addr, Read, Byte)
      ensures var k := SearchResult(pmmap.value.handlers, addr, Read, Byte);
        r == if k.Err? then Err else Ok(pmmap.value.ByteAt(k.value, addr))
    {
      r := pmmap.value.ReadByte(addr);
    }

    method WriteByteToMemory(addr: u32, data: bv8) returns (r: Result<()>)
      requires Ready() && pmmap.value.Backed(addr, Write, Byte)
      modifies pmmap.value.Backings()
      ensures Ready() && pmmap.value.WroteOnly(addr, Byte, [data], r)
    {
      r := pmmap.value.WriteByte(addr, data);
    }

    method ReadHalfwordFromMemory(addr: u32) returns (r: Result<bv16>)
      requires Ready() && pmmap.value.Backed(addr, Read, Halfword)
      ensures r == pmmap.value.HalfwordAt(addr, Read)
    {
      r := pmmap.value.ReadHalfword(addr);
    }

    method WriteHalfwordToMemory(addr: u32, data: bv16) returns (r: Result<()>)
      requires Ready() && pmmap.value.Backed(addr, Write, Halfword)
      modifies pmmap.value.Backings()
      ensures Ready() && pmmap.value.WroteOnly(addr, Halfword, HalfwordBytes(data), r)
    {
      r := pmmap.value.WriteHalfword(addr, data);
    }

    method ReadWordFromMemory(addr: u32) returns (r: Result<bv32>)
      requires Ready() && pmmap.value.Backed(addr, Read, Word)
      ensures var k := SearchResult(pmmap.value.handlers, addr, Read, Word);
        r == if k.Err? then Err else
          Ok(Le32(pmmap.value.ByteAt(k.value, addr), pmmap.value.ByteAt(k.value, addr + 1),
                  pmmap.value.ByteAt(k.value, addr + 2), pmmap.value.ByteAt(k.value, addr + 3)))
    {
      r := pmmap.value.ReadWord(addr);
    }

    method WriteWordToMemory(addr: u32, data: bv32) returns (r: Result<()>)
      requires Ready() && pmmap.value.Backed(addr, Write, Word)
      modifies pmmap.value.Backings()
      ensures Ready() && pmmap.value.WroteOnly(addr, Word, WordBytes(data), r)
    {
      r := pmmap.value.WriteWord(addr, data);
    }
  }
}
