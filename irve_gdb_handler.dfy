// IRVE: the GDB stub's packet handler. A received packet is answered on the connection and
// may change the emulator: `G` writes the registers and the pc, `M` writes memory and
// flushes the instruction cache, `s` and `S` tick the emulator once. Everything else only
// reads. The handler's verdict on the connection (keep it, or drop it and wait for the next
// debugger) is part of the response.

module IrveGdbHandler {
  import opened IrveTrap
  import opened IrveMemory
  import opened IrveExecute
  import opened IrveEmulator
  import opened IrveGdb
  import opened IrveHex

  /** What handling one packet does on the connection. */
  datatype Response =
    | Reply(payload: string)     // a packet is sent; the connection stays open
    | Quiet                      // nothing is sent; the connection stays open
    | Disconnect                 // the handler returns false: the connection is dropped
    | Resume(arguments: string)  // `c` or `C`: "OK" is sent and the emulator runs on
    | Escaped(thrown: Thrown)    // something other than a RISC-V exception left the handler

  /** A response together with the emulator it leaves behind. */
  datatype Served = Served(response: Response, after: Emu)

  /** The stop reply: SIGINT, signal 2. */
  const STOP_REPLY: string := "S02"

  /** The error reply to a memory access that raised a RISC-V exception. */
  const ERROR_REPLY: string := "E00"

  /** The emulator's state is usable: a well-formed machine and a correct icache. */
  predicate Settled(e: Emu)
  {
    Ready(e.x) && CacheOk(e.icache)
  }

  /** `handle_recieved_packet`, on the emulator as a value. */
  function Serve(p: Packet, e: Emu): (s: Served)
    requires Settled(e)
    ensures Settled(s.after)
  {
    ServeWith(p, e, TickSpec(e))
  }

  /**
   * `handle_recieved_packet`, given what one tick of `e` does (`Serve` passes `TickSpec(e)`);
   * only `s` and `S` tick.
   */
  function ServeWith(p: Packet, e: Emu, tick: Ticked): (s: Served)
    requires Settled(e) && Settled(tick.after)
    ensures Settled(s.after)
  {
    match p
    case Special(k) => Served(if k == Ack then Quiet else Disconnect, e)
    case Text(t) => if t == [] then Served(Disconnect, e) else Command(t[0], t[1..], e, tick)
  }

  /** The command `c`, with its first character already removed from `args`. */
  function Command(c: char, args: string, e: Emu, tick: Ticked): (s: Served)
    requires Settled(e) && Settled(tick.after)
    ensures Settled(s.after)
    ensures s.response.Reply? || s.response.Resume? || s.response.Escaped?
  {
    if c == '?' then Served(Reply(STOP_REPLY), e)
    else if c == 'g' then Served(Reply(RegistersReply(e.x.regs, e.x.pc)), e)
    else if c == 'G' then Served(Reply("OK"), RegistersWritten(e, args))
    else if c == 'm' then ReadServed(args, e)
    else if c == 'M' then WriteServed(args, e)
    else if c == 'c' || c == 'C' then Served(Resume(args), e)
    else if c == 's' || c == 'S' then TickServed(tick)
    else Served(Reply(""), e)
  }

  /** `G`: the 31 registers and then the pc, from the payload. */
  function RegistersWritten(e: Emu, args: string): (e': Emu)
    requires Settled(e)
    ensures Settled(e')
  {
    e.(x := e.x.(regs := PayloadRegisters(args), pc := PayloadWord(args, 32)))
  }

  /** `m`: the bytes as hex, or "E00" when a load raised a RISC-V exception. */
  function ReadServed(args: string, e: Emu): (s: Served)
    requires Settled(e)
    ensures s.after == e && (s.response.Reply? || s.response.Escaped?)
  {
    Served(ReadReply(MemoryHex(e.x.mem, ReadArgs(args))), e)
  }

  /** The reply to `m`, from the outcome of the loads. */
  function ReadReply(o: Outcome<string>): Response
  {
    match o
    case Normal(h) => Reply(h)
    case Throw(RvException(_, _)) => Reply(ERROR_REPLY)
    case Throw(t) => Escaped(t)
  }

  /** `M`: the stores of the command in the payload. */
  function WriteServed(args: string, e: Emu): (s: Served)
    requires Settled(e)
    ensures Settled(s.after)
    ensures s.response.Reply? || s.response.Escaped?
  {
    StoresServed(MemoryWrite(e.x.mem, WriteArgs(args)), e)
  }

  /**
   * The end of `M`: the stores made before any fault stay made; "OK" or "E00" is sent and the
   * icache is flushed, unless something other than a RISC-V exception escaped the stores.
   */
  function StoresServed(st: Stored, e: Emu): (s: Served)
    requires Settled(e) && WellFormed(st.mem)
    ensures Settled(s.after)
    ensures s.response.Reply? || s.response.Escaped?
  {
    var written := e.(x := e.x.(mem := st.mem));
    match st.result
    case Normal(_) => Served(Reply("OK"), written.(icache := map[]))
    case Throw(RvException(_, _)) => Served(Reply(ERROR_REPLY), written.(icache := map[]))
    case Throw(t) => Served(Escaped(t), written)
  }

  /** `s` and `S`: the tick's result is ignored and the stop reply is sent, unless the tick threw. */
  function TickServed(t: Ticked): (s: Served)
    ensures s.after == t.after && (s.response.Reply? || s.response.Escaped?)
  {
    match t.result
    case Throw(thrown) => Served(Escaped(thrown), t.after)
    case Normal(_) => Served(Reply(STOP_REPLY), t.after)
  }

  // ---------------------------------------------------------------------------------------
  // The handler on the emulator's objects.

  /** `handle_recieved_packet`. */
  method HandlePacket(emu: Emulator, p: Packet) returns (resp: Response)
    requires emu.Valid()
    modifies emu, emu.cpu, emu.cpu.regs, emu.memory, emu.memory.csr, emu.memory.csr.pmpcfg, emu.memory.csr.pmpaddr
    modifies emu.memory.userRam, emu.memory.kernelRam
    ensures emu.Valid() && Served(resp, emu.State()) == Serve(p, old(emu.State()))
  {
    match p
    case Special(k) =>
      resp := if k == Ack then Quiet else Disconnect;
    case Text(t) =>
      if t == [] {
        resp := Disconnect;
      } else {
        resp := HandleCommand(emu, t[0], t[1..]);
      }
  }

  /** The `switch` on the command character. */
  method HandleCommand(emu: Emulator, c: char, args: string) returns (resp: Response)
    requires emu.Valid()
    modifies emu, emu.cpu, emu.cpu.regs, emu.memory, emu.memory.csr, emu.memory.csr.pmpcfg, emu.memory.csr.pmpaddr
    modifies emu.memory.userRam, emu.memory.kernelRam
    ensures emu.Valid()
    ensures Served(resp, emu.State()) == Command(c, args, old(emu.State()), TickSpec(old(emu.State())))
  {
    if c == '?' {
      resp := Reply(STOP_REPLY);
    } else if c == 'g' {
      var h := ReadRegisters(emu.cpu);
      resp := Reply(h);
    } else if c == 'G' {
      HandleWriteRegisters(emu, args);
      resp := Reply("OK");
    } else if c == 'm' {
      var o := ReadMemory(emu.memory, ReadArgs(args));
      resp := ReadReply(o);
    } else if c == 'M' {
      resp := HandleWriteMemory(emu, args);
    } else if c == 'c' || c == 'C' {
      resp := Resume(args);
    } else if c == 's' || c == 'S' {
      resp := HandleStep(emu);
    } else {
      resp := Reply("");
    }
  }

  /** `G` on the CPU state. */
  method HandleWriteRegisters(emu: Emulator, args: string)
    requires emu.Valid()
    modifies emu.cpu, emu.cpu.regs
    ensures emu.Valid() && emu.State() == RegistersWritten(old(emu.State()), args)
  {
    WriteRegisters(emu.cpu, args);
  }

  /** `M` on the memory, then the icache flush. */
  method HandleWriteMemory(emu: Emulator, args: string) returns (resp: Response)
    requires emu.Valid()
    modifies emu, emu.memory, emu.memory.csr, emu.memory.userRam, emu.memory.kernelRam
    ensures emu.Valid()
    ensures Served(resp, emu.State()) == WriteServed(args, old(emu.State()))
  {
    resp := StoreAndFinish(emu, WriteArgs(args));
  }

  /** The stores of a parsed `M` command, then the reply and the flush. */
  method StoreAndFinish(emu: Emulator, w: WriteCommand) returns (resp: Response)
    requires emu.Valid()
    modifies emu, emu.memory, emu.memory.csr, emu.memory.userRam, emu.memory.kernelRam
    ensures emu.Valid()
    ensures Served(resp, emu.State()) == StoresServed(MemoryWrite(old(emu.State()).x.mem, w), old(emu.State()))
  {
    ghost var e0 := emu.State();
    ghost var st := MemoryWrite(e0.x.mem, w);
    var o := WriteMemory(emu.memory, w);
    assert o == st.result && emu.memory.Snapshot() == st.mem;
    assert emu.State() == e0.(x := e0.x.(mem := st.mem));
    resp := FinishWrite(emu, o, e0, st);
  }

  /** The reply to `M` and the flush, once the stores are done. */
  method FinishWrite(emu: Emulator, o: Outcome<()>, ghost e0: Emu, ghost st: Stored) returns (resp: Response)
    requires emu.Valid() && Settled(e0) && WellFormed(st.mem)
    requires o == st.result && emu.State() == e0.(x := e0.x.(mem := st.mem))
    modifies emu
    ensures emu.Valid() && Served(resp, emu.State()) == StoresServed(st, e0)
  {
    match o
    case Normal(_) =>
      emu.FlushIcache();
      resp := Reply("OK");
    case Throw(RvException(_, _)) =>
      emu.FlushIcache();
      resp := Reply(ERROR_REPLY);
    case Throw(t) =>
      resp := Escaped(t);
  }

  /** `s` and `S` on the emulator. */
  method HandleStep(emu: Emulator) returns (resp: Response)
    requires emu.Valid()
    modifies emu, emu.cpu, emu.cpu.regs, emu.memory, emu.memory.csr, emu.memory.csr.pmpcfg, emu.memory.csr.pmpaddr
    modifies emu.memory.userRam, emu.memory.kernelRam
    ensures emu.Valid() && Served(resp, emu.State()) == TickServed(TickSpec(old(emu.State())))
  {
    var r := emu.Tick();
    resp := if r.Throw? then Escaped(r.thrown) else Reply(STOP_REPLY);
  }

  // ---------------------------------------------------------------------------------------
  // What the handler promises, for whatever one tick does.

  /** A text packet is its first character's command, on the rest of the text. */
  lemma Dispatched(c: char, args: string, e: Emu, t: Ticked)
    requires Settled(e) && Settled(t.after)
    ensures ServeWith(Text([c] + args), e, t) == Command(c, args, e, t)
  {
    assert ([c] + args)[0] == c && ([c] + args)[1..] == args;
  }

  /** The connection is dropped exactly on a special packet other than an ACK, or an empty one. */
  lemma DisconnectExactly(p: Packet, e: Emu, t: Ticked)
    requires Settled(e) && Settled(t.after)
    ensures ServeWith(p, e, t).response == Disconnect <==> (p.Special? && p.kind != Ack) || p == Text([])
  {
  }

  /** Only `G`, `M`, `s` and `S` change the emulator; an ACK and every other packet leave it as it was. */
  lemma OnlyWritesChangeState(p: Packet, e: Emu, t: Ticked)
    requires Settled(e) && Settled(t.after)
    requires !(p.Text? && p.payload != [] && p.payload[0] in {'G', 'M', 's', 'S'})
    ensures ServeWith(p, e, t).after == e
  {
  }

  /** A command the stub does not know is answered with an empty packet and changes nothing. */
  lemma UnknownCommand(c: char, args: string, e: Emu, t: Ticked)
    requires Settled(e) && Settled(t.after)
    requires c !in {'?', 'g', 'G', 'm', 'M', 'c', 'C', 's', 'S'}
    ensures ServeWith(Text([c] + args), e, t) == Served(Reply(""), e)
  {
    Dispatched(c, args, e, t);
  }

  /** `m` changes nothing, and a load that raises a RISC-V exception makes the reply "E00". */
  lemma ReadMemoryReply(args: string, e: Emu, t: Ticked)
    requires Settled(e) && Settled(t.after)
    ensures var o := MemoryHex(e.x.mem, ReadArgs(args));
      var s := ServeWith(Text("m" + args), e, t);
      s.after == e &&
      s.response == (if o.Normal? then Reply(o.value) else if o.thrown.RvException? then Reply(ERROR_REPLY) else Escaped(o.thrown))
  {
    Dispatched('m', args, e, t);
    assert "m" + args == ['m'] + args;
  }

  /** `m` on a range whose loads all succeed: two hex digits per byte, each the byte loaded there. */
  lemma HexReplyData(m: MemState, r: Range)
    requires WellFormed(m)
    requires forall k :: 0 <= k < r.length as int ==> ReadByte(m, r, k).Normal?
    ensures MemoryHex(m, r).Normal? && ReadReply(MemoryHex(m, r)) == Reply(MemoryHex(m, r).value)
    ensures |MemoryHex(m, r).value| == 2 * r.length as int
    ensures forall k :: 0 <= k < r.length as int ==>
      MemoryHex(m, r).value[2 * k..2 * k + 2] == ByteHex(ReadByte(m, r, k).value)
  {
    MemoryHexSucceeds(m, r);
    var o := MemoryHex(m, r);
    if r.length as int > 0 {
      MemoryHexBytes(m, r, 0);
      forall k | 0 <= k < r.length as int
        ensures o.value[2 * k..2 * k + 2] == ByteHex(ReadByte(m, r, k).value)
      {
        MemoryHexBytes(m, r, k);
      }
    } else {
      assert Loads(m, r, Count(r)) == [];
    }
  }

  /** `m` on a range whose first failing load raises a RISC-V exception: the reply is "E00". */
  lemma HexReplyError(m: MemState, r: Range, k: int)
    requires WellFormed(m) && 0 <= k < r.length as int && ReadByte(m, r, k).Throw? && ReadByte(m, r, k).thrown.RvException?
    requires forall j :: 0 <= j < k ==> ReadByte(m, r, j).Normal?
    ensures ReadReply(MemoryHex(m, r)) == Reply(ERROR_REPLY)
  {
    MemoryHexSucceeds(m, r);
    var o := MemoryHex(m, r);
    MemoryHexFault(m, r);
    var k' :| 0 <= k' < r.length as int && ReadByte(m, r, k') == Throw(o.thrown) &&
      (forall j :: 0 <= j < k' ==> ReadByte(m, r, j).Normal?);
    assert k' == k;
  }

  /** `G` answers "OK" and sets the registers and the pc from the payload; nothing else changes. */
  lemma WriteRegistersCommand(payload: string, e: Emu, t: Ticked)
    requires Settled(e) && Settled(t.after)
    ensures ServeWith(Text("G" + payload), e, t) == Served(Reply("OK"), RegistersWritten(e, payload))
  {
    Dispatched('G', payload, e, t);
    assert "G" + payload == ['G'] + payload;
  }

  /** `g` answers with the registers and the pc and changes nothing. */
  lemma ReadRegistersCommand(e: Emu, t: Ticked)
    requires Settled(e) && Settled(t.after)
    ensures ServeWith(Text("g"), e, t) == Served(Reply(RegistersReply(e.x.regs, e.x.pc)), e)
  {
    Dispatched('g', [], e, t);
    assert "g" == ['g'] + [];
  }

  /** After `G` with a `g` reply as payload, `g` reads back the same registers and pc. */
  lemma WriteThenReadRegisters(regs: seq<bv32>, pc: bv32, e: Emu, t: Ticked, t': Ticked)
    requires Settled(e) && Settled(t.after) && Settled(t'.after) && |regs| == 31
    ensures var payload := RegistersReply(regs, pc);
      var s := ServeWith(Text("G" + payload), e, t);
      s.response == Reply("OK") && ServeWith(Text("g"), s.after, t').response == Reply(payload)
  {
    var payload := RegistersReply(regs, pc);
    WriteRegistersCommand(payload, e, t);
    var e' := RegistersWritten(e, payload);
    ReadRegistersCommand(e', t');
    RegistersRoundTrip(regs, pc);
  }

  /** `M` flushes the icache whenever it answers, and leaves the registers and the pc alone. */
  lemma WriteMemoryFlushes(args: string, e: Emu, t: Ticked)
    requires Settled(e) && Settled(t.after)
    ensures var st := MemoryWrite(e.x.mem, WriteArgs(args));
      var s := ServeWith(Text("M" + args), e, t);
      s.after.x == e.x.(mem := st.mem) &&
      (s.response.Reply? <==> !st.result.Throw? || st.result.thrown.RvException?) &&
      (s.response.Reply? ==> s.after.icache == map[] && s.response.payload in {"OK", ERROR_REPLY}) &&
      (!s.response.Reply? ==> s.after.icache == e.icache)
  {
    WriteMemoryCommand(args, e, t);
    var st := MemoryWrite(e.x.mem, WriteArgs(args));
    assert WriteServed(args, e) == StoresServed(st, e);
    StoresFlush(st, e);
  }

  /** `M` is the stores of the command its payload spells. */
  lemma WriteMemoryCommand(args: string, e: Emu, t: Ticked)
    requires Settled(e) && Settled(t.after)
    ensures ServeWith(Text("M" + args), e, t) == WriteServed(args, e)
  {
    assert "M" + args == ['M'] + args;
    Dispatched('M', args, e, t);
    WriteCommandServed(args, e, t);
  }

  lemma WriteCommandServed(args: string, e: Emu, t: Ticked)
    requires Settled(e) && Settled(t.after)
    ensures Command('M', args, e, t) == WriteServed(args, e)
  {
  }

  /** `WriteMemoryFlushes`, on the end of `M` after any stores. */
  lemma StoresFlush(st: Stored, e: Emu)
    requires Settled(e) && WellFormed(st.mem)
    ensures var s := StoresServed(st, e);
      s.after.x == e.x.(mem := st.mem) &&
      (s.response.Reply? <==> !st.result.Throw? || st.result.thrown.RvException?) &&
      (s.response.Reply? ==> s.after.icache == map[] && s.response.payload in {"OK", ERROR_REPLY}) &&
      (!s.response.Reply? ==> s.after.icache == e.icache)
  {
  }

  /**
   * `s` is one tick: the emulator after it is the tick's, and the stop reply is sent unless
   * the tick threw, even when the tick asked the emulator to exit.
   */
  lemma StepIsTick(args: string, e: Emu, t: Ticked)
    requires Settled(e) && Settled(t.after)
    ensures var s := ServeWith(Text("s" + args), e, t);
      s.after == t.after && (s.response == Reply(STOP_REPLY) <==> t.result.Normal?)
  {
    Dispatched('s', args, e, t);
    assert "s" + args == ['s'] + args;
  }
}
