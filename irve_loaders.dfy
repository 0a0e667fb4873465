// IRVE: the memory-image loaders `load_raw_bin`, `load_verilog8` and `load_verilog32`. Each
// writes into physical memory with `write_memory` and stops at the first write that fails.
// The file is given as its bytes or as the tokens `fin >> token` reads from it.

module IrveLoaders {
  import opened Common
  import opened IrveHex
  import opened IrveWord
  import opened IrveMemory

  /**
   * `image_load_status_t`, with two more ways a load ends: `LoadAborted` when the source fails
   * an assertion or lets a `stoul` exception escape, and `LoadUnspecified` when it reads past
   * the end of the file and goes on with bytes the model does not know.
   */
  datatype LoadStatus = LoadOkay | LoadFail | LoadAborted | LoadUnspecified

  /** The memory after a load and how the load ended. */
  datatype Image = Image(mem: MemState, status: LoadStatus)

  /** A failed assertion inside `write_memory` aborts; any other failed write is `IL_FAIL`. */
  function WriteFailure(s: Status): (r: LoadStatus)
    requires s != Okay
    ensures r == LoadAborted <==> s == Aborted
    ensures r != LoadOkay && r != LoadUnspecified
  {
    if s == Aborted then LoadAborted else LoadFail
  }

  /** The `(uint32_t)` cast of a parsed value. */
  function Truncated(v: nat): bv32 { (v % TWO32) as bv32 }

  /**
   * The byte a `DT_BYTE` write of the value stores. `write_memory` keeps only the low byte of
   * the word it is given, so passing this byte stands for passing the whole truncated word.
   */
  function LowByte(v: nat): bv8 { (v % 256) as bv8 }

  // Every loader is a list of `write_memory` calls that stops at the first failure, followed by
  // an outcome of its own when all of them succeed. The loaders are stated that way: a plan
  // computed from the file alone, carried out on memory.

  /** One `write_memory` call. */
  datatype Write = Write(addr: nat, dt: bv8, data: bv32)

  /** The writes carried out in order, stopping at the first that fails. */
  function ApplyWrites(m: MemState, ws: seq<Write>): (r: Image)
    requires WellFormed(m)
    ensures WellFormed(r.mem)
    ensures ws == [] ==> r == Image(m, LoadOkay)
    decreases |ws|
  {
    if ws == [] then Image(m, LoadOkay)
    else
      var w := WritePhysical(m, ws[0].addr, ws[0].dt, ws[0].data);
      if w.status != Okay then Image(w.mem, WriteFailure(w.status)) else ApplyWrites(w.mem, ws[1..])
  }

  /** The writes a load asks for, and how it ends when all of them succeed. */
  datatype Plan = Plan(writes: seq<Write>, end: LoadStatus)

  /** A plan carried out: its writes, then its end unless a write failed first. */
  function Carry(m: MemState, p: Plan): (r: Image)
    requires WellFormed(m)
    ensures WellFormed(r.mem)
    ensures p.writes == [] ==> r == Image(m, p.end)
  {
    var r := ApplyWrites(m, p.writes);
    if r.status == LoadOkay then Image(r.mem, p.end) else r
  }

  lemma ApplyFirst(m: MemState, x: Write, ws: seq<Write>)
    requires WellFormed(m)
    ensures var w := WritePhysical(m, x.addr, x.dt, x.data);
      ApplyWrites(m, [x] + ws) == if w.status != Okay then Image(w.mem, WriteFailure(w.status)) else ApplyWrites(w.mem, ws)
  {
    assert ([x] + ws)[0] == x && ([x] + ws)[1..] == ws;
  }

  /** A plan that starts with a write: that write first, then the rest of the plan. */
  lemma CarryFirst(m: MemState, x: Write, p: Plan)
    requires WellFormed(m)
    ensures var w := WritePhysical(m, x.addr, x.dt, x.data);
      Carry(m, Plan([x] + p.writes, p.end)) == if w.status != Okay then Image(w.mem, WriteFailure(w.status)) else Carry(w.mem, p)
  {
    ApplyFirst(m, x, p.writes);
  }

  // load_raw_bin

  /** The writes of the raw-binary load from byte `i` on: byte `k` to `start + k`, a 64-bit sum. */
  function RawBinWrites(data: seq<bv8>, start: nat, i: nat): (ws: seq<Write>)
    requires i <= |data|
    ensures |ws| == |data| - i
    decreases |data| - i
  {
    if i == |data| then [] else [Write((start + i) % TWO64, DT_BYTE, data[i] as bv32)] + RawBinWrites(data, start, i + 1)
  }

  function RawBin(m: MemState, data: seq<bv8>, start: nat): (r: Image)
    requires WellFormed(m)
    ensures WellFormed(r.mem)
  {
    ApplyWrites(m, RawBinWrites(data, start, 0))
  }

  /** `Memory::load_raw_bin` on a file whose bytes are `data`. */
  method LoadRawBin(mem: Memory, data: seq<bv8>, start: nat) returns (status: LoadStatus)
    requires mem.Valid()
    modifies mem, mem.csr, mem.userRam, mem.kernelRam
    ensures mem.Valid()
    ensures Image(mem.Snapshot(), status) == RawBin(old(mem.Snapshot()), data, start)
  {
    var i := 0;
    while i < |data|
      invariant 0 <= i <= |data| && mem.Valid()
      invariant ApplyWrites(mem.Snapshot(), RawBinWrites(data, start, i)) == RawBin(old(mem.Snapshot()), data, start)
    {
      var x := Write((start + i) % TWO64, DT_BYTE, data[i] as bv32);
      ApplyFirst(mem.Snapshot(), x, RawBinWrites(data, start, i + 1));
      var s := mem.WriteMemory(x.addr, x.dt, x.data);
      if s != Okay {
        return WriteFailure(s);
      }
      i := i + 1;
    }
    return LoadOkay;
  }

  // load_verilog8 and load_verilog32

  /** Whitespace-separated tokens are never empty. */
  predicate Tokens(ts: seq<string>) { forall k :: 0 <= k < |ts| ==> |ts[k]| > 0 }

  /** A token once read: its length and what `stoul` makes of it (after the `@` of an address). */
  datatype Token = AtToken(length: nat, value: Option<nat>) | DataToken(length: nat, value: Option<nat>)

  function Lexeme(t: string): (k: Token)
    requires |t| > 0
    ensures k.AtToken? <==> t[0] == '@'
    ensures k.length == |t|
  {
    if t[0] == '@' then AtToken(|t|, Stoul(t[1..])) else DataToken(|t|, Stoul(t))
  }

  function Lex(tokens: seq<string>): (ks: seq<Token>)
    requires Tokens(tokens)
    ensures |ks| == |tokens|
  {
    if tokens == [] then [] else [Lexeme(tokens[0])] + Lex(tokens[1..])
  }

  lemma LexFirst(tokens: seq<string>, i: nat)
    requires Tokens(tokens) && i < |tokens|
    ensures Tokens(tokens[i..]) && Tokens(tokens[i + 1..])
    ensures Lex(tokens[i..])[0] == Lexeme(tokens[i]) && Lex(tokens[i..])[1..] == Lex(tokens[i + 1..])
  {
    assert tokens[i..][0] == tokens[i] && tokens[i..][1..] == tokens[i + 1..];
  }

  /**
   * The 8-bit Verilog load from the read tokens `ks` on, with `addr` the current byte address:
   * an `@` token must carry 8 digits (the source asserts it) and sets the address; any other
   * token must have exactly 2 characters and is one byte, written at the address, which then
   * advances by one. The plan ends at the first malformed token.
   */
  function Vhex8Plan(ks: seq<Token>, addr: nat): (p: Plan)
    decreases |ks|
  {
    if ks == [] then Plan([], LoadOkay)
    else match ks[0]
      case AtToken(n, a) =>
        if n != 9 || a.None? then Plan([], LoadAborted) else Vhex8Plan(ks[1..], a.value)
      case DataToken(n, v) =>
        if n != 2 then Plan([], LoadFail)
        else if v.None? then Plan([], LoadAborted)
        else
          var p := Vhex8Plan(ks[1..], (addr + 1) % TWO64);
          Plan([Write(addr, DT_BYTE, LowByte(v.value) as bv32)] + p.writes, p.end)
  }

  function Vhex8(m: MemState, tokens: seq<string>): (r: Image)
    requires WellFormed(m) && Tokens(tokens)
    ensures WellFormed(r.mem)
  {
    Carry(m, Vhex8Plan(Lex(tokens), 0))
  }

  /**
   * The 32-bit Verilog load: an `@` token sets a word address, so the byte address is four
   * times its value; any other token is a word of any length (short ones only draw a
   * warning), truncated to 32 bits, written at the address, which then advances by four.
   */
  function Vhex32Plan(ks: seq<Token>, addr: nat): (p: Plan)
    decreases |ks|
  {
    if ks == [] then Plan([], LoadOkay)
    else match ks[0]
      case AtToken(n, a) =>
        if n != 9 || a.None? then Plan([], LoadAborted) else Vhex32Plan(ks[1..], a.value * 4 % TWO64)
      case DataToken(_, v) =>
        if v.None? then Plan([], LoadAborted)
        else
          var p := Vhex32Plan(ks[1..], (addr + 4) % TWO64);
          Plan([Write(addr, DT_WORD, Truncated(v.value))] + p.writes, p.end)
  }

  function Vhex32(m: MemState, tokens: seq<string>): (r: Image)
    requires WellFormed(m) && Tokens(tokens)
    ensures WellFormed(r.mem)
  {
    Carry(m, Vhex32Plan(Lex(tokens), 0))
  }

  /** `Memory::load_verilog8` on a file that splits into `tokens`. */
  method LoadVerilog8(mem: Memory, tokens: seq<string>) returns (status: LoadStatus)
    requires mem.Valid() && Tokens(tokens)
    modifies mem, mem.csr, mem.userRam, mem.kernelRam
    ensures mem.Valid()
    ensures Image(mem.Snapshot(), status) == Vhex8(old(mem.Snapshot()), tokens)
  {
    var addr: nat := 0;
    var i := 0;
    while i < |tokens|
      invariant 0 <= i <= |tokens| && mem.Valid()
      invariant Carry(mem.Snapshot(), Vhex8Plan(Lex(tokens[i..]), addr)) == Vhex8(old(mem.Snapshot()), tokens)
    {
      var t := tokens[i];
      LexFirst(tokens, i);
      if t[0] == '@' {
        if |t| != 9 {
          return LoadAborted;
        }
        var a := Stoul(t[1..]);
        if a.None? {
          return LoadAborted;
        }
        addr := a.value;
      } else {
        if |t| != 2 {
          return LoadFail;
        }
        var v := Stoul(t);
        if v.None? {
          return LoadAborted;
        }
        var x := Write(addr, DT_BYTE, LowByte(v.value) as bv32);
        CarryFirst(mem.Snapshot(), x, Vhex8Plan(Lex(tokens[i + 1..]), (addr + 1) % TWO64));
        var s := mem.WriteMemory(x.addr, x.dt, x.data);
        if s != Okay {
          return WriteFailure(s);
        }
        addr := (addr + 1) % TWO64;
      }
      i := i + 1;
    }
    return LoadOkay;
  }

  /** `Memory::load_verilog32` on a file that splits into `tokens`. */
  method LoadVerilog32(mem: Memory, tokens: seq<string>) returns (status: LoadStatus)
    requires mem.Valid() && Tokens(tokens)
    modifies mem, mem.csr, mem.userRam, mem.kernelRam
    ensures mem.Valid()
    ensures Image(mem.Snapshot(), status) == Vhex32(old(mem.Snapshot()), tokens)
  {
    var addr: nat := 0;
    var i := 0;
    while i < |tokens|
      invariant 0 <= i <= |tokens| && mem.Valid()
      invariant Carry(mem.Snapshot(), Vhex32Plan(Lex(tokens[i..]), addr)) == Vhex32(old(mem.Snapshot()), tokens)
    {
      var t := tokens[i];
      LexFirst(tokens, i);
      if t[0] == '@' {
        if |t| != 9 {
          return LoadAborted;
        }
        var a := Stoul(t[1..]);
        if a.None? {
          return LoadAborted;
        }
        addr := a.value * 4 % TWO64;
      } else {
        var v := Stoul(t);
        if v.None? {
          return LoadAborted;
        }
        var x := Write(addr, DT_WORD, Truncated(v.value));
        CarryFirst(mem.Snapshot(), x, Vhex32Plan(Lex(tokens[i + 1..]), (addr + 4) % TWO64));
        var s := mem.WriteMemory(x.addr, x.dt, x.data);
        if s != Okay {
          return WriteFailure(s);
        }
        addr := (addr + 4) % TWO64;
      }
      i := i + 1;
    }
    return LoadOkay;
  }
}
