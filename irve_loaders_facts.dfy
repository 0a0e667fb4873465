// IRVE: what the memory-image loaders promise. A raw binary's writes put byte `i` of the file
// at `start + i`; the Verilog text of a list of blocks, as `objcopy` writes it, plans exactly
// the writes of those blocks; a malformed token ends the plan before any write of its own.
// Writes that land in RAM splice the bytes into it.

module IrveLoadersFacts {
  import opened Common
  import opened IrveHex
  import opened IrveWord
  import opened IrveMemory
  import opened IrveMemoryFacts
  import opened IrveLoaders
  import XrveRam

  // Writing into RAM.

  lemma SpliceAfter(s: seq<bv8>, i: nat, b: bv8, rest: seq<bv8>)
    requires i + 1 + |rest| <= |s|
    ensures XrveRam.Splice(XrveRam.Splice(s, i, [b]), i + 1, rest) == XrveRam.Splice(s, i, [b] + rest)
  {
    var l := XrveRam.Splice(XrveRam.Splice(s, i, [b]), i + 1, rest);
    var r := XrveRam.Splice(s, i, [b] + rest);
    assert forall k :: 0 <= k < |s| ==> l[k] == r[k];
  }

  lemma SpliceWordAfter(s: seq<bv8>, i: nat, w: seq<bv8>, rest: seq<bv8>)
    requires |w| == 4 && i + 4 + |rest| <= |s|
    ensures XrveRam.Splice(XrveRam.Splice(s, i, w), i + 4, rest) == XrveRam.Splice(s, i, w + rest)
  {
    var l := XrveRam.Splice(XrveRam.Splice(s, i, w), i + 4, rest);
    var r := XrveRam.Splice(s, i, w + rest);
    assert forall k :: 0 <= k < |s| ==> l[k] == r[k];
  }

  lemma SpliceNothing(s: seq<bv8>, i: nat)
    requires i <= |s|
    ensures XrveRam.Splice(s, i, []) == s
  {
  }

  /** A byte written into a RAM lands at its index and the write succeeds. */
  lemma ByteIntoRam(ram: seq<bv8>, start: int, addr: int, b: bv8)
    requires |ram| == RAM_SIZE && start % 4 == 0 && start <= addr < start + RAM_SIZE
    ensures RamWrite(ram, start, addr, DT_BYTE, b as bv32) == (XrveRam.Splice(ram, addr - start, [b]), Okay)
  {
    ByteOfWord(b);
    assert StoredBytes(DT_BYTE, b as bv32) == [b];
    assert !MisalignedFor(addr, DT_BYTE);
    assert [b][..1] == [b];
  }

  /** A word written into a RAM at an aligned address lands as its four little-endian bytes. */
  lemma WordIntoRam(ram: seq<bv8>, start: int, addr: int, d: bv32)
    requires |ram| == RAM_SIZE && start % 4 == 0 && start <= addr && addr + 4 <= start + RAM_SIZE && addr % 4 == 0
    ensures RamWrite(ram, start, addr, DT_WORD, d) == (XrveRam.Splice(ram, addr - start, XrveRam.WordBytes(d)), Okay)
  {
    assert StoredBytes(DT_WORD, d) == XrveRam.WordBytes(d);
  }

  // Writes into RAM.

  /** Byte writes of `bytes` from `addr` on. */
  function ByteWrites(addr: nat, bytes: seq<bv8>): (ws: seq<Write>)
    ensures |ws| == |bytes|
    decreases |bytes|
  {
    if bytes == [] then [] else [Write(addr, DT_BYTE, bytes[0] as bv32)] + ByteWrites(addr + 1, bytes[1..])
  }

  /** Bytes written from `addr` into the user RAM: all land in order and the load succeeds. */
  lemma {:induction false} BytesIntoUserRam(m: MemState, addr: nat, bytes: seq<bv8>)
    requires WellFormed(m) && addr + |bytes| <= RAM_SIZE
    ensures ApplyWrites(m, ByteWrites(addr, bytes)) == Image(m.(user := XrveRam.Splice(m.user, addr, bytes)), LoadOkay)
    decreases |bytes|
  {
    if bytes == [] {
      SpliceNothing(m.user, addr);
    } else {
      ApplyFirst(m, Write(addr, DT_BYTE, bytes[0] as bv32), ByteWrites(addr + 1, bytes[1..]));
      RamRouting(m, addr, DT_BYTE, bytes[0] as bv32);
      ByteIntoRam(m.user, USER_RAM_START, addr, bytes[0]);
      var m1 := m.(user := XrveRam.Splice(m.user, addr, [bytes[0]]));
      BytesIntoUserRam(m1, addr + 1, bytes[1..]);
      SpliceAfter(m.user, addr, bytes[0], bytes[1..]);
      assert [bytes[0]] + bytes[1..] == bytes;
    }
  }

  /** Bytes written from `addr` into the kernel RAM: all land in order and the load succeeds. */
  lemma {:induction false} BytesIntoKernelRam(m: MemState, addr: nat, bytes: seq<bv8>)
    requires WellFormed(m) && KERNEL_RAM_START <= addr && addr + |bytes| <= KERNEL_RAM_START + RAM_SIZE
    ensures ApplyWrites(m, ByteWrites(addr, bytes)) ==
      Image(m.(kernel := XrveRam.Splice(m.kernel, addr - KERNEL_RAM_START, bytes)), LoadOkay)
    decreases |bytes|
  {
    if bytes == [] {
      SpliceNothing(m.kernel, addr - KERNEL_RAM_START);
    } else {
      ApplyFirst(m, Write(addr, DT_BYTE, bytes[0] as bv32), ByteWrites(addr + 1, bytes[1..]));
      RamRouting(m, addr, DT_BYTE, bytes[0] as bv32);
      ByteIntoRam(m.kernel, KERNEL_RAM_START, addr, bytes[0]);
      var m1 := m.(kernel := XrveRam.Splice(m.kernel, addr - KERNEL_RAM_START, [bytes[0]]));
      BytesIntoKernelRam(m1, addr + 1, bytes[1..]);
      SpliceAfter(m.kernel, addr - KERNEL_RAM_START, bytes[0], bytes[1..]);
      assert [bytes[0]] + bytes[1..] == bytes;
    }
  }

  /** A first write to an address no device claims fails the load and changes nothing. */
  lemma UnmappedFirstWrite(m: MemState, x: Write, ws: seq<Write>)
    requires WellFormed(m) && Unmapped(x.addr) && x.addr != DEBUG_ADDR
    ensures ApplyWrites(m, [x] + ws) == Image(m, LoadFail)
  {
    ApplyFirst(m, x, ws);
    UnmappedAccesses(m, x.addr, x.dt, x.data);
  }

  /** A first write to an address of 34 bits or more fails an assertion: the load aborts with memory unchanged. */
  lemma WideFirstWrite(m: MemState, x: Write, ws: seq<Write>)
    requires WellFormed(m) && PHYSICAL_LIMIT <= x.addr
    ensures ApplyWrites(m, [x] + ws) == Image(m, LoadAborted)
  {
    ApplyFirst(m, x, ws);
    WideAddressAborts(m, x.addr, x.dt, x.data);
  }

  // load_raw_bin

  lemma {:induction false} RawBinWritesInOrder(data: seq<bv8>, start: nat, i: nat)
    requires i <= |data| && start + |data| <= TWO64
    ensures RawBinWrites(data, start, i) == ByteWrites(start + i, data[i..])
    decreases |data| - i
  {
    if i < |data| {
      assert (start + i) % TWO64 == start + i;
      assert data[i..][0] == data[i] && data[i..][1..] == data[i + 1..];
      RawBinWritesInOrder(data, start, i + 1);
    }
  }

  /** The raw-binary load writes byte `i` of the file to `start + i`, in file order, and nothing else. */
  lemma RawBinPlan(m: MemState, data: seq<bv8>, start: nat)
    requires WellFormed(m) && start + |data| <= TWO64
    ensures RawBin(m, data, start) == ApplyWrites(m, ByteWrites(start, data))
  {
    RawBinWritesInOrder(data, start, 0);
    assert data[0..] == data;
  }

  /** A raw binary that fits the kernel RAM is copied into it verbatim, and the load succeeds. */
  lemma RawBinIntoKernelRam(m: MemState, data: seq<bv8>, start: nat)
    requires WellFormed(m) && KERNEL_RAM_START <= start && start + |data| <= KERNEL_RAM_START + RAM_SIZE
    ensures RawBin(m, data, start) ==
      Image(m.(kernel := XrveRam.Splice(m.kernel, start - KERNEL_RAM_START, data)), LoadOkay)
  {
    RawBinPlan(m, data, start);
    BytesIntoKernelRam(m, start, data);
  }

  /** A non-empty raw binary placed where no device answers fails the load, and memory is unchanged. */
  lemma RawBinUnmapped(m: MemState, data: seq<bv8>, start: nat)
    requires WellFormed(m) && data != [] && start < TWO64 && Unmapped(start) && start != DEBUG_ADDR
    ensures RawBin(m, data, start) == Image(m, LoadFail)
  {
    assert (start + 0) % TWO64 == start;
    assert RawBinWrites(data, start, 0) == [Write(start, DT_BYTE, data[0] as bv32)] + RawBinWrites(data, start, 1);
    UnmappedFirstWrite(m, Write(start, DT_BYTE, data[0] as bv32), RawBinWrites(data, start, 1));
  }

  /** A non-empty raw binary whose start address is 34 bits or wider aborts the load, and memory is unchanged. */
  lemma RawBinWide(m: MemState, data: seq<bv8>, start: nat)
    requires WellFormed(m) && data != [] && PHYSICAL_LIMIT <= start < TWO64
    ensures RawBin(m, data, start) == Image(m, LoadAborted)
  {
    assert (start + 0) % TWO64 == start;
    assert RawBinWrites(data, start, 0) == [Write(start, DT_BYTE, data[0] as bv32)] + RawBinWrites(data, start, 1);
    WideFirstWrite(m, Write(start, DT_BYTE, data[0] as bv32), RawBinWrites(data, start, 1));
  }

  // load_verilog8 and load_verilog32

  lemma ConsAppend<T>(x: T, a: seq<T>, b: seq<T>)
    ensures ([x] + a) + b == [x] + (a + b)
  {
  }

  /** A sum below 2^64 does not wrap. */
  lemma NoWrap(x: nat)
    requires x < TWO64
    ensures x % TWO64 == x
  {
  }

  lemma {:induction false} LexAppend(a: seq<string>, b: seq<string>)
    requires Tokens(a) && Tokens(b)
    ensures Tokens(a + b) && Lex(a + b) == Lex(a) + Lex(b)
    decreases |a|
  {
    assert Tokens(a + b) by {
      assert forall k :: 0 <= k < |a + b| ==> (a + b)[k] == if k < |a| then a[k] else b[k - |a|];
    }
    if a != [] {
      assert (a + b)[0] == a[0] && (a + b)[1..] == a[1..] + b;
      LexAppend(a[1..], b);
    } else {
      assert a + b == b;
    }
  }

  /** A plan that ends well when its writes do is just its writes. */
  lemma CarryAll(m: MemState, ws: seq<Write>)
    requires WellFormed(m)
    ensures Carry(m, Plan(ws, LoadOkay)) == ApplyWrites(m, ws)
  {
  }

  /** A block of bytes to be placed at a byte address. */
  datatype ByteBlock = ByteBlock(addr: nat, bytes: seq<bv8>)

  /** Blocks whose address fits the eight digits of an `@` token, and that do not wrap. */
  predicate ByteBlocksFit(blocks: seq<ByteBlock>)
  {
    forall k :: 0 <= k < |blocks| ==> blocks[k].addr < TWO32 && blocks[k].addr + |blocks[k].bytes| < TWO64
  }

  /** One two-digit token per byte. */
  function ByteTokens(bytes: seq<bv8>): (ts: seq<string>)
    ensures |ts| == |bytes| && Tokens(ts)
  {
    if bytes == [] then [] else [ByteHex(bytes[0])] + ByteTokens(bytes[1..])
  }

  /** The 8-bit Verilog text of the blocks: each block is an `@` address token, then its bytes. */
  function Verilog8Text(blocks: seq<ByteBlock>): (ts: seq<string>)
    ensures Tokens(ts)
  {
    if blocks == [] then []
    else
      LexAppend(["@" + HexDigits(blocks[0].addr, 8)], ByteTokens(blocks[0].bytes));
      LexAppend(["@" + HexDigits(blocks[0].addr, 8)] + ByteTokens(blocks[0].bytes), Verilog8Text(blocks[1..]));
      ["@" + HexDigits(blocks[0].addr, 8)] + ByteTokens(blocks[0].bytes) + Verilog8Text(blocks[1..])
  }

  /** The byte writes of the blocks, block after block. */
  function BlockWrites(blocks: seq<ByteBlock>): seq<Write>
  {
    if blocks == [] then [] else ByteWrites(blocks[0].addr, blocks[0].bytes) + BlockWrites(blocks[1..])
  }

  /** The tokens of `bytes`, read. */
  function ByteLexemes(bytes: seq<bv8>): (ks: seq<Token>)
    ensures |ks| == |bytes|
  {
    if bytes == [] then [] else [DataToken(2, Some(bytes[0] as nat))] + ByteLexemes(bytes[1..])
  }

  /** The text of the blocks, read. */
  function Verilog8Lexemes(blocks: seq<ByteBlock>): seq<Token>
  {
    if blocks == [] then []
    else [AtToken(9, Some(blocks[0].addr))] + ByteLexemes(blocks[0].bytes) + Verilog8Lexemes(blocks[1..])
  }

  /** A two-digit token reads back as its byte, and is no address. */
  lemma ByteTokenValue(b: bv8)
    ensures Lexeme(ByteHex(b)) == DataToken(2, Some(b as nat))
  {
    assert IsHexDigit(ByteHex(b)[0]);
    ByteHexParses(b);
  }

  lemma {:induction false} ByteTokensRead(bytes: seq<bv8>)
    ensures Lex(ByteTokens(bytes)) == ByteLexemes(bytes)
    decreases |bytes|
  {
    if bytes != [] {
      var ts := ByteTokens(bytes);
      assert ts[0] == ByteHex(bytes[0]) && ts[1..] == ByteTokens(bytes[1..]);
      ByteTokenValue(bytes[0]);
      ByteTokensRead(bytes[1..]);
    }
  }

  /** An address token of eight digits reads back as its address. */
  lemma AddressToken(a: nat)
    requires a < TWO32
    ensures Lex(["@" + HexDigits(a, 8)]) == [AtToken(9, Some(a))]
  {
    var t := "@" + HexDigits(a, 8);
    assert t[1..] == HexDigits(a, 8);
    EightDigitsParse(a);
  }

  lemma {:induction false} Verilog8TextRead(blocks: seq<ByteBlock>)
    requires ByteBlocksFit(blocks)
    ensures Lex(Verilog8Text(blocks)) == Verilog8Lexemes(blocks)
    decreases |blocks|
  {
    if blocks != [] {
      var b := blocks[0];
      var at := ["@" + HexDigits(b.addr, 8)];
      LexAppend(at, ByteTokens(b.bytes));
      LexAppend(at + ByteTokens(b.bytes), Verilog8Text(blocks[1..]));
      AddressToken(b.addr);
      ByteTokensRead(b.bytes);
      assert ByteBlocksFit(blocks[1..]) by {
        assert forall k :: 0 <= k < |blocks| - 1 ==> blocks[1..][k] == blocks[k + 1];
      }
      Verilog8TextRead(blocks[1..]);
    }
  }

  /** A byte's low byte is itself. */
  lemma LowByteOfByte(b: bv8)
    ensures LowByte(b as nat) == b
  {
    assert b as nat % 256 == b as nat;
  }

  /** A byte's token plans the write of that byte, then the rest one byte further. */
  lemma ByteStep(b: bv8, rest: seq<Token>, addr: nat)
    ensures var q := Vhex8Plan(rest, (addr + 1) % TWO64);
      Vhex8Plan([DataToken(2, Some(b as nat))] + rest, addr) == Plan([Write(addr, DT_BYTE, b as bv32)] + q.writes, q.end)
  {
    var ks := [DataToken(2, Some(b as nat))] + rest;
    assert ks[0] == DataToken(2, Some(b as nat)) && ks[1..] == rest;
    LowByteOfByte(b);
  }

  /** Data tokens for `bytes` plan their byte writes from the current address, then the rest. */
  lemma {:induction false} ByteLexemesPlan(bytes: seq<bv8>, rest: seq<Token>, addr: nat)
    requires addr + |bytes| < TWO64
    ensures var p := Vhex8Plan(rest, addr + |bytes|);
      Vhex8Plan(ByteLexemes(bytes) + rest, addr) == Plan(ByteWrites(addr, bytes) + p.writes, p.end)
    decreases |bytes|
  {
    if bytes == [] {
      assert ByteLexemes(bytes) + rest == rest;
    } else {
      ByteLexemesPlan(bytes[1..], rest, addr + 1);
      ByteLexemesStep(bytes, rest, addr);
    }
  }

  lemma ByteLexemesStep(bytes: seq<bv8>, rest: seq<Token>, addr: nat)
    requires bytes != [] && addr + |bytes| < TWO64
    requires var p := Vhex8Plan(rest, addr + |bytes|);
      Vhex8Plan(ByteLexemes(bytes[1..]) + rest, addr + 1) == Plan(ByteWrites(addr + 1, bytes[1..]) + p.writes, p.end)
    ensures var p := Vhex8Plan(rest, addr + |bytes|);
      Vhex8Plan(ByteLexemes(bytes) + rest, addr) == Plan(ByteWrites(addr, bytes) + p.writes, p.end)
  {
    var tail := ByteLexemes(bytes[1..]) + rest;
    ConsAppend(DataToken(2, Some(bytes[0] as nat)), ByteLexemes(bytes[1..]), rest);
    ByteStep(bytes[0], tail, addr);
    NoWrap(addr + 1);
    var p := Vhex8Plan(rest, addr + |bytes|);
    ConsAppend(Write(addr, DT_BYTE, bytes[0] as bv32), ByteWrites(addr + 1, bytes[1..]), p.writes);
  }

  lemma {:induction false} Verilog8Plan(blocks: seq<ByteBlock>, addr: nat)
    requires ByteBlocksFit(blocks)
    ensures Vhex8Plan(Verilog8Lexemes(blocks), addr) == Plan(BlockWrites(blocks), LoadOkay)
    decreases |blocks|
  {
    if blocks != [] {
      var b := blocks[0];
      var later := Verilog8Lexemes(blocks[1..]);
      var ks := Verilog8Lexemes(blocks);
      assert ks[0] == AtToken(9, Some(b.addr)) && ks[1..] == ByteLexemes(b.bytes) + later;
      ByteLexemesPlan(b.bytes, later, b.addr);
      assert ByteBlocksFit(blocks[1..]) by {
        assert forall k :: 0 <= k < |blocks| - 1 ==> blocks[1..][k] == blocks[k + 1];
      }
      Verilog8Plan(blocks[1..], b.addr + |b.bytes|);
    }
  }

  /**
   * Loading the 8-bit Verilog text of a list of blocks writes exactly the blocks' bytes, block
   * after block, each from its address, and ends as the last of those writes does.
   */
  lemma Verilog8Loads(blocks: seq<ByteBlock>)
    requires ByteBlocksFit(blocks)
    ensures Vhex8Plan(Lex(Verilog8Text(blocks)), 0) == Plan(BlockWrites(blocks), LoadOkay)
  {
    Verilog8TextRead(blocks);
    Verilog8Plan(blocks, 0);
  }

  /** One block of bytes that fits the user RAM is loaded into it verbatim, and the load succeeds. */
  lemma Verilog8IntoUserRam(m: MemState, addr: nat, bytes: seq<bv8>)
    requires WellFormed(m) && addr + |bytes| <= RAM_SIZE
    ensures Vhex8(m, Verilog8Text([ByteBlock(addr, bytes)])) == Image(m.(user := XrveRam.Splice(m.user, addr, bytes)), LoadOkay)
  {
    var blocks := [ByteBlock(addr, bytes)];
    assert ByteBlocksFit(blocks);
    Verilog8Loads(blocks);
    CarryAll(m, ByteWrites(addr, bytes));
    assert BlockWrites(blocks) == ByteWrites(addr, bytes) + [];
    assert ByteWrites(addr, bytes) + [] == ByteWrites(addr, bytes);
    BytesIntoUserRam(m, addr, bytes);
  }

  /** A data token that is not two characters long fails the load before any write of its own. */
  lemma Verilog8BadByte(t: string, rest: seq<string>, addr: nat)
    requires Tokens(rest) && |t| > 0 && t[0] != '@' && |t| != 2
    ensures Vhex8Plan(Lex([t] + rest), addr) == Plan([], LoadFail)
  {
    assert Tokens([t] + rest) && ([t] + rest)[0] == t;
  }

  /** An address token whose length is not nine fails the source's assertion before any write. */
  lemma Verilog8BadAddress(t: string, rest: seq<string>, addr: nat)
    requires Tokens(rest) && |t| > 0 && t[0] == '@' && |t| != 9
    ensures Vhex8Plan(Lex([t] + rest), addr) == Plan([], LoadAborted)
  {
    assert Tokens([t] + rest) && ([t] + rest)[0] == t;
  }

  /** "0000001": seven hex digits worth 1. */
  lemma SevenDigitOne()
    ensures AllHex("0000001") && HexValue("0000001") == 1
  {
    assert AllHex("0000001") by {
      forall k | 0 <= k < 7 ensures IsHexDigit("0000001"[k]) { }
    }
    assert "0000001"[..6] == "000000" && "000000"[..5] == "00000" && "00000"[..4] == "0000";
    assert "0000"[..3] == "000" && "000"[..2] == "00" && "00"[..1] == "0" && "0"[..0] == "";
  }

  /**
   * `@-0000001` passes the eight-character check, and `stoul` wraps it to 2^64 - 1: the byte
   * write there fails the 34-bit assertion of `write_memory`, so the 8-bit load aborts with
   * memory unchanged.
   */
  lemma Verilog8NegativeAddress(m: MemState)
    requires WellFormed(m)
    ensures Vhex8(m, ["@-0000001", "00"]) == Image(m, LoadAborted)
  {
    var w := Write(TWO64 - 1, DT_BYTE, LowByte(0) as bv32);
    NegativeAddressLexes();
    NegativeAddressPlan();
    WideFirstWrite(m, w, []);
    assert [w] + [] == [w];
  }

  /** The two tokens read as an address of 2^64 - 1 and the byte 0. */
  lemma NegativeAddressLexes()
    ensures Tokens(["@-0000001", "00"])
    ensures Lex(["@-0000001", "00"]) == [AtToken(9, Some(TWO64 - 1)), DataToken(2, Some(0))]
  {
    LexPair("@-0000001", "00");
    NegativeAddressToken();
    ZeroByteToken();
  }

  /** Two tokens lex one after the other. */
  lemma LexPair(a: string, b: string)
    requires |a| > 0 && |b| > 0
    ensures Tokens([a, b]) && Lex([a, b]) == [Lexeme(a), Lexeme(b)]
  {
    var ts := [a, b];
    assert ts[1..] == [b] && ts[1..][1..] == [];
  }

  lemma NegativeAddressToken()
    ensures Lexeme("@-0000001") == AtToken(9, Some(TWO64 - 1))
  {
    var t := "@-0000001";
    assert t[0] == '@' && |t| == 9;
    assert t[1..] == "-0000001";
    NegativeOneStoul();
  }

  /** `stoul("-0000001", 16)` wraps to 2^64 - 1. */
  lemma NegativeOneStoul()
    ensures Stoul("-0000001") == Some(TWO64 - 1)
  {
    var s := "0000001";
    SevenDigitOne();
    NegativeDigitsStoul(s);
    assert "-" + s == "-0000001";
  }

  lemma ZeroByteToken()
    ensures Lexeme("00") == DataToken(2, Some(0))
  {
    DigitsParse("00");
    assert AllHex("00") && HexValue("00") == 0 by { assert "00"[..1] == "0" && "0"[..0] == ""; }
  }

  lemma NegativeAddressPlan()
    ensures Vhex8Plan([AtToken(9, Some(TWO64 - 1)), DataToken(2, Some(0))], 0) ==
      Plan([Write(TWO64 - 1, DT_BYTE, LowByte(0) as bv32)], LoadOkay)
  {
    var ks := [AtToken(9, Some(TWO64 - 1)), DataToken(2, Some(0))];
    var w := Write(TWO64 - 1, DT_BYTE, LowByte(0) as bv32);
    assert ks[1..] == [DataToken(2, Some(0))] && ks[1..][1..] == [];
    assert Vhex8Plan(ks[1..][1..], 0) == Plan([], LoadOkay);
    assert Vhex8Plan(ks[1..], TWO64 - 1) == Plan([w] + [], LoadOkay);
    assert [w] + [] == [w];
  }

  /**
   * In the 32-bit load, `@-0000001` is word address 2^64 - 1, so byte address 2^64 - 4: the
   * first word write fails the 34-bit assertion and the load aborts with memory unchanged.
   */
  lemma Verilog32NegativeAddress(m: MemState)
    requires WellFormed(m)
    ensures Vhex32(m, ["@-0000001", "00"]) == Image(m, LoadAborted)
  {
    var w := Write(TWO64 - 4, DT_WORD, Truncated(0));
    NegativeAddressLexes();
    NegativeWordAddressPlan();
    WideFirstWrite(m, w, []);
    assert [w] + [] == [w];
  }

  lemma NegativeWordAddressPlan()
    ensures Vhex32Plan([AtToken(9, Some(TWO64 - 1)), DataToken(2, Some(0))], 0) ==
      Plan([Write(TWO64 - 4, DT_WORD, Truncated(0))], LoadOkay)
  {
    var ks := [AtToken(9, Some(TWO64 - 1)), DataToken(2, Some(0))];
    var w := Write(TWO64 - 4, DT_WORD, Truncated(0));
    assert (TWO64 - 1) * 4 % TWO64 == TWO64 - 4;
    assert ks[1..] == [DataToken(2, Some(0))] && ks[1..][1..] == [];
    assert Vhex32Plan(ks[1..][1..], 0) == Plan([], LoadOkay);
    assert Vhex32Plan(ks[1..], TWO64 - 4) == Plan([w] + [], LoadOkay);
    assert [w] + [] == [w];
  }

  /** A block of words to be placed at word address `index`. */
  datatype WordBlock = WordBlock(index: nat, words: seq<nat>)

  /** Words that fit 32 bits and `width` digits. */
  predicate WordsFit(words: seq<nat>, width: nat)
  {
    forall j :: 0 <= j < |words| ==> words[j] < TWO32 && words[j] < Pow16(width)
  }

  /** Blocks whose word address fits the eight digits of an `@` token, and that do not wrap. */
  predicate WordBlocksFit(blocks: seq<WordBlock>, width: nat)
  {
    forall k :: 0 <= k < |blocks| ==>
      blocks[k].index < TWO32 && blocks[k].index * 4 + 4 * |blocks[k].words| < TWO64 && WordsFit(blocks[k].words, width)
  }

  /** One token of `width` digits per word. */
  function WordTokens(words: seq<nat>, width: nat): (ts: seq<string>)
    requires width > 0
    ensures |ts| == |words| && Tokens(ts)
  {
    if words == [] then [] else [HexDigits(words[0], width)] + WordTokens(words[1..], width)
  }

  /** The 32-bit Verilog text of the blocks, each word written with `width` digits. */
  function Verilog32Text(blocks: seq<WordBlock>, width: nat): (ts: seq<string>)
    requires width > 0
    ensures Tokens(ts)
  {
    if blocks == [] then []
    else
      LexAppend(["@" + HexDigits(blocks[0].index, 8)], WordTokens(blocks[0].words, width));
      LexAppend(["@" + HexDigits(blocks[0].index, 8)] + WordTokens(blocks[0].words, width), Verilog32Text(blocks[1..], width));
      ["@" + HexDigits(blocks[0].index, 8)] + WordTokens(blocks[0].words, width) + Verilog32Text(blocks[1..], width)
  }

  /** Word writes of `words` from `addr` on, four bytes apart. */
  function WordWrites(addr: nat, words: seq<nat>): (ws: seq<Write>)
    ensures |ws| == |words|
    decreases |words|
  {
    if words == [] then [] else [Write(addr, DT_WORD, Truncated(words[0]))] + WordWrites(addr + 4, words[1..])
  }

  /** The word writes of the blocks, block after block, each from four times its word address. */
  function WordBlockWrites(blocks: seq<WordBlock>): seq<Write>
  {
    if blocks == [] then [] else WordWrites(blocks[0].index * 4, blocks[0].words) + WordBlockWrites(blocks[1..])
  }

  /** The tokens of `words`, read. */
  function WordLexemes(words: seq<nat>, width: nat): (ks: seq<Token>)
    ensures |ks| == |words|
  {
    if words == [] then [] else [DataToken(width, Some(words[0]))] + WordLexemes(words[1..], width)
  }

  /** The text of the blocks, read. */
  function Verilog32Lexemes(blocks: seq<WordBlock>, width: nat): seq<Token>
  {
    if blocks == [] then []
    else [AtToken(9, Some(blocks[0].index))] + WordLexemes(blocks[0].words, width) + Verilog32Lexemes(blocks[1..], width)
  }

  /** A word written with enough digits reads back as itself, and is no address. */
  lemma WordTokenValue(w: nat, width: nat)
    requires 0 < width && w < TWO32 && w < Pow16(width)
    ensures Lexeme(HexDigits(w, width)) == DataToken(width, Some(w))
  {
    var t := HexDigits(w, width);
    assert t[0] != '@' by {
      assert IsHexDigit(t[0]);
    }
    DigitsStoul(w, width);
  }

  lemma {:induction false} WordTokensRead(words: seq<nat>, width: nat)
    requires 0 < width && WordsFit(words, width)
    ensures Lex(WordTokens(words, width)) == WordLexemes(words, width)
    decreases |words|
  {
    if words != [] {
      var ts := WordTokens(words, width);
      assert ts[0] == HexDigits(words[0], width) && ts[1..] == WordTokens(words[1..], width);
      WordTokenValue(words[0], width);
      assert WordsFit(words[1..], width) by {
        assert forall j :: 0 <= j < |words| - 1 ==> words[1..][j] == words[j + 1];
      }
      WordTokensRead(words[1..], width);
    }
  }

  lemma {:induction false} Verilog32TextRead(blocks: seq<WordBlock>, width: nat)
    requires 0 < width && WordBlocksFit(blocks, width)
    ensures Lex(Verilog32Text(blocks, width)) == Verilog32Lexemes(blocks, width)
    decreases |blocks|
  {
    if blocks != [] {
      var b := blocks[0];
      var at := ["@" + HexDigits(b.index, 8)];
      LexAppend(at, WordTokens(b.words, width));
      LexAppend(at + WordTokens(b.words, width), Verilog32Text(blocks[1..], width));
      AddressToken(b.index);
      WordTokensRead(b.words, width);
      assert WordBlocksFit(blocks[1..], width) by {
        assert forall k :: 0 <= k < |blocks| - 1 ==> blocks[1..][k] == blocks[k + 1];
      }
      Verilog32TextRead(blocks[1..], width);
    }
  }

  /** Data tokens plan their word writes from the current address, then the rest. */
  lemma {:induction false} WordLexemesPlan(words: seq<nat>, width: nat, rest: seq<Token>, addr: nat)
    requires addr + 4 * |words| < TWO64
    ensures var p := Vhex32Plan(rest, addr + 4 * |words|);
      Vhex32Plan(WordLexemes(words, width) + rest, addr) == Plan(WordWrites(addr, words) + p.writes, p.end)
    decreases |words|
  {
    if words == [] {
      assert WordLexemes(words, width) + rest == rest;
    } else {
      WordLexemesPlan(words[1..], width, rest, addr + 4);
      WordLexemesStep(words, width, rest, addr);
    }
  }

  lemma WordLexemesStep(words: seq<nat>, width: nat, rest: seq<Token>, addr: nat)
    requires words != [] && addr + 4 * |words| < TWO64
    requires var p := Vhex32Plan(rest, addr + 4 * |words|);
      Vhex32Plan(WordLexemes(words[1..], width) + rest, addr + 4) == Plan(WordWrites(addr + 4, words[1..]) + p.writes, p.end)
    ensures var p := Vhex32Plan(rest, addr + 4 * |words|);
      Vhex32Plan(WordLexemes(words, width) + rest, addr) == Plan(WordWrites(addr, words) + p.writes, p.end)
  {
    var tail := WordLexemes(words[1..], width) + rest;
    ConsAppend(DataToken(width, Some(words[0])), WordLexemes(words[1..], width), rest);
    WordStep(words[0], width, tail, addr);
    NoWrap(addr + 4);
    var p := Vhex32Plan(rest, addr + 4 * |words|);
    ConsAppend(Write(addr, DT_WORD, Truncated(words[0])), WordWrites(addr + 4, words[1..]), p.writes);
  }

  /** A word's token plans the write of that word, then the rest four bytes further. */
  lemma WordStep(w: nat, width: nat, rest: seq<Token>, addr: nat)
    ensures var q := Vhex32Plan(rest, (addr + 4) % TWO64);
      Vhex32Plan([DataToken(width, Some(w))] + rest, addr) == Plan([Write(addr, DT_WORD, Truncated(w))] + q.writes, q.end)
  {
    var ks := [DataToken(width, Some(w))] + rest;
    assert ks[0] == DataToken(width, Some(w)) && ks[1..] == rest;
  }

  lemma {:induction false} Verilog32Plan(blocks: seq<WordBlock>, width: nat, addr: nat)
    requires WordBlocksFit(blocks, width)
    ensures Vhex32Plan(Verilog32Lexemes(blocks, width), addr) == Plan(WordBlockWrites(blocks), LoadOkay)
    decreases |blocks|
  {
    if blocks != [] {
      var b := blocks[0];
      var later := Verilog32Lexemes(blocks[1..], width);
      var ks := Verilog32Lexemes(blocks, width);
      assert ks[0] == AtToken(9, Some(b.index)) && ks[1..] == WordLexemes(b.words, width) + later;
      NoWrap(b.index * 4);
      WordLexemesPlan(b.words, width, later, b.index * 4);
      assert WordBlocksFit(blocks[1..], width) by {
        assert forall k :: 0 <= k < |blocks| - 1 ==> blocks[1..][k] == blocks[k + 1];
      }
      Verilog32Plan(blocks[1..], width, b.index * 4 + 4 * |b.words|);
    }
  }

  /**
   * Loading the 32-bit Verilog text of a list of word blocks writes exactly those words, block
   * after block, each block from four times its word address, whatever the number of digits
   * per word (fewer than eight only draws a warning).
   */
  lemma Verilog32Loads(blocks: seq<WordBlock>, width: nat)
    requires 0 < width && WordBlocksFit(blocks, width)
    ensures Vhex32Plan(Lex(Verilog32Text(blocks, width)), 0) == Plan(WordBlockWrites(blocks), LoadOkay)
  {
    Verilog32TextRead(blocks, width);
    Verilog32Plan(blocks, width, 0);
  }

  /** A data token `stoul` rejects aborts the 32-bit load before any write of its own. */
  lemma Verilog32BadWord(t: string, rest: seq<string>, addr: nat)
    requires Tokens(rest) && |t| > 0 && t[0] != '@' && Stoul(t).None?
    ensures Vhex32Plan(Lex([t] + rest), addr) == Plan([], LoadAborted)
  {
    assert Tokens([t] + rest) && ([t] + rest)[0] == t;
  }

  /** The little-endian bytes of the words, truncated to 32 bits, in order. */
  function WordsBytes(words: seq<nat>): (r: seq<bv8>)
    ensures |r| == 4 * |words|
  {
    if words == [] then [] else XrveRam.WordBytes(Truncated(words[0])) + WordsBytes(words[1..])
  }

  /** Aligned words stored into the user RAM land as their little-endian bytes, and the load succeeds. */
  lemma {:induction false} WordsIntoUserRam(m: MemState, addr: nat, words: seq<nat>)
    requires WellFormed(m) && addr % 4 == 0 && addr + 4 * |words| <= RAM_SIZE
    ensures ApplyWrites(m, WordWrites(addr, words)) ==
      Image(m.(user := XrveRam.Splice(m.user, addr, WordsBytes(words))), LoadOkay)
    decreases |words|
  {
    if words == [] {
      SpliceNothing(m.user, addr);
    } else {
      var d := Truncated(words[0]);
      var m1 := m.(user := XrveRam.Splice(m.user, addr, XrveRam.WordBytes(d)));
      FirstWordIntoUserRam(m, addr, words);
      WordsIntoUserRam(m1, addr + 4, words[1..]);
      SpliceWordAfter(m.user, addr, XrveRam.WordBytes(d), WordsBytes(words[1..]));
    }
  }

  /** The first of the words lands in user RAM, and the rest are written after it. */
  lemma FirstWordIntoUserRam(m: MemState, addr: nat, words: seq<nat>)
    requires WellFormed(m) && addr % 4 == 0 && addr + 4 * |words| <= RAM_SIZE && words != []
    ensures ApplyWrites(m, WordWrites(addr, words)) ==
      ApplyWrites(m.(user := XrveRam.Splice(m.user, addr, XrveRam.WordBytes(Truncated(words[0])))), WordWrites(addr + 4, words[1..]))
  {
    var d := Truncated(words[0]);
    ApplyFirst(m, Write(addr, DT_WORD, d), WordWrites(addr + 4, words[1..]));
    RamRouting(m, addr, DT_WORD, d);
    WordIntoRam(m.user, USER_RAM_START, addr, d);
  }

  lemma WordAddressAligned(index: nat)
    ensures index * 4 % 4 == 0
  {
  }

  /** One aligned block of words that fits the user RAM lands as the words' little-endian bytes. */
  lemma Verilog32IntoUserRam(m: MemState, index: nat, words: seq<nat>, width: nat)
    requires WellFormed(m) && 0 < width && WordsFit(words, width) && index * 4 + 4 * |words| <= RAM_SIZE
    ensures Vhex32(m, Verilog32Text([WordBlock(index, words)], width)) ==
      Image(m.(user := XrveRam.Splice(m.user, index * 4, WordsBytes(words))), LoadOkay)
  {
    var blocks := [WordBlock(index, words)];
    assert WordBlocksFit(blocks, width);
    Verilog32Loads(blocks, width);
    assert WordBlockWrites(blocks) == WordWrites(index * 4, words) + [];
    assert WordWrites(index * 4, words) + [] == WordWrites(index * 4, words);
    CarryAll(m, WordWrites(index * 4, words));
    WordAddressAligned(index);
    WordsIntoUserRam(m, index * 4, words);
  }
}
