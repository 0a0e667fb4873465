// IRVE: the GDB stub's side of the Remote Serial Protocol. A packet travels as
// "$payload#cc", where cc is the payload's checksum in two lower-case hex digits; the stub
// sends an acknowledging '+' in front of every packet it sends. This module holds the packet
// codec and the pieces of the commands: reading and writing all registers (`g`, `G`) and
// reading and writing memory (`m`, `M`). The socket calls around it are not part of this
// model: a received string and the payload to send are the interface.

module IrveGdb {
  import opened Common
  import opened IrveHex
  import opened Registers
  import opened IrveTrap
  import opened IrveWord
  import opened IrveMemory
  import opened IrveCpuState
  import IrveMemoryFacts
  import XrveRam

  // ---------------------------------------------------------------------------------------
  // byte_2_string and compute_checksum.

  /** `byte_2_string`: the high nibble's digit, then the low nibble's, both lower-case. */
  lemma ByteHexDigits(b: bv8)
    ensures |ByteHex(b)| == 2
    ensures forall k :: 0 <= k < 2 ==> '0' <= ByteHex(b)[k] <= '9' || 'a' <= ByteHex(b)[k] <= 'f'
    ensures DigitValue(ByteHex(b)[0]) == b as int / 16 && DigitValue(ByteHex(b)[1]) == b as int % 16
  {
    Nibbles(b);
  }

  /** A number below 256 as a byte. */
  function ToByte(v: int): (b: bv8)
    requires 0 <= v < 256
  {
    v as bv8
  }

  /** A byte read as a number and converted back is the same byte. */
  lemma ByteRoundTrip(b: bv8)
    ensures ToByte(b as int) == b
  {
    assert (b as int) as bv8 == b;
  }

  /** The sum of the payload's character codes, first to last. */
  function CharSum(s: string): nat
  {
    if s == [] then 0 else CharSum(s[..|s| - 1]) + s[|s| - 1] as nat
  }

  /**
   * `compute_checksum`: the character sum in a `char`, which keeps it modulo 256, written by
   * `byte_2_string` as two hex digits (`ByteHexIsDigits` relates the two views of a byte).
   */
  function Checksum(s: string): (c: string)
    ensures |c| == 2 && AllHex(c) && HexValue(c) == CharSum(s) % 256
  {
    assert Pow16(2) == 256 by {
      assert Pow16(1) == 16;
    }
    HexDigitsValue(CharSum(s) % 256, 2);
    HexDigits(CharSum(s) % 256, 2)
  }

  /** The character sum of a concatenation is the sum of the parts' sums. */
  lemma {:induction false} CharSumAppend(a: string, b: string)
    ensures CharSum(a + b) == CharSum(a) + CharSum(b)
    decreases |b|
  {
    if b == [] {
      assert a + b == a;
    } else {
      var b' := b[..|b| - 1];
      assert (a + b)[..|a + b| - 1] == a + b';
      CharSumAppend(a, b');
    }
  }

  /** The accumulator loop of `compute_checksum`: the `char` accumulator wraps modulo 256. */
  method ComputeChecksum(packet: string) returns (c: string)
    ensures c == Checksum(packet)
  {
    var accumulator := 0;
    var i := 0;
    while i < |packet|
      invariant 0 <= i <= |packet|
      invariant accumulator == CharSum(packet[..i]) % 256
    {
      assert packet[..i + 1][..i] == packet[..i];
      accumulator := (accumulator + packet[i] as int) % 256;
      i := i + 1;
    }
    assert packet[..i] == packet;
    return HexDigits(accumulator, 2);
  }

  // ---------------------------------------------------------------------------------------
  // Packets on the wire.

  /** The special packets: `DISCONNECTED` is the socket's, not the client's. */
  datatype Special = Ack | Nack | CtrlC | Corrupt | Malformed | Disconnected

  /** `packet_t`: a payload string, or a special packet. */
  datatype Packet = Text(payload: string) | Special(kind: Special)

  /** The packets `send_packet` can send: payloads, ACK and NACK (any other fails an assertion). */
  predicate Sendable(p: Packet)
  {
    p.Text? || p.kind == Ack || p.kind == Nack
  }

  /** `send_packet`'s raw message. */
  function Frame(p: Packet): (raw: string)
    requires Sendable(p)
  {
    match p
    case Text(s) => "+$" + s + "#" + Checksum(s)
    case Special(k) => if k == Ack then "+" else "-"
  }

  /** `std::string::find`: the first index of `c`, or -1 for `npos` (so that `npos + 1` is 0). */
  function Find(s: string, c: char): (i: int)
    ensures -1 <= i < |s|
    ensures i >= 0 ==> s[i] == c && forall k :: 0 <= k < i ==> s[k] != c
    ensures i == -1 ==> forall k :: 0 <= k < |s| ==> s[k] != c
  {
    if s == [] then -1
    else if s[0] == c then 0
    else
      var r := Find(s[1..], c);
      if r < 0 then -1 else r + 1
  }

  /** The text after the first `$` of a received string, the whole string when it has none. */
  function AfterDollar(raw: string): string
  {
    raw[Find(raw, '$') + 1..]
  }

  /**
   * `raw_string_2_packet`: the text after the first `$` without its last three characters
   * (the '#' and checksum, neither checked); when that text is shorter than three characters,
   * it is a special packet if it is exactly "+", "-" or Ctrl-C, and malformed otherwise.
   */
  function RawToPacket(raw: string): (p: Packet)
    ensures p.Text? <==> |AfterDollar(raw)| >= 3
    ensures p.Text? ==> |p.payload| + 3 == |AfterDollar(raw)| && p.payload == AfterDollar(raw)[..|p.payload|]
    ensures p == Special(Malformed) <==> |AfterDollar(raw)| < 3 && AfterDollar(raw) != "+" && AfterDollar(raw) != "-" && AfterDollar(raw) != [3 as char]
  {
    var m := AfterDollar(raw);
    if |m| >= 3 then Text(m[..|m| - 3])
    else if m == "+" then Special(Ack)
    else if m == "-" then Special(Nack)
    else if m == [3 as char] then Special(CtrlC)
    else Special(Malformed)
  }

  /** Whatever three characters end the packet, the payload is what lies between them and the `$`. */
  lemma TrailerIgnored(prefix: string, payload: string, trailer: string)
    requires |trailer| == 3 && forall k :: 0 <= k < |prefix| ==> prefix[k] != '$'
    ensures RawToPacket(prefix + "$" + payload + trailer) == Text(payload)
  {
    var raw := prefix + "$" + payload + trailer;
    assert raw[|prefix|] == '$';
    assert Find(raw, '$') == |prefix|;
    assert AfterDollar(raw) == payload + trailer;
    assert (payload + trailer)[..|payload|] == payload;
  }

  /** What `send_packet` sends, `raw_string_2_packet` reads back as the packet sent. */
  lemma FrameRoundTrip(p: Packet)
    requires Sendable(p)
    ensures RawToPacket(Frame(p)) == p
  {
    var raw := Frame(p);
    if p.Text? {
      var s, cs := p.payload, Checksum(p.payload);
      assert raw[0] == '+' && raw[1] == '$';
      assert Find(raw[1..], '$') == 0;
      assert Find(raw, '$') == 1;
      var m := raw[2..];
      assert |m| == |s| + 3;
      assert m[..|s|] == s by {
        assert forall k :: 0 <= k < |s| ==> m[k] == raw[k + 2] == s[k];
      }
    } else {
      assert raw[0] != '$' && raw[1..] == [];
      assert Find(raw, '$') == -1;
    }
  }

  /** A lone '+' is an ACK and a lone '-' a NACK. */
  lemma Acknowledgements()
    ensures RawToPacket("+") == Special(Ack) && RawToPacket("-") == Special(Nack)
  {
    assert Find("+", '$') == -1 by {
      assert Find("+"[1..], '$') == -1;
    }
    assert Find("-", '$') == -1 by {
      assert Find("-"[1..], '$') == -1;
    }
  }

  /** A lone Ctrl-C is the interrupt request. */
  lemma Interrupt()
    ensures RawToPacket([3 as char]) == Special(CtrlC)
  {
    assert Find([3 as char], '$') == -1 by {
      assert Find([3 as char][1..], '$') == -1;
    }
  }

  /** Two characters without a `$` are malformed, whatever they are. */
  lemma TwoCharactersMalformed(c: char, d: char)
    requires c != '$' && d != '$'
    ensures RawToPacket([c, d]) == Special(Malformed)
  {
    assert Find([c, d], '$') == -1 by {
      assert Find([c, d][1..], '$') == -1 by {
        assert Find([c, d][1..][1..], '$') == -1;
      }
    }
  }

  // ---------------------------------------------------------------------------------------
  // 'g': read all registers.

  /** A word as `g` sends it: the `byte_2_string` of each byte, least significant first. */
  function WordHex(w: bv32): (s: string)
    ensures |s| == 8
  {
    var bs := XrveRam.WordBytes(w);
    ByteHex(bs[0]) + ByteHex(bs[1]) + ByteHex(bs[2]) + ByteHex(bs[3])
  }

  /** Register `i` of the file, x0 reading 0, indexed by a number. */
  function Reg(regs: seq<bv32>, i: nat): (v: bv32)
    requires |regs| == 31 && i < 32
  {
    if i == 0 then 0 else regs[i - 1]
  }

  /** The register numbers below 32 are the same as bytes. */
  lemma RegNumber(regs: seq<bv32>, i: nat, v: bv32)
    requires |regs| == 31 && i < 32
    ensures RegValue(regs, i as bv8) == Reg(regs, i)
    ensures Written(regs, i as bv8, v) == if i == 0 then regs else regs[i - 1 := v]
    ensures i as bv8 < 32
  {
    assert (i as bv8) as int == i;
  }

  /** Registers x0 to x(n-1), each as `WordHex`. */
  function RegistersHex(regs: seq<bv32>, n: nat): (s: string)
    requires |regs| == 31 && n <= 32
    ensures |s| == 8 * n
  {
    if n == 0 then [] else RegistersHex(regs, n - 1) + WordHex(Reg(regs, n - 1))
  }

  /** The `g` reply: the 32 general-purpose registers, x0 first, then the pc. */
  function RegistersReply(regs: seq<bv32>, pc: bv32): (s: string)
    requires |regs| == 31
    ensures |s| == 8 * 33
  {
    RegistersHex(regs, 32) + WordHex(pc)
  }

  /** The loop of the `g` command over `get_r(0)` to `get_r(31)`, then `get_pc()`. */
  method ReadRegisters(cpu: CpuState) returns (s: string)
    requires cpu.Valid()
    ensures s == RegistersReply(cpu.Registers(), cpu.pc)
  {
    s := [];
    var i := 0;
    while i < 32
      invariant 0 <= i <= 32
      invariant s == RegistersHex(cpu.Registers(), i)
    {
      RegNumber(cpu.Registers(), i, 0);
      s := s + WordHex(cpu.GetR(i as bv8));
      i := i + 1;
    }
    s := s + WordHex(cpu.GetPc());
  }

  // ---------------------------------------------------------------------------------------
  // 'G': write all registers.

  /** `substr(0, 2)`: the first two characters, or what there is. */
  function Head(s: string): (h: string)
    ensures |h| <= 2
  {
    if |s| <= 2 then s else s[..2]
  }

  /** `erase(0, n)`: the string without its first `n` characters, empty when it is shorter. */
  function Drop(s: string, n: nat): string
  {
    if n <= |s| then s[n..] else []
  }

  /**
   * The low 32 bits of the `long` that `strtol` gives for a field of at most two digits,
   * which lies strictly between -256 and 256: a negative numeral sets all the high bits.
   */
  function FieldBits(v: int): (w: bv32)
    requires -256 < v < 256
  {
    if v >= 0 then ToByte(v) as bv32 else ToByte(v + 256) as bv32 | 0xFFFF_FF00
  }

  /** `(uint32_t)strtol(substr(0, 2), nullptr, 16)`. */
  function FieldValue(s: string): bv32
  {
    StrtolShort(Head(s));
    FieldBits(Strtol(Head(s)))
  }

  /**
   * A word as `G` reads it: four two-character fields, the first the least significant, each
   * cast to 32 bits after the shift (which drops the same bits as shifting the 32-bit value).
   */
  function WordField(s: string): bv32
  {
    Combine(FieldValue(s), FieldValue(Drop(s, 2)), FieldValue(Drop(s, 4)), FieldValue(Drop(s, 6)))
  }

  /** Four fields or-ed together, each shifted to its byte. */
  function Combine(f0: bv32, f1: bv32, f2: bv32, f3: bv32): bv32
  {
    f0 | (f1 << 8) | (f2 << 16) | (f3 << 24)
  }

  /** The or-assignments into a word that starts at 0 build `Combine`. */
  lemma OrAssignments(f0: bv32, f1: bv32, f2: bv32, f3: bv32)
    ensures ((((0 as bv32) | f0) | (f1 << 8)) | (f2 << 16)) | (f3 << 24) == Combine(f0, f1, f2, f3)
  {
  }

  /** Word `j` of a `G` payload: register `j` for `j < 32`, the pc for `j == 32`. */
  function PayloadWord(s: string, j: nat): bv32
  {
    WordField(Drop(s, 8 * j))
  }

  /** The stored registers after `G`: x1..x31 from words 1..31 (word 0 goes to x0 and is discarded). */
  function PayloadRegisters(s: string): (regs: seq<bv32>)
    ensures |regs| == 31
  {
    PayloadWords(s)[1..32]
  }

  lemma DropDrop(s: string, a: nat, b: nat)
    ensures Drop(Drop(s, a), b) == Drop(s, a + b)
  {
  }

  /** The four field reads of one register of `G`, and the erasing of its eight characters. */
  method ParseWord(s: string) returns (w: bv32, rest: string)
    ensures w == WordField(s) && rest == Drop(s, 8)
  {
    DropDrop(s, 2, 2);
    DropDrop(s, 4, 2);
    DropDrop(s, 6, 2);
    rest := s;
    w := 0;
    var f0 := FieldValue(rest);
    w := w | f0;
    rest := Drop(rest, 2);
    var f1 := FieldValue(rest);
    w := w | (f1 << 8);
    rest := Drop(rest, 2);
    var f2 := FieldValue(rest);
    w := w | (f2 << 16);
    rest := Drop(rest, 2);
    var f3 := FieldValue(rest);
    w := w | (f3 << 24);
    rest := Drop(rest, 2);
    OrAssignments(f0, f1, f2, f3);
  }

  /** The 33 words of a `G` payload: the registers x0..x31, then the pc. */
  function PayloadWords(s: string): (ws: seq<bv32>)
    ensures |ws| == 33
  {
    seq(33, j requires 0 <= j < 33 => PayloadWord(s, j))
  }

  /**
   * The stored registers x1..x31 after the first `n` of `words` were written to x0, x1, ...
   * in turn; the write to x0 is discarded.
   */
  function PartlyWritten<T>(regs: seq<T>, words: seq<T>, n: nat): (r: seq<T>)
    requires |regs| == 31 && |words| == 33 && n <= 32
    ensures |r| == 31
  {
    if n == 0 then regs
    else
      var r := PartlyWritten(regs, words, n - 1);
      if n - 1 == 0 then r else r[n - 2 := words[n - 1]]
  }

  /** After `n` words, x1..x(n-1) hold their words and the others are unchanged. */
  lemma {:induction false} PartlyWrittenValues<T>(regs: seq<T>, words: seq<T>, n: nat, k: nat)
    requires |regs| == 31 && |words| == 33 && n <= 32 && k < 31
    ensures PartlyWritten(regs, words, n)[k] == if k + 1 < n then words[k + 1] else regs[k]
  {
    if n > 0 {
      PartlyWrittenValues(regs, words, n - 1, k);
    }
  }

  /** Writing word `n` to register `n` extends the writes by one. */
  lemma NextWritten<T>(regs: seq<T>, words: seq<T>, n: nat, w: T)
    requires |regs| == 31 && |words| == 33 && n < 32 && words[n] == w
    ensures var r := PartlyWritten(regs, words, n);
      PartlyWritten(regs, words, n + 1) == if n == 0 then r else r[n - 1 := w]
  {
  }

  /** All 32 words written leave x1..x31 holding words 1..31, whatever they held before. */
  lemma AllWritten<T>(regs: seq<T>, words: seq<T>)
    requires |regs| == 31 && |words| == 33
    ensures PartlyWritten(regs, words, 32) == words[1..32]
  {
    forall k | 0 <= k < 31
      ensures PartlyWritten(regs, words, 32)[k] == words[1..32][k]
    {
      PartlyWrittenValues(regs, words, 32, k);
    }
  }

  /** One turn of the `G` loop: the word read from the front of `rest` goes to register `i`. */
  method WriteNextRegister(cpu: CpuState, i: nat, rest: string, ghost s: string, ghost regs: seq<bv32>)
    returns (rest': string)
    requires cpu.Valid() && |regs| == 31 && i < 32 && rest == Drop(s, 8 * i)
    requires cpu.Registers() == PartlyWritten(regs, PayloadWords(s), i)
    modifies cpu.regs
    ensures rest' == Drop(s, 8 * (i + 1)) && cpu.Registers() == PartlyWritten(regs, PayloadWords(s), i + 1)
  {
    var w;
    w, rest' := ParseWord(rest);
    NextRegister(regs, s, i, rest, w, rest', cpu.Registers());
    cpu.SetR(i as bv8, w);
  }

  /** `set_r(i, word i)` on the registers written so far gives the registers written one further. */
  lemma NextRegister(regs: seq<bv32>, s: string, i: nat, rest: string, w: bv32, rest': string, current: seq<bv32>)
    requires |regs| == 31 && i < 32 && rest == Drop(s, 8 * i) && w == WordField(rest) && rest' == Drop(rest, 8)
    requires current == PartlyWritten(regs, PayloadWords(s), i)
    ensures i as bv8 < 32 && Written(current, i as bv8, w) == PartlyWritten(regs, PayloadWords(s), i + 1)
    ensures rest' == Drop(s, 8 * (i + 1))
  {
    DropDrop(s, 8 * i, 8);
    assert PayloadWords(s)[i] == w;
    NextWritten(regs, PayloadWords(s), i, w);
    RegNumber(current, i, w);
  }

  /** The `G` command: `set_r(i, word i)` for i from 0 to 31, then `set_pc(word 32)`. */
  method WriteRegisters(cpu: CpuState, s: string)
    requires cpu.Valid()
    modifies cpu, cpu.regs
    ensures cpu.Registers() == PayloadRegisters(s) && cpu.pc == PayloadWord(s, 32)
    ensures cpu.reservationValid == old(cpu.reservationValid)
  {
    ghost var regs := cpu.Registers();
    var rest := s;
    var i := 0;
    while i < 32
      invariant 0 <= i <= 32 && rest == Drop(s, 8 * i)
      invariant cpu.Registers() == PartlyWritten(regs, PayloadWords(s), i)
      invariant cpu.reservationValid == old(cpu.reservationValid)
    {
      rest := WriteNextRegister(cpu, i, rest, s, regs);
      i := i + 1;
    }
    AllWritten(regs, PayloadWords(s));
    var pc;
    pc, rest := ParseWord(rest);
    cpu.SetPc(pc);
  }

  /** A field holding the `byte_2_string` of a byte reads back as that byte. */
  lemma FieldOfByte(b: bv8, rest: string)
    ensures FieldValue(ByteHex(b) + rest) == b as bv32
  {
    ByteHexDigits(b);
    assert Head(ByteHex(b) + rest) == ByteHex(b);
    ByteHexParses(b);
    ByteBits(b);
  }

  /** A byte's value, as `strtol` gives it, keeps its bits. */
  lemma ByteBits(b: bv8)
    ensures FieldBits(b as int) == b as bv32
  {
    ByteRoundTrip(b);
  }

  /** The bytes of a word put back in their places make the word. */
  lemma Reassembled(w: bv32)
    ensures var bs := XrveRam.WordBytes(w); Combine(bs[0] as bv32, bs[1] as bv32, bs[2] as bv32, bs[3] as bv32) == w
  {
  }

  /** The four two-digit pieces of `WordHex` and what follows, as `Drop` takes them apart. */
  lemma Pieces(bs: seq<bv8>, rest: string)
    requires |bs| == 4
    ensures var t := ByteHex(bs[0]) + ByteHex(bs[1]) + ByteHex(bs[2]) + ByteHex(bs[3]) + rest;
      t == ByteHex(bs[0]) + (ByteHex(bs[1]) + ByteHex(bs[2]) + ByteHex(bs[3]) + rest) &&
      Drop(t, 2) == ByteHex(bs[1]) + (ByteHex(bs[2]) + ByteHex(bs[3]) + rest) &&
      Drop(t, 4) == ByteHex(bs[2]) + (ByteHex(bs[3]) + rest) &&
      Drop(t, 6) == ByteHex(bs[3]) + rest
  {
    Split(ByteHex(bs[0]), ByteHex(bs[1]), ByteHex(bs[2]), ByteHex(bs[3]), rest);
  }

  lemma Split<T>(x0: seq<T>, x1: seq<T>, x2: seq<T>, x3: seq<T>, rest: seq<T>)
    requires |x0| == 2 && |x1| == 2 && |x2| == 2 && |x3| == 2
    ensures var t := x0 + x1 + x2 + x3 + rest;
      t == x0 + (x1 + x2 + x3 + rest) && t[2..] == x1 + (x2 + x3 + rest) &&
      t[4..] == x2 + (x3 + rest) && t[6..] == x3 + rest
  {
    var t := x0 + x1 + x2 + x3 + rest;
    assert t[2..] == x1 + (x2 + x3 + rest);
    assert t[4..] == x2 + (x3 + rest);
    assert t[6..] == x3 + rest;
  }

  /** The four fields of a word, as `WordField` combines them. */
  lemma Fields(t: string)
    ensures WordField(t) == Combine(FieldValue(t), FieldValue(Drop(t, 2)), FieldValue(Drop(t, 4)), FieldValue(Drop(t, 6)))
  {
  }

  /** `G` reads back a word as `g` writes it, whatever follows. */
  lemma WordRoundTrip(w: bv32, rest: string)
    ensures WordField(WordHex(w) + rest) == w
  {
    var bs := XrveRam.WordBytes(w);
    Pieces(bs, rest);
    FieldOfByte(bs[0], ByteHex(bs[1]) + ByteHex(bs[2]) + ByteHex(bs[3]) + rest);
    FieldOfByte(bs[1], ByteHex(bs[2]) + ByteHex(bs[3]) + rest);
    FieldOfByte(bs[2], ByteHex(bs[3]) + rest);
    FieldOfByte(bs[3], rest);
    Fields(WordHex(w) + rest);
    Reassembled(w);
  }

  /** Register `j` sits at characters 8j to 8j+8 of `RegistersHex`. */
  lemma {:induction false} RegisterAt(regs: seq<bv32>, n: nat, j: nat)
    requires |regs| == 31 && j < n <= 32
    ensures RegistersHex(regs, n)[8 * j..8 * j + 8] == WordHex(Reg(regs, j))
  {
    var front, last := RegistersHex(regs, n - 1), WordHex(Reg(regs, n - 1));
    if j < n - 1 {
      RegisterAt(regs, n - 1, j);
      SliceOfFront(front, last, 8 * j, 8 * j + 8);
    } else {
      SliceOfBack(front, last);
    }
  }

  lemma SliceOfFront<T>(a: seq<T>, b: seq<T>, i: nat, j: nat)
    requires i <= j <= |a|
    ensures (a + b)[i..j] == a[i..j]
  {
  }

  lemma SplitAt<T>(s: seq<T>, i: nat, j: nat)
    requires i <= j <= |s|
    ensures s[i..] == s[i..j] + s[j..]
  {
  }

  lemma SliceOfBack<T>(a: seq<T>, b: seq<T>)
    ensures (a + b)[|a|..|a| + |b|] == b
  {
  }

  /** Word `j` of the `g` reply, and what follows it. */
  lemma ReplyWord(regs: seq<bv32>, pc: bv32, j: nat)
    requires |regs| == 31 && j <= 32
    ensures var s := RegistersReply(regs, pc);
      Drop(s, 8 * j) == WordHex(if j < 32 then Reg(regs, j) else pc) + s[8 * j + 8..]
  {
    var s := RegistersReply(regs, pc);
    if j < 32 {
      RegisterAt(regs, 32, j);
      SliceOfFront(RegistersHex(regs, 32), WordHex(pc), 8 * j, 8 * j + 8);
    } else {
      SliceOfBack(RegistersHex(regs, 32), WordHex(pc));
    }
    SplitAt(s, 8 * j, 8 * j + 8);
  }

  /** Word `j` of the `g` reply, read back as `G` reads it, is register `j` (the pc for 32). */
  lemma ReplyWordRoundTrip(regs: seq<bv32>, pc: bv32, j: nat)
    requires |regs| == 31 && j <= 32
    ensures PayloadWord(RegistersReply(regs, pc), j) == if j < 32 then Reg(regs, j) else pc
  {
    var s := RegistersReply(regs, pc);
    ReplyWord(regs, pc, j);
    WordRoundTrip(if j < 32 then Reg(regs, j) else pc, s[8 * j + 8..]);
  }

  /** What `g` sends, `G` writes back: every register and the pc are restored. */
  lemma RegistersRoundTrip(regs: seq<bv32>, pc: bv32)
    requires |regs| == 31
    ensures PayloadRegisters(RegistersReply(regs, pc)) == regs
    ensures PayloadWord(RegistersReply(regs, pc), 32) == pc
  {
    forall i | 0 <= i < 31
      ensures PayloadRegisters(RegistersReply(regs, pc))[i] == regs[i]
    {
      ReplyWordRoundTrip(regs, pc, i + 1);
    }
    ReplyWordRoundTrip(regs, pc, 32);
  }

  // ---------------------------------------------------------------------------------------
  // 'm': read memory.

  /** `find_first_not_of(c)`: the index of the first other character, `|s|` when there is none. */
  function SkipLeading(s: string, c: char): (i: nat)
    ensures i <= |s| && (i < |s| ==> s[i] != c)
    ensures forall k :: 0 <= k < i ==> s[k] == c
  {
    if s == [] || s[0] != c then 0 else SkipLeading(s[1..], c) + 1
  }

  /** A number below 2^32 as a word. */
  function ToWord(v: int): bv32
    requires 0 <= v < TWO32
  {
    v as bv32
  }

  /** `(uint32_t)` applied to a `long`: its low 32 bits. */
  function Low32(v: int): bv32
  {
    ToWord(v % TWO32)
  }

  /** A word read as a number and converted back is the same word. */
  lemma WordRoundTrip32(w: bv32)
    ensures Low32(w as int) == w
  {
    WordRange(w);
    WordOfNumber(w);
  }

  lemma WordRange(w: bv32)
    ensures 0 <= w as int < TWO32
  {
  }

  lemma WordOfNumber(w: bv32)
    ensures ToWord(w as int) == w
  {
    assert (w as int) as bv32 == w;
  }

  /** The address and length of an `m` or `M` command. */
  datatype Range = Range(address: bv32, length: bv32)

  /** The text before the first `sep` (all of it when there is none): `substr(0, find_first_of(sep))`. */
  function Before(t: string, sep: char): string
  {
    var c := Find(t, sep);
    if c < 0 then t else t[..c]
  }

  /** The text after the first `sep` (all of it when there is none, as `npos + 1` is 0). */
  function After(t: string, sep: char): string
  {
    t[Find(t, sep) + 1..]
  }

  /** The text of an `m` or `M` command without its leading spaces. */
  function Trimmed(s: string): string
  {
    s[SkipLeading(s, ' ')..]
  }

  /** The arguments of `m`: leading spaces skipped, then the address up to a comma and the length. */
  function ReadArgs(s: string): (r: Range)
    ensures Find(Trimmed(s), ',') < 0 ==> r.length == r.address
  {
    var t := Trimmed(s);
    Range(Low32(Strtol(Before(t, ','))), Low32(Strtol(After(t, ','))))
  }

  /** The address of byte `k` of a range: `address + i` in 32 bits. */
  function Address(r: Range, k: nat): bv32
    requires k < TWO32
  {
    r.address + ToWord(k)
  }

  /** `memory.load(address + k, 0b000)`, of which the reply keeps `bits(7, 0)`. */
  function ReadByte(m: MemState, r: Range, k: nat): Outcome<bv8>
    requires WellFormed(m) && k < TWO32
  {
    match LoadSpec(m, Address(r, k), DT_BYTE)
    case Throw(t) => Throw(t)
    case Normal(v) => Normal((v & 0xFF) as bv8)
  }

  /** `s` in front of a result; a throw stays as it is. */
  function Prepend(s: string, o: Outcome<string>): Outcome<string>
  {
    if o.Normal? then Normal(s + o.value) else o
  }

  /** What the `m` loop's first `n` loads give, byte by byte. */
  function Loads(m: MemState, r: Range, n: nat): seq<Outcome<bv8>>
    requires WellFormed(m) && n <= TWO32
  {
    seq(n, k requires 0 <= k < n => ReadByte(m, r, k))
  }

  /** The hex of each loaded byte in turn, or what the first failing load throws. */
  function HexOf(ls: seq<Outcome<bv8>>): Outcome<string>
  {
    if ls == [] then Normal([])
    else
      match ls[0]
      case Throw(t) => Throw(t)
      case Normal(b) => Prepend(ByteHex(b), HexOf(ls[1..]))
  }

  /** The reply to `m` over a range. */
  function MemoryHex(m: MemState, r: Range): (o: Outcome<string>)
    requires WellFormed(m)
    ensures o.Normal? <==> forall k :: 0 <= k < Count(r) ==> ReadByte(m, r, k).Normal?
    ensures o.Normal? ==> |o.value| == 2 * Count(r)
  {
    var ls := Loads(m, r, Count(r));
    LoadedSucceeds(m, r, Count(r));
    if HexOf(ls).Normal? then HexOfContents(ls); HexOf(ls) else HexOf(ls)
  }

  /** The text in front of a result is kept in front as more text is put in front of it. */
  lemma PrependTwice(a: string, b: string, o: Outcome<string>)
    ensures Prepend(a, Prepend(b, o)) == Prepend(a + b, o)
  {
    if o.Normal? {
      assert a + (b + o.value) == a + b + o.value;
    }
  }

  /** One more byte loaded by the `m` loop. */
  lemma HexOfStep(ls: seq<Outcome<bv8>>, i: nat)
    requires i < |ls| && ls[i].Normal?
    ensures HexOf(ls[i..]) == Prepend(ByteHex(ls[i].value), HexOf(ls[i + 1..]))
  {
    assert ls[i..][1..] == ls[i + 1..];
  }

  /** A failing load ends the hex there. */
  lemma HexOfStop(ls: seq<Outcome<bv8>>, i: nat)
    requires i < |ls| && ls[i].Throw?
    ensures HexOf(ls[i..]) == Throw(ls[i].thrown)
  {
  }

  /** One pass of the `m` loop: the byte load at `address + i`, low eight bits kept. */
  method ReadNextByte(mem: Memory, r: Range, i: nat, ghost m: MemState, ghost ls: seq<Outcome<bv8>>, ghost n: nat)
    returns (v: Outcome<bv8>)
    requires mem.Valid() && m == mem.Snapshot() && n <= TWO32 && ls == Loads(m, r, n) && i < n
    ensures v == ls[i]
  {
    LoadsAt(m, r, n, i);
    var w := mem.Load(Address(r, i), DT_BYTE);
    assert w == LoadSpec(m, Address(r, i), DT_BYTE);
    if w.Throw? {
      v := Throw(w.thrown);
    } else {
      v := Normal((w.value & 0xFF) as bv8);
    }
  }

  /** Before the `m` loop nothing is in front of the hex of all loads. */
  lemma ReadStart(ls: seq<Outcome<bv8>>)
    ensures HexOf(ls) == Prepend([], HexOf(ls[0..]))
  {
    assert ls[0..] == ls;
    assert HexOf(ls).Normal? ==> [] + HexOf(ls).value == HexOf(ls).value;
  }

  /** A pass of the `m` loop that loads a byte moves its hex in front. */
  lemma ReadStep(ls: seq<Outcome<bv8>>, i: nat, contents: string)
    requires i < |ls| && ls[i].Normal? && HexOf(ls) == Prepend(contents, HexOf(ls[i..]))
    ensures HexOf(ls) == Prepend(contents + ByteHex(ls[i].value), HexOf(ls[i + 1..]))
  {
    HexOfStep(ls, i);
    PrependTwice(contents, ByteHex(ls[i].value), HexOf(ls[i + 1..]));
  }

  /** After the last load the hex is all in front. */
  lemma ReadEnd(ls: seq<Outcome<bv8>>, contents: string)
    requires HexOf(ls) == Prepend(contents, HexOf(ls[|ls|..]))
    ensures HexOf(ls) == Normal(contents)
  {
    assert HexOf(ls[|ls|..]) == Normal([]);
    assert contents + [] == contents;
  }

  /** The `m` loop: a byte load per byte, `address + i` wrapping in 32 bits; a throw ends the loop. */
  method ReadMemory(mem: Memory, r: Range) returns (o: Outcome<string>)
    requires mem.Valid()
    ensures o == MemoryHex(mem.Snapshot(), r)
  {
    o := ReadBytes(mem, r, mem.Snapshot(), Loads(mem.Snapshot(), r, Count(r)), Count(r));
  }

  /** The loop of `ReadMemory`, over the loads it will see. */
  method ReadBytes(mem: Memory, r: Range, ghost m: MemState, ghost ls: seq<Outcome<bv8>>, n: nat) returns (o: Outcome<string>)
    requires mem.Valid() && m == mem.Snapshot() && n <= TWO32 && ls == Loads(m, r, n)
    ensures o == HexOf(ls)
  {
    var contents := [];
    var i := 0;
    ReadStart(ls);
    while i < n
      invariant 0 <= i <= n == |ls|
      invariant HexOf(ls) == Prepend(contents, HexOf(ls[i..]))
    {
      var v := ReadNextByte(mem, r, i, m, ls, n);
      if v.Throw? {
        HexOfStop(ls, i);
        return Throw(v.thrown);
      }
      ReadStep(ls, i, contents);
      contents := contents + ByteHex(v.value);
      i := i + 1;
    }
    ReadEnd(ls, contents);
    return Normal(contents);
  }

  /** The hex is a success exactly when every load is. */
  lemma {:induction false} HexOfSucceeds(ls: seq<Outcome<bv8>>)
    ensures HexOf(ls).Normal? <==> forall k :: 0 <= k < |ls| ==> ls[k].Normal?
  {
    if ls != [] {
      HexOfSucceeds(ls[1..]);
      assert forall k :: 1 <= k < |ls| ==> ls[k] == ls[1..][k - 1];
    }
  }

  /** Two characters `j` pieces into the text after `x` are the text's own. */
  lemma PairAfter<T>(x: seq<T>, y: seq<T>, j: nat)
    requires j + 2 <= |y|
    ensures (x + y)[|x| + j..|x| + j + 2] == y[j..j + 2]
  {
  }

  /** A successful hex has two digits per load, the `byte_2_string` of the byte loaded. */
  lemma {:induction false} HexOfContents(ls: seq<Outcome<bv8>>)
    requires HexOf(ls).Normal?
    ensures |HexOf(ls).value| == 2 * |ls|
    ensures forall k :: 0 <= k < |ls| ==> ls[k].Normal? && HexOf(ls).value[2 * k..2 * k + 2] == ByteHex(ls[k].value)
  {
    if ls != [] {
      HexOfContents(ls[1..]);
      var h, rest := ByteHex(ls[0].value), HexOf(ls[1..]).value;
      assert HexOf(ls).value == h + rest;
      forall k | 0 <= k < |ls|
        ensures ls[k].Normal? && (h + rest)[2 * k..2 * k + 2] == ByteHex(ls[k].value)
      {
        if k > 0 {
          assert ls[k] == ls[1..][k - 1];
          PairAfter(h, rest, 2 * (k - 1));
        }
      }
    }
  }

  /** A failed hex carries what the first failing load threw; every load before it succeeded. */
  lemma {:induction false} HexOfFirstFault(ls: seq<Outcome<bv8>>)
    requires HexOf(ls).Throw?
    ensures exists k :: 0 <= k < |ls| && ls[k] == Throw(HexOf(ls).thrown) && (forall j :: 0 <= j < k ==> ls[j].Normal?)
  {
    if ls[0].Normal? {
      HexOfFirstFault(ls[1..]);
      var k :| 0 <= k < |ls| - 1 && ls[1..][k] == Throw(HexOf(ls[1..]).thrown) && (forall j :: 0 <= j < k ==> ls[1..][j].Normal?);
      assert ls[k + 1] == ls[1..][k];
      assert forall j :: 0 <= j < k + 1 ==> ls[j].Normal? by {
        forall j | 0 <= j < k + 1 ensures ls[j].Normal? {
          if j > 0 {
            assert ls[j] == ls[1..][j - 1];
          }
        }
      }
    } else {
      assert ls[0] == Throw(HexOf(ls).thrown);
    }
  }

  /** The loads are the range's byte loads in order. */
  lemma LoadsAt(m: MemState, r: Range, n: nat, k: nat)
    requires WellFormed(m) && n <= TWO32 && k < n
    ensures |Loads(m, r, n)| == n && Loads(m, r, n)[k] == ReadByte(m, r, k)
  {
  }

  /** The first `n` loads all succeed exactly when each of those byte loads does. */
  lemma LoadedSucceeds(m: MemState, r: Range, n: nat)
    requires WellFormed(m) && n <= TWO32
    ensures HexOf(Loads(m, r, n)).Normal? <==> forall k :: 0 <= k < n ==> ReadByte(m, r, k).Normal?
  {
    var ls := Loads(m, r, n);
    HexOfSucceeds(ls);
    if forall k :: 0 <= k < n ==> ReadByte(m, r, k).Normal? {
      forall k | 0 <= k < |ls|
        ensures ls[k].Normal?
      {
        LoadsAt(m, r, n, k);
      }
    } else {
      var k :| 0 <= k < n && !ReadByte(m, r, k).Normal?;
      LoadsAt(m, r, n, k);
    }
  }

  /** The hex of `n` successful loads: two digits per byte loaded. */
  lemma LoadedBytes(m: MemState, r: Range, n: nat, k: nat)
    requires WellFormed(m) && n <= TWO32 && HexOf(Loads(m, r, n)).Normal? && k < n
    ensures |HexOf(Loads(m, r, n)).value| == 2 * n
    ensures ReadByte(m, r, k).Normal? && HexOf(Loads(m, r, n)).value[2 * k..2 * k + 2] == ByteHex(ReadByte(m, r, k).value)
  {
    HexOfContents(Loads(m, r, n));
    LoadsAt(m, r, n, k);
  }

  /** A failed hex of `n` loads: the first failing byte load's throw. */
  lemma LoadedFault(m: MemState, r: Range, n: nat)
    requires WellFormed(m) && n <= TWO32 && HexOf(Loads(m, r, n)).Throw?
    ensures exists k :: (0 <= k < n && ReadByte(m, r, k) == Throw(HexOf(Loads(m, r, n)).thrown) &&
      (forall j :: 0 <= j < k ==> ReadByte(m, r, j).Normal?))
  {
    var ls := Loads(m, r, n);
    HexOfFirstFault(ls);
    var k :| 0 <= k < |ls| && ls[k] == Throw(HexOf(ls).thrown) && (forall j :: 0 <= j < k ==> ls[j].Normal?);
    LoadsAt(m, r, n, k);
    forall j | 0 <= j < k
      ensures ReadByte(m, r, j).Normal?
    {
      LoadsAt(m, r, n, j);
    }
  }

  /** `m` replies with data exactly when every byte of the range loads. */
  lemma MemoryHexSucceeds(m: MemState, r: Range)
    requires WellFormed(m)
    ensures MemoryHex(m, r).Normal? <==> forall k :: 0 <= k < r.length as int ==> ReadByte(m, r, k).Normal?
  {
    WordRange(r.length);
    LoadedSucceeds(m, r, Count(r));
  }

  /** A reply with data has two hex digits per byte, the `byte_2_string` of the byte loaded there. */
  lemma MemoryHexBytes(m: MemState, r: Range, k: nat)
    requires WellFormed(m) && MemoryHex(m, r).Normal? && k < r.length as int
    ensures |MemoryHex(m, r).value| == 2 * r.length as int
    ensures ReadByte(m, r, k).Normal? && MemoryHex(m, r).value[2 * k..2 * k + 2] == ByteHex(ReadByte(m, r, k).value)
  {
    WordRange(r.length);
    LoadedBytes(m, r, Count(r), k);
  }

  /** A failed `m` carries what the first failing byte load threw; every byte before it loaded. */
  lemma MemoryHexFault(m: MemState, r: Range)
    requires WellFormed(m) && MemoryHex(m, r).Throw?
    ensures exists k :: (0 <= k < r.length as int && ReadByte(m, r, k) == Throw(MemoryHex(m, r).thrown) &&
      (forall j :: 0 <= j < k ==> ReadByte(m, r, j).Normal?))
  {
    WordRange(r.length);
    LoadedFault(m, r, Count(r));
  }

  /** `m` reads back the address and length written as hex numbers around a comma. */
  lemma ReadArgsRoundTrip(a: bv32, n: bv32, k: nat, l: nat)
    requires 0 < k && a as int < Pow16(k) && 0 < l && n as int < Pow16(l)
    ensures ReadArgs(HexDigits(a as int, k) + "," + HexDigits(n as int, l)) == Range(a, n)
  {
    CommaSplit(HexDigits(a as int, k), HexDigits(n as int, l));
    NumberRoundTrip(a, k);
    NumberRoundTrip(n, l);
  }

  /** Digits, a comma and more text: the digits come before the comma and the text after it. */
  lemma CommaSplit(x: string, y: string)
    requires 0 < |x| && AllHex(x)
    ensures Before(Trimmed(x + "," + y), ',') == x && After(Trimmed(x + "," + y), ',') == y
  {
    var s := x + "," + y;
    assert s[0] == x[0] && IsHexDigit(x[0]);
    NothingTrimmed(s);
    assert s == x + [','] + y;
    Separators();
    SeparatorSplit(x, ',', y);
  }

  /** Neither the comma nor the colon is a hex digit. */
  lemma Separators()
    ensures !IsHexDigit(',') && !IsHexDigit(':')
  {
    assert DigitValue(',') == -1 && DigitValue(':') == -1;
  }

  /** Text that starts with a digit has no leading spaces to skip. */
  lemma NothingTrimmed(s: string)
    requires 0 < |s| && IsHexDigit(s[0])
    ensures Trimmed(s) == s
  {
    assert s[0..] == s;
  }

  /** Digits, a separator that is not a digit and more text split at the separator. */
  lemma SeparatorSplit(x: string, sep: char, y: string)
    requires AllHex(x) && !IsHexDigit(sep)
    ensures Before(x + [sep] + y, sep) == x && After(x + [sep] + y, sep) == y
  {
    var s := x + [sep] + y;
    assert s[|x|] == sep;
    assert forall j :: 0 <= j < |x| ==> s[j] == x[j] && IsHexDigit(x[j]);
    assert Find(s, sep) == |x|;
    assert s[..|x|] == x && s[|x| + 1..] == y;
  }

  /** A word's digits read by `strtol` and cast to 32 bits give the word. */
  lemma NumberRoundTrip(w: bv32, k: nat)
    requires 0 < k && w as int < Pow16(k)
    ensures Low32(Strtol(HexDigits(w as int, k))) == w
  {
    WordRange(w);
    DigitsStrtol(w as int, k);
    WordRoundTrip32(w);
  }

  // The `M` command: `M<address>,<length>:<data>` stores `length` bytes, two digits each.

  /** The arguments of `M`: the range, and the data after the colon. */
  datatype WriteCommand = WriteCommand(range: Range, data: string)

  /** Leading spaces skipped, the address up to a comma, the length up to a colon, then the data. */
  function WriteArgs(s: string): (c: WriteCommand)
    ensures Find(After(Trimmed(s), ','), ':') < 0 ==> c.data == After(Trimmed(s), ',')
  {
    var t := Trimmed(s);
    var u := After(t, ',');
    WriteCommand(Range(Low32(Strtol(Before(t, ','))), Low32(Strtol(Before(u, ':')))), After(u, ':'))
  }

  /** The `M` loop from byte `i` of `n` on: a byte store per two characters; a throw ends it. */
  function StoreBytes(m: MemState, r: Range, data: string, i: nat, n: nat): (st: Stored)
    requires WellFormed(m) && i <= n <= TWO32
    ensures WellFormed(st.mem)
    decreases n - i
  {
    if i == n then Stored(m, Normal(()))
    else
      var st := StoreSpec(m, Address(r, i), DT_BYTE, FieldValue(data));
      if st.result.Throw? then st else StoreBytes(st.mem, r, Drop(data, 2), i + 1, n)
  }

  /** The memory after `M`, and whether a store threw. */
  function MemoryWrite(m: MemState, c: WriteCommand): (st: Stored)
    requires WellFormed(m)
    ensures WellFormed(st.mem)
  {
    StoreBytes(m, c.range, c.data, 0, Count(c.range))
  }

  /** The number of bytes of a range. */
  function Count(r: Range): (n: nat)
    ensures n < TWO32 && n == r.length as int
  {
    WordRange(r.length);
    r.length as int
  }

  /** One pass of the `M` loop: the byte store at `address + i`. */
  method StoreNextByte(mem: Memory, r: Range, rest: string, i: nat) returns (o: Outcome<()>)
    requires mem.Valid() && i < TWO32
    modifies mem, mem.csr, mem.userRam, mem.kernelRam
    ensures mem.Valid() && Stored(mem.Snapshot(), o) == StoreSpec(old(mem.Snapshot()), Address(r, i), DT_BYTE, FieldValue(rest))
  {
    var byte := FieldValue(rest);
    o := mem.Store(Address(r, i), DT_BYTE, byte);
  }

  /** A pass of the `M` loop whose store succeeds leaves the rest of the loop to do the rest. */
  lemma StoreStep(m: MemState, r: Range, data: string, i: nat, n: nat, st: Stored)
    requires WellFormed(m) && i < n <= TWO32 && st == StoreSpec(m, Address(r, i), DT_BYTE, FieldValue(data))
    ensures st.result.Throw? ==> StoreBytes(m, r, data, i, n) == st
    ensures st.result.Normal? ==> StoreBytes(m, r, data, i, n) == StoreBytes(st.mem, r, Drop(data, 2), i + 1, n)
  {
  }

  /** The `M` loop: `store(address + i, 0b000, byte)` for each byte in turn, the data read two digits at a time. */
  method WriteMemory(mem: Memory, c: WriteCommand) returns (o: Outcome<()>)
    requires mem.Valid()
    modifies mem, mem.csr, mem.userRam, mem.kernelRam
    ensures mem.Valid() && Stored(mem.Snapshot(), o) == MemoryWrite(old(mem.Snapshot()), c)
  {
    o := StoreAll(mem, c.range, c.data, Count(c.range));
  }

  /** The loop of `WriteMemory`, over `n` bytes. */
  method StoreAll(mem: Memory, r: Range, data: string, n: nat) returns (o: Outcome<()>)
    requires mem.Valid() && n <= TWO32
    modifies mem, mem.csr, mem.userRam, mem.kernelRam
    ensures mem.Valid() && Stored(mem.Snapshot(), o) == StoreBytes(old(mem.Snapshot()), r, data, 0, n)
  {
    ghost var goal := StoreBytes(mem.Snapshot(), r, data, 0, n);
    var rest := data;
    var i := 0;
    while i < n
      invariant 0 <= i <= n && mem.Valid()
      invariant goal == StoreBytes(mem.Snapshot(), r, rest, i, n)
    {
      ghost var before := mem.Snapshot();
      o := StoreNextByte(mem, r, rest, i);
      StoreStep(before, r, rest, i, n, Stored(mem.Snapshot(), o));
      if o.Throw? {
        return;
      }
      rest := Drop(rest, 2);
      i := i + 1;
    }
    o := Normal(());
  }

  /** `M` reads back the address, the length and the data written around a comma and a colon. */
  lemma WriteArgsRoundTrip(a: bv32, n: bv32, k: nat, l: nat, data: string)
    requires 0 < k && a as int < Pow16(k) && 0 < l && n as int < Pow16(l)
    ensures WriteArgs(HexDigits(a as int, k) + "," + HexDigits(n as int, l) + ":" + data) == WriteCommand(Range(a, n), data)
  {
    WriteArgsPieces(HexDigits(a as int, k), HexDigits(n as int, l), data);
    NumberRoundTrip(a, k);
    NumberRoundTrip(n, l);
  }

  /** The `M` arguments of digits, a comma, digits, a colon and data. */
  lemma WriteArgsPieces(x: string, y: string, data: string)
    requires 0 < |x| && AllHex(x) && AllHex(y)
    ensures WriteArgs(x + "," + y + ":" + data) == WriteCommand(Range(Low32(Strtol(x)), Low32(Strtol(y))), data)
  {
    WriteArgsSplit(x, y, data);
  }

  /** Digits, a comma, digits, a colon and data: the three pieces `M` takes apart. */
  lemma WriteArgsSplit(x: string, y: string, data: string)
    requires 0 < |x| && AllHex(x) && AllHex(y)
    ensures var t := Trimmed(x + "," + y + ":" + data);
      Before(t, ',') == x && Before(After(t, ','), ':') == y && After(After(t, ','), ':') == data
  {
    assert x + "," + y + ":" + data == x + "," + (y + ":" + data);
    CommaSplit(x, y + ":" + data);
    Separators();
    SeparatorSplit(y, ':', data);
  }

  /** A byte stored without translation into the user RAM is stored, and a byte load there sees it. */
  lemma ByteStoreLoad(m: MemState, a: bv32, d: bv32)
    requires WellFormed(m) && NoTranslation(m.csr, LoadAccess) && NoTranslation(m.csr, StoreAccess)
    requires a as int <= USER_RAM_END
    ensures var st := StoreSpec(m, a, DT_BYTE, d);
      st.result == Normal(()) && LoadSpec(st.mem, a, DT_BYTE) == Normal(SignExtendFromBit(d & 0xFF, 7))
  {
    IrveMemoryFacts.Untranslated(m, a, StoreAccess);
    IrveMemoryFacts.RamRouting(m, a as int, DT_BYTE, d);
    IrveMemoryFacts.RamByteRoundTrip(m.user, USER_RAM_START, a as int, d);
    var st := StoreSpec(m, a, DT_BYTE, d);
    assert st.mem == m.(user := RamWrite(m.user, USER_RAM_START, a as int, DT_BYTE, d).0);
    IrveMemoryFacts.Untranslated(st.mem, a, LoadAccess);
    IrveMemoryFacts.RamRouting(st.mem, a as int, DT_SIGNED_BYTE, d);
  }

  /** The low byte of a sign-extended byte is the byte. */
  lemma SignedByteLow(b: bv8)
    ensures (SignExtendFromBit((b as bv32) & 0xFF, 7) & 0xFF) as bv8 == b
  {
  }

  /** One byte written by `M` into the untranslated user RAM is read back by `m` as its two digits. */
  lemma WriteThenRead(m: MemState, a: bv32, b: bv8)
    requires WellFormed(m) && NoTranslation(m.csr, LoadAccess) && NoTranslation(m.csr, StoreAccess)
    requires a as int <= USER_RAM_END
    ensures var st := MemoryWrite(m, WriteCommand(Range(a, 1), ByteHex(b)));
      st.result == Normal(()) && MemoryHex(st.mem, Range(a, 1)) == Normal(ByteHex(b))
  {
    OneByteWrite(m, a, b);
    ByteStoreLoad(m, a, b as bv32);
    var st := StoreSpec(m, a, DT_BYTE, b as bv32);
    OneByteLoad(st.mem, a, b);
    OneByteRead(st.mem, a, b);
  }

  /** `M` of one byte is one byte store of it. */
  lemma OneByteWrite(m: MemState, a: bv32, b: bv8)
    requires WellFormed(m)
    ensures MemoryWrite(m, WriteCommand(Range(a, 1), ByteHex(b))) == StoreSpec(m, a, DT_BYTE, b as bv32)
  {
    OneStore(m, Range(a, 1), ByteHex(b));
    OneByteArgs(a, b);
  }

  /** `M` of one byte is the byte store of its first field at the range's address. */
  lemma OneStore(m: MemState, r: Range, data: string)
    requires WellFormed(m) && r.length == 1
    ensures MemoryWrite(m, WriteCommand(r, data)) == StoreSpec(m, Address(r, 0), DT_BYTE, FieldValue(data))
  {
    assert Count(r) == 1;
    StoreStep(m, r, data, 0, 1, StoreSpec(m, Address(r, 0), DT_BYTE, FieldValue(data)));
  }

  /** The address of the first byte is the range's, and the digits of a byte read back as the byte. */
  lemma OneByteArgs(a: bv32, b: bv8)
    ensures Address(Range(a, 1), 0) == a && FieldValue(ByteHex(b)) == b as bv32
  {
    assert ByteHex(b) + [] == ByteHex(b);
    FieldOfByte(b, []);
  }

  /** A byte load that sees a sign-extended byte gives `m` that byte. */
  lemma OneByteLoad(m: MemState, a: bv32, b: bv8)
    requires WellFormed(m) && LoadSpec(m, a, DT_BYTE) == Normal(SignExtendFromBit((b as bv32) & 0xFF, 7))
    ensures ReadByte(m, Range(a, 1), 0) == Normal(b)
  {
    assert Address(Range(a, 1), 0) == a;
    SignedByteLow(b);
  }

  /** `m` of one byte that loads replies with its two digits. */
  lemma OneByteRead(m: MemState, a: bv32, b: bv8)
    requires WellFormed(m) && ReadByte(m, Range(a, 1), 0) == Normal(b)
    ensures MemoryHex(m, Range(a, 1)) == Normal(ByteHex(b))
  {
    var r := Range(a, 1);
    assert Count(r) == 1;
    var ls := Loads(m, r, 1);
    assert ls == [Normal(b)];
    assert HexOf(ls[1..]) == Normal([]);
    assert HexOf(ls) == Prepend(ByteHex(b), HexOf(ls[1..]));
    assert ByteHex(b) + [] == ByteHex(b);
    assert MemoryHex(m, r) == HexOf(ls);
  }
}
