// XRVE: the RAM memory handler, and the little-endian multi-byte accesses that every
// memory handler inherits from the byte accesses it implements.

module XrveRam {
  import opened Common
  import opened XrveHandler

  /** Every byte of a fresh RAM holds this pattern. */
  const RESET_CONTENTS: bv8 := 0xA5

  /** The three criteria a RAM publishes: fetch, read and write of any size from `lo` to `hi`, both inclusive. */
  function RamCriteria(lo: u32, hi: u32): (r: seq<MatchCriteria>)
    ensures |r| == 3
    ensures forall c :: c in r ==> c.AddressRange? && c.asize == AllSizes && c.start == lo && c.end == hi
    ensures r[0].atype == Fetch && r[1].atype == Read && r[2].atype == Write
  {
    [AddressRange(Fetch, AllSizes, lo, hi), AddressRange(Read, AllSizes, lo, hi), AddressRange(Write, AllSizes, lo, hi)]
  }

  // Little-endian composition and decomposition, used by the default multi-byte accesses.

  function Le16(b0: bv8, b1: bv8): bv16 { (b0 as bv16) | ((b1 as bv16) << 8) }

  function Le32(b0: bv8, b1: bv8, b2: bv8, b3: bv8): bv32
  {
    (b0 as bv32) | ((b1 as bv32) << 8) | ((b2 as bv32) << 16) | ((b3 as bv32) << 24)
  }

  /** The bytes the default `write_halfword` stores, lowest address first. */
  function HalfwordBytes(h: bv16): (r: seq<bv8>)
    ensures |r| == 2 && Le16(r[0], r[1]) == h
  {
    [(h & 0xFF) as bv8, (h >> 8) as bv8]
  }

  /** The bytes the default `write_word` stores, lowest address first. */
  function WordBytes(w: bv32): (r: seq<bv8>)
    ensures |r| == 4 && Le32(r[0], r[1], r[2], r[3]) == w
  {
    [(w & 0xFF) as bv8, ((w >> 8) & 0xFF) as bv8, ((w >> 16) & 0xFF) as bv8, (w >> 24) as bv8]
  }

  /** `s` with `bytes` written from index `i` on. */
  function Splice(s: seq<bv8>, i: nat, bytes: seq<bv8>): (r: seq<bv8>)
    requires i + |bytes| <= |s|
    ensures |r| == |s|
    ensures forall k :: 0 <= k < |s| ==> r[k] == if i <= k < i + |bytes| then bytes[k - i] else s[k]
  {
    s[..i] + bytes + s[i + |bytes|..]
  }

  /** A word written with the default `write_word` reads back with the default `read_word`, and no other byte changes. */
  lemma WordRoundTrip(s: seq<bv8>, i: nat, w: bv32)
    requires i + 4 <= |s|
    ensures var t := Splice(s, i, WordBytes(w));
      Le32(t[i], t[i + 1], t[i + 2], t[i + 3]) == w &&
      forall k :: 0 <= k < |s| && !(i <= k < i + 4) ==> t[k] == s[k]
  {
  }

  lemma HalfwordRoundTrip(s: seq<bv8>, i: nat, h: bv16)
    requires i + 2 <= |s|
    ensures var t := Splice(s, i, HalfwordBytes(h));
      Le16(t[i], t[i + 1]) == h &&
      forall k :: 0 <= k < |s| && !(i <= k < i + 2) ==> t[k] == s[k]
  {
  }

  class Ram {
    const start: u32
    const backing: array<bv8>
    const criteria: seq<MatchCriteria>

    ghost predicate Valid()
    {
      0 < backing.Length && start + backing.Length < 0x1_0000_0000 &&
      criteria == RamCriteria(start, start + backing.Length)
    }

    /** One past the last byte: also the (inclusive) upper bound of the published criteria. */
    function EndAddr(): (e: u32)
      requires Valid()
      ensures e == start + backing.Length && e > start
    {
      start + backing.Length
    }

    /** The address `a` is backed by a byte of this RAM. */
    predicate Holds(a: int)
      requires Valid()
    {
      start <= a < EndAddr()
    }

    /** The byte this RAM holds at address `a`. */
    ghost function At(a: int): bv8
      requires Valid() && Holds(a)
      reads backing
    {
      backing[a - start]
    }

    /**
     * `size` must be positive, and `start_addr + size` must fit in 32 bits
     * (`end_addr` adds them with overflow checking).
     */
    constructor (start_addr: u32, size: u32)
      requires size > 0
      requires start_addr + size < 0x1_0000_0000
      ensures Valid() && fresh(backing)
      ensures start == start_addr && backing.Length == size
      ensures forall k :: 0 <= k < size ==> backing[k] == RESET_CONTENTS
      ensures criteria == RamCriteria(start_addr, start_addr + size)
    {
      start := start_addr;
      backing := new bv8[size](_ => RESET_CONTENTS);
      criteria := RamCriteria(start_addr, start_addr + size);
    }

    /** A copy of the criteria; they are fixed at construction, so accesses never alter them. */
    function GetMatchCriteria(): (r: seq<MatchCriteria>)
      requires Valid()
      ensures |r| == 3
      ensures r[0] == AddressRange(Fetch, AllSizes, start, EndAddr())
      ensures r[1] == AddressRange(Read, AllSizes, start, EndAddr())
      ensures r[2] == AddressRange(Write, AllSizes, start, EndAddr())
    {
      criteria
    }

    method ReadByte(addr: u32) returns (d: bv8)
      requires Valid() && Holds(addr)
      ensures d == At(addr)
    {
      d := backing[addr - start];
    }

    method WriteByte(addr: u32, data: bv8)
      requires Valid() && Holds(addr)
      modifies backing
      ensures backing[..] == old(backing[..])[addr - start := data]
    {
      backing[addr - start] := data;
    }

    // The trait's default multi-byte accesses, built from ReadByte and WriteByte.

    method FetchByte(addr: u32) returns (d: bv8)
      requires Valid() && Holds(addr)
      ensures d == At(addr)
    {
      d := ReadByte(addr);
    }

    method ReadHalfword(addr: u32) returns (h: bv16)
      requires Valid() && Holds(addr) && Holds(addr + 1)
      ensures h == Le16(At(addr), At(addr + 1))
    {
      var b0 := ReadByte(addr);
      var data := b0 as bv16;
      var b1 := ReadByte(addr + 1);
      data := data | ((b1 as bv16) << 8);
      h := data;
    }

    method FetchHalfword(addr: u32) returns (h: bv16)
      requires Valid() && Holds(addr) && Holds(addr + 1)
      ensures h == Le16(At(addr), At(addr + 1))
    {
      h := ReadHalfword(addr);
    }

    method ReadWord(addr: u32) returns (w: bv32)
      requires Valid() && Holds(addr) && Holds(addr + 3)
      ensures w == Le32(At(addr), At(addr + 1), At(addr + 2), At(addr + 3))
    {
      var b0 := ReadByte(addr);
      var data := b0 as bv32;
      var b1 := ReadByte(addr + 1);
      data := data | ((b1 as bv32) << 8);
      var b2 := ReadByte(addr + 2);
      data := data | ((b2 as bv32) << 16);
      var b3 := ReadByte(addr + 3);
      data := data | ((b3 as bv32) << 24);
      w := data;
    }

    method FetchWord(addr: u32) returns (w: bv32)
      requires Valid() && Holds(addr) && Holds(addr + 3)
      ensures w == Le32(At(addr), At(addr + 1), At(addr + 2), At(addr + 3))
    {
      w := ReadWord(addr);
    }

    method WriteHalfword(addr: u32, data: bv16)
      requires Valid() && Holds(addr) && Holds(addr + 1)
      modifies backing
      ensures backing[..] == Splice(old(backing[..]), addr - start, HalfwordBytes(data))
    {
      WriteByte(addr, (data & 0xFF) as bv8);
      WriteByte(addr + 1, (data >> 8) as bv8);
    }

    method WriteWord(addr: u32, data: bv32)
      requires Valid() && Holds(addr) && Holds(addr + 3)
      modifies backing
      ensures backing[..] == Splice(old(backing[..]), addr - start, WordBytes(data))
    {
      WriteByte(addr, (data & 0xFF) as bv8);
      WriteByte(addr + 1, ((data >> 8) & 0xFF) as bv8);
      WriteByte(addr + 2, ((data >> 16) & 0xFF) as bv8);
      WriteByte(addr + 3, (data >> 24) as bv8);
    }
  }
}
