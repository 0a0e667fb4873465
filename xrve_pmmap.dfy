// XRVE: the physical memory map, which routes each access to the first registered
// handler that publishes a criterion accepting it.

module XrvePmmap {
  import opened Common
  import opened XrveHandler
  import opened XrveRam

  /** Bytes covered by an access of size `s`. */
  function Width(s: AccessSize): (w: nat)
    requires s != AllSizes
    ensures w in {1, 2, 4}
  {
    match s
    case Byte => 1
    case Halfword => 2
    case Word => 4
  }

  /** Halfwords must be at even addresses and words at multiples of 4; bytes are never misaligned. */
  predicate Aligned(addr: u32, s: AccessSize)
    requires s != AllSizes
  {
    match s
    case Byte => true
    case Halfword => addr % 2 == 0
    case Word => addr % 4 == 0
  }

  /** Some criterion the handler publishes accepts the access. */
  predicate HandlerMatches(h: Ram, addr: u32, t: AccessType, s: AccessSize)
  {
    exists c :: c in h.criteria && CriteriaSatisfies(c, t, s, addr)
  }

  /** The index of the first handler, in registration order, that accepts the access. */
  function FirstMatch(hs: seq<Ram>, addr: u32, t: AccessType, s: AccessSize): (r: Option<nat>)
    ensures r.Some? ==> r.value < |hs| && HandlerMatches(hs[r.value], addr, t, s)
    ensures r.Some? ==> forall j :: 0 <= j < r.value ==> !HandlerMatches(hs[j], addr, t, s)
    ensures r.None? <==> forall j :: 0 <= j < |hs| ==> !HandlerMatches(hs[j], addr, t, s)
    decreases |hs|
  {
    if |hs| == 0 then None
    else if HandlerMatches(hs[0], addr, t, s) then Some(0)
    else match FirstMatch(hs[1..], addr, t, s)
      case None => None
      case Some(k) => Some(k + 1)
  }

  /** What `search` answers: misalignment first, then the first matching handler. */
  function SearchResult(hs: seq<Ram>, addr: u32, t: AccessType, s: AccessSize): Result<nat>
    requires s != AllSizes
  {
    if !Aligned(addr, s) then Err
    else match FirstMatch(hs, addr, t, s)
      case None => Err
      case Some(k) => Ok(k)
  }

  /** Registering another handler never changes where an access that already routes goes. */
  lemma {:induction false} FirstMatchStable(hs: seq<Ram>, h: Ram, addr: u32, t: AccessType, s: AccessSize)
    requires FirstMatch(hs, addr, t, s).Some?
    ensures FirstMatch(hs + [h], addr, t, s) == FirstMatch(hs, addr, t, s)
  {
    if !HandlerMatches(hs[0], addr, t, s) {
      assert (hs + [h])[1..] == hs[1..] + [h];
      FirstMatchStable(hs[1..], h, addr, t, s);
    }
  }

  /** ... and an access that did not route goes to the new handler exactly when it accepts it. */
  lemma {:induction false} FirstMatchAppended(hs: seq<Ram>, h: Ram, addr: u32, t: AccessType, s: AccessSize)
    requires FirstMatch(hs, addr, t, s).None?
    ensures FirstMatch(hs + [h], addr, t, s) == if HandlerMatches(h, addr, t, s) then Some(|hs|) else None
  {
    if |hs| > 0 {
      assert (hs + [h])[1..] == hs[1..] + [h];
      FirstMatchAppended(hs[1..], h, addr, t, s);
    } else {
      assert hs + [h] == [h];
    }
  }

  /** A misaligned halfword or word fails whatever is registered. */
  lemma MisalignedAlwaysFails(hs: seq<Ram>, addr: u32, t: AccessType, s: AccessSize)
    requires s != AllSizes && !Aligned(addr, s)
    ensures SearchResult(hs, addr, t, s) == Err
    ensures s != Byte
  {
  }

  /** The RAM accepts exactly the fetches, reads and writes from its start to its end address inclusive. */
  lemma RamMatches(r: Ram, addr: u32, t: AccessType, s: AccessSize)
    requires r.Valid()
    ensures HandlerMatches(r, addr, t, s) <==> t != AllTypes && r.start <= addr <= r.EndAddr()
  {
    var cs := r.criteria;
    if t != AllTypes && r.start <= addr <= r.EndAddr() {
      var c := if t == Fetch then cs[0] else if t == Read then cs[1] else cs[2];
      assert c in cs && CriteriaSatisfies(c, t, s, addr);
    }
    if HandlerMatches(r, addr, t, s) {
      var c :| c in cs && CriteriaSatisfies(c, t, s, addr);
      assert c == cs[0] || c == cs[1] || c == cs[2];
    }
  }

  /**
   * The end address of a RAM routes to it, although the RAM has no byte there: the
   * criteria's upper bound is inclusive and equals `start + size`.
   */
  lemma EndAddressRoutesToRam(r: Ram)
    requires r.Valid() && r.EndAddr() % 4 == 0
    ensures SearchResult([r], r.EndAddr(), Read, Word) == Ok(0)
    ensures !r.Holds(r.EndAddr())
  {
    RamMatches(r, r.EndAddr(), Read, Word);
  }

  /** The expectations of the search tests, for an empty map and for one RAM at 0x1234 of size 0x5678. */
  lemma SearchSanity(r: Ram)
    requires r.Valid() && r.start == 0x1234 && r.backing.Length == 0x5678
    ensures forall a: u32, t, s | s != AllSizes :: SearchResult([], a, t, s) == Err
    ensures SearchResult([r], 0x1238, Read, Byte).Ok?
    ensures SearchResult([r], 0x123C, Read, Halfword).Ok?
    ensures SearchResult([r], 0x1240, Read, Word).Ok?
    ensures SearchResult([r], 0x1248, Write, Byte).Ok?
    ensures SearchResult([r], 0x124C, Write, Halfword).Ok?
    ensures SearchResult([r], 0x1250, Write, Word).Ok?
    ensures forall t, s | t in {Read, Write} && s in {Byte, Halfword, Word} :: SearchResult([r], 0x1000, t, s) == Err
    ensures forall a: u32, t, s | a in {0x123B, 0x1247, 0x1001} && s == Halfword :: SearchResult([r], a, t, s) == Err
    ensures forall a: u32, t, s | a in {0x123F, 0x124B, 0x1001} && s == Word :: SearchResult([r], a, t, s) == Err
  {
    forall a: u32, t, s | t != AllTypes && s != AllSizes ensures HandlerMatches(r, a, t, s) <==> 0x1234 <= a <= 0x68AC {
      RamMatches(r, a, t, s);
    }
    forall t, s | t in {Read, Write} && s in {Byte, Halfword, Word} ensures SearchResult([r], 0x1000, t, s) == Err {
      RamMatches(r, 0x1000, t, s);
    }
  }

  class PhysicalMemoryMap {
    var handlers: seq<Ram>

    /** Every handler is a well-formed RAM, and no two handlers share a buffer (each is owned by the map). */
    ghost predicate Valid()
      reads this
    {
      (forall i :: 0 <= i < |handlers| ==> handlers[i].Valid()) &&
      (forall i, j :: 0 <= i < j < |handlers| ==> handlers[i].backing != handlers[j].backing)
    }

    ghost function Backings(): set<array<bv8>>
      reads this
    {
      set i | 0 <= i < |handlers| :: handlers[i].backing
    }

    constructor ()
      ensures Valid() && handlers == []
    {
      handlers := [];
    }

    method RegisterHandler(h: Ram)
      requires Valid() && h.Valid() && h.backing !in Backings()
      modifies this
      ensures Valid() && handlers == old(handlers) + [h]
    {
      handlers := handlers + [h];
    }

    /** `search`: `AllSizes` is not a valid request (the source panics on it). */
    method Search(addr: u32, t: AccessType, s: AccessSize) returns (r: Result<nat>)
      requires s != AllSizes
      ensures r == SearchResult(handlers, addr, t, s)
      ensures r.Ok? ==> r.value < |handlers| && HandlerMatches(handlers[r.value], addr, t, s)
      ensures r.Ok? ==> forall j :: 0 <= j < r.value ==> !HandlerMatches(handlers[j], addr, t, s)
      ensures r.Err? <==> !Aligned(addr, s) || forall j :: 0 <= j < |handlers| ==> !HandlerMatches(handlers[j], addr, t, s)
    {
      match s {
        case Byte =>
        case Halfword => if addr % 2 != 0 { return Err; }
        case Word => if addr % 4 != 0 { return Err; }
      }
      var i := 0;
      while i < |handlers|
        invariant 0 <= i <= |handlers|
        invariant forall j :: 0 <= j < i ==> !HandlerMatches(handlers[j], addr, t, s)
      {
        var criteria := handlers[i].criteria;
        var k := 0;
        while k < |criteria|
          invariant 0 <= k <= |criteria|
          invariant forall m :: 0 <= m < k ==> !CriteriaSatisfies(criteria[m], t, s, addr)
        {
          if CriteriaSatisfies(criteria[k], t, s, addr) {
            return Ok(i);
          }
          k := k + 1;
        }
        i := i + 1;
      }
      return Err;
    }

    /** The search for an access finds a handler only when that handler has bytes for the whole access. */
    ghost predicate Backed(addr: u32, t: AccessType, s: AccessSize)
      requires Valid() && s != AllSizes
      reads this
    {
      var r := SearchResult(handlers, addr, t, s);
      r.Ok? ==> handlers[r.value].Holds(addr) && handlers[r.value].Holds(addr + Width(s) - 1)
    }

    /** The byte handler `k` holds at `addr`. */
    ghost function ByteAt(k: nat, addr: int): bv8
      requires Valid() && k < |handlers| && handlers[k].Holds(addr)
      reads this, handlers[k].backing
    {
      handlers[k].At(addr)
    }

    /** What a halfword access of type `t` at `addr` answers: the routed handler's two bytes, little-endian. */
    ghost function HalfwordAt(addr: u32, t: AccessType): Result<bv16>
      requires Valid() && Backed(addr, t, Halfword)
      reads this, Backings()
    {
      var k := SearchResult(handlers, addr, t, Halfword);
      if k.Err? then Err else Ok(Le16(ByteAt(k.value, addr), ByteAt(k.value, addr + 1)))
    }

    method FetchByte(addr: u32) returns (r: Result<bv8>)
      requires Valid() && Backed(addr, Fetch, Byte)
      ensures var k := SearchResult(handlers, addr, Fetch, Byte);
        r == if k.Err? then Err else Ok(ByteAt(k.value, addr))
    {
      var k := Search(addr, Fetch, Byte);
      if k.Err? { return Err; }
      var d := handlers[k.value].FetchByte(addr);
      r := Ok(d);
    }

    method ReadByte(addr: u32) returns (r: Result<bv8>)
      requires Valid() && Backed(addr, Read, Byte)
      ensures var k := SearchResult(handlers, addr, Read, Byte);
        r == if k.Err? then Err else Ok(ByteAt(k.value, addr))
    {
      var k := Search(addr, Read, Byte);
      if k.Err? { return Err; }
      var d := handlers[k.value].ReadByte(addr);
      r := Ok(d);
    }

    method FetchHalfword(addr: u32) returns (r: Result<bv16>)
      requires Valid() && Backed(addr, Fetch, Halfword)
      ensures r == HalfwordAt(addr, Fetch)
    {
      var k := Search(addr, Fetch, Halfword);
      if k.Err? { return Err; }
      var h := handlers[k.value].FetchHalfword(addr);
      r := Ok(h);
    }

    method ReadHalfword(addr: u32) returns (r: Result<bv16>)
      requires Valid() && Backed(addr, Read, Halfword)
      ensures r == HalfwordAt(addr, Read)
    {
      var k := Search(addr, Read, Halfword);
      if k.Err? { return Err; }
      var h := handlers[k.value].ReadHalfword(addr);
      r := Ok(h);
    }

    method FetchWord(addr: u32) returns (r: Result<bv32>)
      requires Valid() && Backed(addr, Fetch, Word)
      ensures var k := SearchResult(handlers, addr, Fetch, Word);
        r == if k.Err? then Err else
          Ok(Le32(ByteAt(k.value, addr), ByteAt(k.value, addr + 1), ByteAt(k.value, addr + 2), ByteAt(k.value, addr + 3)))
    {
      var k := Search(addr, Fetch, Word);
      if k.Err? { return Err; }
      var w := handlers[k.value].FetchWord(addr);
      r := Ok(w);
    }

    method ReadWord(addr: u32) returns (r: Result<bv32>)
      requires Valid() && Backed(addr, Read, Word)
      ensures var k := SearchResult(handlers, addr, Read, Word);
        r == if k.Err? then Err else
          Ok(Le32(ByteAt(k.value, addr), ByteAt(k.value, addr + 1), ByteAt(k.value, addr + 2), ByteAt(k.value, addr + 3)))
    {
      var k := Search(addr, Read, Word);
      if k.Err? { return Err; }
      var w := handlers[k.value].ReadWord(addr);
      r := Ok(w);
    }

    /** Only the chosen handler's buffer may change, and only at the written bytes; on `Err` nothing changes. */
    twostate predicate WroteOnly(addr: u32, s: AccessSize, bytes: seq<bv8>, new r: Result<()>)
      requires old(Valid()) && s != AllSizes && |bytes| == Width(s)
      reads this, Backings()
    {
      var k := SearchResult(old(handlers), addr, Write, s);
      handlers == old(handlers) &&
      r == (if k.Err? then Err else Ok(())) &&
      (forall j :: 0 <= j < |handlers| && (k.Err? || j != k.value) ==> handlers[j].backing[..] == old(handlers[j].backing[..])) &&
      (k.Ok? ==>
        handlers[k.value].Holds(addr + Width(s) - 1) &&
        handlers[k.value].backing[..] == Splice(old(handlers[k.value].backing[..]), addr - handlers[k.value].start, bytes))
    }

    method WriteByte(addr: u32, data: bv8) returns (r: Result<()>)
      requires Valid() && Backed(addr, Write, Byte)
      modifies Backings()
      ensures Valid() && WroteOnly(addr, Byte, [data], r)
    {
      var k := Search(addr, Write, Byte);
      if k.Err? { return Err; }
      handlers[k.value].WriteByte(addr, data);
      r := Ok(());
    }

    method WriteHalfword(addr: u32, data: bv16) returns (r: Result<()>)
      requires Valid() && Backed(addr, Write, Halfword)
      modifies Backings()
      ensures Valid() && WroteOnly(addr, Halfword, HalfwordBytes(data), r)
    {
      var k := Search(addr, Write, Halfword);
      if k.Err? { return Err; }
      handlers[k.value].WriteHalfword(addr, data);
      r := Ok(());
    }

    method WriteWord(addr: u32, data: bv32) returns (r: Result<()>)
      requires Valid() && Backed(addr, Write, Word)
      modifies Backings()
      ensures Valid() && WroteOnly(addr, Word, WordBytes(data), r)
    {
      var k := Search(addr, Write, Word);
      if k.Err? { return Err; }
      handlers[k.value].WriteWord(addr, data);
      r := Ok(());
    }
  }
}
