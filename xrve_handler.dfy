// XRVE: the predicates a memory handler publishes to the physical memory map.
// A handler lists `MatchCriteria`; the map asks each criterion whether it accepts
// an access of a given type and size at a given address.

module XrveHandler {
  import opened Common

  datatype AccessType = AllTypes | Fetch | Read | Write
  datatype AccessSize = AllSizes | Byte | Halfword | Word

  /** `AddressRange` bounds are both inclusive. */
  datatype MatchCriteria =
    | Always(atype: AccessType, asize: AccessSize)
    | SingleAddress(atype: AccessType, asize: AccessSize, addr: u32)
    | AddressRange(atype: AccessType, asize: AccessSize, start: u32, end: u32)
    | Never

  /** A criterion's access type accepts a requested one: `AllTypes` on the criterion side is a wildcard. */
  predicate TypeSatisfies(criterion: AccessType, requested: AccessType)
  {
    match (criterion, requested)
    case (AllTypes, _) => true
    case (Fetch, Fetch) => true
    case (Read, Read) => true
    case (Write, Write) => true
    case _ => false
  }

  /** The same shape for sizes: `AllSizes` is a wildcard on the criterion side only. */
  predicate SizeSatisfies(criterion: AccessSize, requested: AccessSize)
  {
    match (criterion, requested)
    case (AllSizes, _) => true
    case (Byte, Byte) => true
    case (Halfword, Halfword) => true
    case (Word, Word) => true
    case _ => false
  }

  predicate CriteriaSatisfies(c: MatchCriteria, t: AccessType, s: AccessSize, addr: u32)
  {
    match c
    case Always(ct, cs) => TypeSatisfies(ct, t) && SizeSatisfies(cs, s)
    case SingleAddress(ct, cs, a) => TypeSatisfies(ct, t) && SizeSatisfies(cs, s) && addr == a
    case AddressRange(ct, cs, lo, hi) => TypeSatisfies(ct, t) && SizeSatisfies(cs, s) && addr >= lo && addr <= hi
    case Never => false
  }

  lemma TypeSatisfiesExactly(criterion: AccessType, requested: AccessType)
    ensures TypeSatisfies(criterion, requested) <==> criterion == AllTypes || criterion == requested
  {
  }

  lemma SizeSatisfiesExactly(criterion: AccessSize, requested: AccessSize)
    ensures SizeSatisfies(criterion, requested) <==> criterion == AllSizes || criterion == requested
  {
  }

  /** A request for "any type" or "any size" is only met by a wildcard criterion. */
  lemma WildcardIsOneSided(ct: AccessType, cs: AccessSize)
    ensures TypeSatisfies(ct, AllTypes) <==> ct == AllTypes
    ensures SizeSatisfies(cs, AllSizes) <==> cs == AllSizes
  {
  }

  /** What each criterion shape accepts, stated without the `match`. */
  lemma CriteriaSatisfiesExactly(c: MatchCriteria, t: AccessType, s: AccessSize, addr: u32)
    ensures c.Never? ==> !CriteriaSatisfies(c, t, s, addr)
    ensures c.Always? ==>
      (CriteriaSatisfies(c, t, s, addr) <==> (c.atype == AllTypes || c.atype == t) && (c.asize == AllSizes || c.asize == s))
    ensures c.SingleAddress? ==>
      (CriteriaSatisfies(c, t, s, addr) <==> (c.atype == AllTypes || c.atype == t) && (c.asize == AllSizes || c.asize == s) && addr == c.addr)
    ensures c.AddressRange? ==>
      (CriteriaSatisfies(c, t, s, addr) <==> (c.atype == AllTypes || c.atype == t) && (c.asize == AllSizes || c.asize == s) && c.start <= addr <= c.end)
  {
    if !c.Never? {
      TypeSatisfiesExactly(c.atype, t);
      SizeSatisfiesExactly(c.asize, s);
    }
  }

  /** Both ends of an `AddressRange` are accepted; the addresses just outside are not. */
  lemma AddressRangeInclusive(t: AccessType, s: AccessSize, lo: u32, hi: u32, reqT: AccessType, reqS: AccessSize)
    requires lo <= hi
    requires TypeSatisfies(t, reqT) && SizeSatisfies(s, reqS)
    ensures CriteriaSatisfies(AddressRange(t, s, lo, hi), reqT, reqS, lo)
    ensures CriteriaSatisfies(AddressRange(t, s, lo, hi), reqT, reqS, hi)
    ensures hi + 1 < 0x1_0000_0000 ==> !CriteriaSatisfies(AddressRange(t, s, lo, hi), reqT, reqS, hi + 1)
    ensures lo > 0 ==> !CriteriaSatisfies(AddressRange(t, s, lo, hi), reqT, reqS, lo - 1)
  {
  }
}
