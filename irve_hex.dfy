// IRVE: hexadecimal text. The memory-image loaders read numbers with `std::stoul(.., 16)`,
// the GDB stub reads them with `std::strtol(.., 16)` and writes bytes with `byte_2_string`.

module IrveHex {
  import opened Common

  const TWO64: int := 0x1_0000_0000_0000_0000
  /** LONG_MAX of the 64-bit host. */
  const LONG_MAX: int := 0x7FFF_FFFF_FFFF_FFFF

  /** The value of a hexadecimal digit in either case, or -1 for any other character. */
  function DigitValue(c: char): (r: int)
    ensures -1 <= r < 16
  {
    if '0' <= c <= '9' then c as int - '0' as int
    else if 'a' <= c <= 'f' then c as int - 'a' as int + 10
    else if 'A' <= c <= 'F' then c as int - 'A' as int + 10
    else -1
  }

  predicate IsHexDigit(c: char) { DigitValue(c) >= 0 }

  predicate AllHex(s: seq<char>) { forall k :: 0 <= k < |s| ==> IsHexDigit(s[k]) }

  function Pow16(n: nat): (p: nat)
    ensures p >= 1
  {
    if n == 0 then 1 else 16 * Pow16(n - 1)
  }

  /** The value of a string of hexadecimal digits, most significant first. */
  function HexValue(s: seq<char>): (v: nat)
    requires AllHex(s)
    ensures v < Pow16(|s|)
  {
    if s == [] then 0 else HexValue(s[..|s| - 1]) * 16 + DigitValue(s[|s| - 1])
  }

  /** The number of hexadecimal digits `s` starts with. */
  function DigitRun(s: seq<char>): (n: nat)
    ensures n <= |s| && AllHex(s[..n])
    ensures n < |s| ==> !IsHexDigit(s[n])
  {
    if s == [] || !IsHexDigit(s[0]) then 0
    else
      var n := 1 + DigitRun(s[1..]);
      assert s[..n] == [s[0]] + s[1..][..n - 1];
      n
  }

  /** The digit of a value below 16 as `byte_2_string` writes it: lower-case letters. */
  function HexChar(n: int): (c: char)
    requires 0 <= n < 16
    ensures DigitValue(c) == n
  {
    if n < 10 then ('0' as int + n) as char else ('a' as int + (n - 10)) as char
  }

  /** The low `n` hexadecimal digits of `a`, most significant first. */
  function HexDigits(a: nat, n: nat): (s: seq<char>)
    ensures |s| == n && AllHex(s)
  {
    if n == 0 then [] else HexDigits(a / 16, n - 1) + [HexChar(a % 16)]
  }

  /** `n` digits represent every value below 16^n exactly. */
  lemma {:induction false} HexDigitsValue(a: nat, n: nat)
    requires a < Pow16(n)
    ensures HexValue(HexDigits(a, n)) == a
  {
    if n > 0 {
      var s := HexDigits(a, n);
      assert s[..n - 1] == HexDigits(a / 16, n - 1);
      HexDigitsValue(a / 16, n - 1);
    }
  }

  /**
   * `byte_2_string`: two lower-case hexadecimal digits, the high nibble first.
   */
  function ByteHex(b: bv8): (s: string)
    ensures |s| == 2 && AllHex(s)
  {
    [HexChar(((b >> 4) & 0x0F) as int), HexChar((b & 0x0F) as int)]
  }

  lemma Nibbles(b: bv8)
    ensures ((b >> 4) & 0x0F) as int == b as int / 16 && (b & 0x0F) as int == b as int % 16
  {
  }

  /** The two characters are the byte's value written in base 16. */
  lemma ByteHexIsDigits(b: bv8)
    ensures ByteHex(b) == HexDigits(b as int, 2)
  {
    Nibbles(b);
    TwoDigits(b as int);
  }

  lemma TwoDigits(a: nat)
    requires a < 256
    ensures HexDigits(a, 2) == [HexChar(a / 16), HexChar(a % 16)]
  {
    assert HexDigits(a / 16, 1) == [HexChar(a / 16)];
  }

  /** The value of the two digits is the byte. */
  lemma {:induction false} ByteHexValue(b: bv8)
    ensures HexValue(ByteHex(b)) == b as int
  {
    ByteHexIsDigits(b);
    HexDigitsValue(b as int, 2);
  }

  // Number parsing as glibc's strtoul/strtol do it in base 16: leading white space skipped,
  // an optional sign, an optional "0x"/"0X" when a digit follows it, then the longest run of
  // digits.

  /** The C locale's `isspace`: space, tab, newline, vertical tab, form feed, carriage return. */
  predicate IsSpace(c: char)
  {
    c == ' ' || '\t' <= c <= '\r'
  }

  /** The number of white-space characters `s` starts with. */
  function LeadingSpace(s: string): (n: nat)
    ensures n <= |s| && (forall k :: 0 <= k < n ==> IsSpace(s[k])) && (n < |s| ==> !IsSpace(s[n]))
  {
    if |s| > 0 && IsSpace(s[0]) then 1 + LeadingSpace(s[1..]) else 0
  }

  /** What was parsed: the sign and the magnitude of the digits. */
  datatype Numeral = Numeral(negative: bool, magnitude: nat)

  /** The text after the sign and the prefix, where the digits start. */
  function DigitsAfterPrefix(s: string): (d: string)
    ensures |d| <= |s|
  {
    var t := if |s| > 0 && (s[0] == '+' || s[0] == '-') then s[1..] else s;
    if |t| >= 3 && t[0] == '0' && (t[1] == 'x' || t[1] == 'X') && IsHexDigit(t[2]) then t[2..] else t
  }

  /** The number `s` starts with; `None` when no digit could be converted. */
  function ParseNumeral(s: string): (r: Option<Numeral>)
    ensures var u := s[LeadingSpace(s)..];
      r.Some? <==> DigitRun(DigitsAfterPrefix(u)) > 0
  {
    var u := s[LeadingSpace(s)..];
    var d := DigitsAfterPrefix(u);
    var n := DigitRun(d);
    if n == 0 then None else Some(Numeral(|u| > 0 && u[0] == '-', HexValue(d[..n])))
  }

  /**
   * `std::stoul(s, nullptr, 16)`: `None` when it throws — no digits (`invalid_argument`) or a
   * magnitude above the 64-bit unsigned maximum (`out_of_range`); a negative numeral wraps.
   */
  function Stoul(s: string): (r: Option<nat>)
    ensures r.Some? ==> r.value < TWO64
  {
    match ParseNumeral(s)
    case None => None
    case Some(p) =>
      if p.magnitude >= TWO64 then None
      else if p.negative then Some((TWO64 - p.magnitude) % TWO64)
      else Some(p.magnitude)
  }

  /**
   * `std::strtol(s, nullptr, 16)`: 0 when no digits could be converted, and clamped to the
   * range of a 64-bit `long` on overflow.
   */
  function Strtol(s: string): (v: int)
    ensures -LONG_MAX - 1 <= v <= LONG_MAX
  {
    match ParseNumeral(s)
    case None => 0
    case Some(p) =>
      if p.negative then (if p.magnitude > LONG_MAX + 1 then -LONG_MAX - 1 else -(p.magnitude as int))
      else if p.magnitude > LONG_MAX then LONG_MAX else p.magnitude
  }

  /** A string of digits alone reads as its value, by either function. */
  lemma {:induction false} DigitsParse(s: string)
    requires 0 < |s| && AllHex(s)
    ensures ParseNumeral(s) == Some(Numeral(false, HexValue(s)))
  {
    assert LeadingSpace(s) == 0 by {
      assert IsHexDigit(s[0]);
    }
    assert s[0..] == s;
    assert DigitsAfterPrefix(s) == s by {
      assert s[0] != '+' && s[0] != '-';
      assert |s| >= 2 ==> s[1] != 'x' && s[1] != 'X';
    }
    assert DigitRun(s) == |s| by { DigitRunAll(s); }
    assert s[..|s|] == s;
  }

  /** `stoul` accepts a minus sign before the digits and wraps the negated magnitude modulo 2^64. */
  lemma NegativeDigitsStoul(s: string)
    requires 0 < |s| && AllHex(s) && HexValue(s) < TWO64
    ensures Stoul("-" + s) == Some((TWO64 - HexValue(s)) % TWO64)
  {
    NegativeNumeral(s);
    NegativeWraps("-" + s, HexValue(s));
  }

  /** `stoul` of a negative numeral whose magnitude fits 64 bits is the magnitude negated modulo 2^64. */
  lemma NegativeWraps(u: string, m: nat)
    requires ParseNumeral(u) == Some(Numeral(true, m)) && m < TWO64
    ensures Stoul(u) == Some((TWO64 - m) % TWO64)
  {
  }

  /** After a minus sign, hex digits parse as a negative numeral of their value. */
  lemma NegativeNumeral(s: string)
    requires 0 < |s| && AllHex(s)
    ensures ParseNumeral("-" + s) == Some(Numeral(true, HexValue(s)))
  {
    var u := "-" + s;
    assert LeadingSpace(u) == 0 && u[0..] == u;
    SignedDigits(s);
    DigitRunAll(s);
    assert s[..|s|] == s;
  }

  /** A minus sign followed by hex digits: the digits start right after the sign. */
  lemma SignedDigits(s: string)
    requires 0 < |s| && AllHex(s)
    ensures DigitsAfterPrefix("-" + s) == s
  {
    var u := "-" + s;
    assert u[0] == '-' && u[1..] == s;
    assert |s| >= 2 ==> s[1] != 'x' && s[1] != 'X' by { assert |s| >= 2 ==> IsHexDigit(s[1]); }
  }

  lemma {:induction false} DigitRunAll(s: string)
    requires AllHex(s)
    ensures DigitRun(s) == |s|
  {
    if s != [] {
      DigitRunAll(s[1..]);
    }
  }

  /** A numeral of at most two characters has a magnitude below 256. */
  lemma {:induction false} ShortNumeral(s: string)
    requires |s| <= 2
    ensures ParseNumeral(s).Some? ==> ParseNumeral(s).value.magnitude < 256
  {
    var d := DigitsAfterPrefix(s[LeadingSpace(s)..]);
    var n := DigitRun(d);
    if n > 0 {
      assert HexValue(d[..n]) < Pow16(n);
      assert Pow16(2) == 256;
      assert Pow16(1) == 16;
    }
  }

  /** `strtol` on at most two characters lies strictly between -256 and 256. */
  lemma StrtolShort(s: string)
    requires |s| <= 2
    ensures -256 < Strtol(s) < 256
  {
    ShortNumeral(s);
  }

  /** `byte_2_string` read back by `strtol` or `stoul` gives the byte. */
  lemma ByteHexParses(b: bv8)
    ensures Strtol(ByteHex(b)) == b as int && Stoul(ByteHex(b)) == Some(b as int)
  {
    DigitsParse(ByteHex(b));
    ByteHexValue(b);
  }

  /** `n` digits written by `HexDigits` read back by `stoul` as the value they encode. */
  lemma DigitsStoul(a: nat, n: nat)
    requires 0 < n && a < TWO64 && a < Pow16(n)
    ensures Stoul(HexDigits(a, n)) == Some(a)
  {
    HexDigitsValue(a, n);
    DigitsParse(HexDigits(a, n));
  }

  /** Eight digits written by `HexDigits` read back by `stoul` as the value they encode. */
  lemma EightDigitsParse(a: nat)
    requires a < TWO32
    ensures Stoul(HexDigits(a, 8)) == Some(a)
  {
    assert Pow16(8) == TWO32 by {
      assert Pow16(2) == 256;
      assert Pow16(4) == 256 * 256;
    }
    HexDigitsValue(a, 8);
    DigitsParse(HexDigits(a, 8));
  }

  /** `n` digits written by `HexDigits` read back by `strtol` as the value they encode. */
  lemma DigitsStrtol(a: nat, n: nat)
    requires 0 < n && a < Pow16(n) && a <= LONG_MAX
    ensures Strtol(HexDigits(a, n)) == a
  {
    HexDigitsValue(a, n);
    DigitsParse(HexDigits(a, n));
  }
}
