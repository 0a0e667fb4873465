// XRVE: the decimal parser used to turn the package's version strings into numbers
// at compile time.

module XrveAbout {
  const U128_LIMIT: nat := 0x1_0000_0000_0000_0000_0000_0000_0000_0000

  predicate IsDigit(c: char)
  {
    '0' <= c <= '9'
  }

  predicate AllDigits(s: string)
  {
    forall k :: 0 <= k < |s| ==> IsDigit(s[k])
  }

  function DigitValue(c: char): (d: nat)
    requires IsDigit(c)
    ensures d < 10
  {
    c as int - '0' as int
  }

  /** The number a string of decimal digits denotes, most significant digit first. */
  function DecimalValue(s: string): nat
    requires AllDigits(s)
  {
    if |s| == 0 then 0 else DecimalValue(s[..|s| - 1]) * 10 + DigitValue(s[|s| - 1])
  }

  /** Every prefix of a digit string denotes at most what the whole string does. */
  lemma {:induction false} PrefixValueBounded(s: string, i: nat)
    requires AllDigits(s) && i <= |s|
    ensures AllDigits(s[..i]) && DecimalValue(s[..i]) <= DecimalValue(s)
    decreases |s| - i
  {
    if i < |s| {
      PrefixValueBounded(s, i + 1);
      assert s[..i + 1][..i] == s[..i];
    } else {
      assert s[..i] == s;
    }
  }

  /**
   * `const_parse_to_u128`. The string must be non-empty and all digits (both are debug
   * assertions), and its value must fit in 128 bits (an overflow stops the compile-time
   * evaluation); every intermediate result then fits as well.
   */
  method ConstParseToU128(s: string) returns (result: nat)
    requires |s| > 0 && AllDigits(s) && DecimalValue(s) < U128_LIMIT
    ensures result == DecimalValue(s) && result < U128_LIMIT
  {
    result := 0;
    var i := 0;
    while i < |s|
      invariant 0 <= i <= |s|
      invariant result == DecimalValue(s[..i])
    {
      PrefixValueBounded(s, i + 1);
      assert s[..i + 1][..i] == s[..i];
      result := result * 10;
      assert result < U128_LIMIT;
      var digit := DigitValue(s[i]);
      result := result + digit;
      assert result < U128_LIMIT;
      i := i + 1;
    }
    assert s[..i] == s;
  }

  /** The canonical decimal rendering of `n`: no leading zeros, except "0" for zero. */
  function Decimal(n: nat): (s: string)
    ensures |s| > 0 && AllDigits(s)
  {
    if n < 10 then ['0' + n as char] else Decimal(n / 10) + ['0' + (n % 10) as char]
  }

  /** Parsing inverts rendering. */
  lemma {:induction false} ParseRendersBack(n: nat)
    ensures DecimalValue(Decimal(n)) == n
  {
    if n >= 10 {
      var s := Decimal(n);
      assert s[..|s| - 1] == Decimal(n / 10);
      ParseRendersBack(n / 10);
    }
  }

  /** Leading zeros do not change the value. */
  lemma {:induction false} LeadingZeroIgnored(s: string)
    requires AllDigits(s)
    ensures AllDigits(['0'] + s) && DecimalValue(['0'] + s) == DecimalValue(s)
  {
    var t := ['0'] + s;
    if |s| > 0 {
      assert t[..|t| - 1] == ['0'] + s[..|s| - 1];
      LeadingZeroIgnored(s[..|s| - 1]);
    }
  }

  function Pow10(k: nat): (p: nat)
    ensures p > 0
  {
    if k == 0 then 1 else 10 * Pow10(k - 1)
  }

  /** Digits are positional: a string's value is its head's value shifted by the tail's length, plus the tail's value. */
  lemma {:induction false} ConcatValue(a: string, b: string)
    requires AllDigits(a) && AllDigits(b)
    ensures AllDigits(a + b) && DecimalValue(a + b) == DecimalValue(a) * Pow10(|b|) + DecimalValue(b)
    decreases |b|
  {
    var ab := a + b;
    if |b| == 0 {
      assert ab == a;
    } else {
      assert ab[..|ab| - 1] == a + b[..|b| - 1];
      ConcatValue(a, b[..|b| - 1]);
    }
  }

  /** The values the parser's tests expect. */
  lemma ParserExamples()
    ensures DecimalValue("0") == 0
    ensures DecimalValue("123") == 123
    ensures DecimalValue("1234567890") == 1234567890
    ensures DecimalValue("9876543210") == 9876543210
  {
    ParseRendersBack(0);
    ParseRendersBack(123);
    ParseRendersBack(1234567890);
    ParseRendersBack(9876543210);
    assert Decimal(0) == "0";
    assert Decimal(123) == "123";
    assert Decimal(1234567890) == "1234567890";
    assert Decimal(9876543210) == "9876543210";
  }

  /** A 30-digit input parses exactly, and fits in 128 bits. */
  lemma ThirtyDigitExample()
    ensures DecimalValue("123456789012345678901234567890") == 123456789012345678901234567890
    ensures 123456789012345678901234567890 < U128_LIMIT
  {
    ParserExamples();
    var ten := "1234567890";
    ConcatValue(ten, ten);
    ConcatValue(ten + ten, ten);
    assert ten + ten + ten == "123456789012345678901234567890";
    assert Pow10(10) == 10000000000;
  }

  /** Ten zeros parse to 0. */
  lemma ZerosExample()
    ensures DecimalValue("0000000000") == 0
  {
    ParserExamples();
    var zero := "0";
    var z := zero;
    var k := 1;
    while k < 10
      invariant 1 <= k <= 10 && |z| == k && AllDigits(z) && DecimalValue(z) == 0
      invariant forall j :: 0 <= j < |z| ==> z[j] == '0'
    {
      LeadingZeroIgnored(z);
      z := ['0'] + z;
      k := k + 1;
    }
    assert z == "0000000000";
  }
}
