// IRVE: the integer power helpers `upow` (unsigned, by square-and-multiply over the bits of
// the exponent) and `spow` (signed, reduced to `upow`). Both compute in 32-bit machine
// arithmetic, so their results are the true powers reduced modulo 2^32.
// Values are integers here: unsigned words are `u32`, signed words `i32`.

module IrvePow {
  import opened Common

  const MODULUS: int := 0x1_0000_0000

  type i32 = x: int | -0x8000_0000 <= x < 0x8000_0000

  /** The mathematical power. */
  ghost function Pow(b: int, e: nat): int
  {
    if e == 0 then 1 else b * Pow(b, e - 1)
  }

  /** A product of two unsigned words as `uint32_t` computes it. */
  function MulWrap(a: u32, b: u32): u32
  {
    (a * b) % MODULUS
  }

  /** The signed view of a 32-bit pattern (`(int32_t)` of a `uint32_t`). */
  function ToSigned(x: u32): i32
  {
    if x < 0x8000_0000 then x else x - MODULUS
  }

  /** The 32-bit two's-complement value congruent to `v`. */
  function WrapSigned(v: int): i32
  {
    ToSigned(v % MODULUS)
  }

  // Arithmetic facts used by the proofs below.

  lemma MulMod(x: int, y: int)
    ensures ((x % MODULUS) * (y % MODULUS)) % MODULUS == (x * y) % MODULUS
  {
    var qx, rx := x / MODULUS, x % MODULUS;
    var qy, ry := y / MODULUS, y % MODULUS;
    assert x * y == (qx * qy * MODULUS + qx * ry + rx * qy) * MODULUS + rx * ry by {
      assert x == qx * MODULUS + rx && y == qy * MODULUS + ry;
    }
    ModAddMultiple(rx * ry, qx * qy * MODULUS + qx * ry + rx * qy);
  }

  lemma ModAddMultiple(r: int, k: int)
    ensures (k * MODULUS + r) % MODULUS == r % MODULUS
  {
  }

  lemma {:induction false} PowSquare(b: int, k: nat)
    ensures Pow(b, 2 * k) == Pow(b * b, k)
    ensures Pow(b, 2 * k + 1) == b * Pow(b * b, k)
  {
    if k > 0 {
      PowSquare(b, k - 1);
      calc {
        Pow(b, 2 * k);
        b * (b * Pow(b, 2 * (k - 1)));
        b * b * Pow(b * b, k - 1);
      }
    }
  }

  lemma {:induction false} PowMod(b: int, e: nat)
    ensures Pow(b % MODULUS, e) % MODULUS == Pow(b, e) % MODULUS
  {
    if e > 0 {
      PowMod(b, e - 1);
      calc {
        Pow(b % MODULUS, e) % MODULUS;
        ((b % MODULUS) * Pow(b % MODULUS, e - 1)) % MODULUS;
        { MulMod(b % MODULUS, Pow(b % MODULUS, e - 1)); }
        ((b % MODULUS) * (Pow(b % MODULUS, e - 1) % MODULUS)) % MODULUS;
        { MulMod(b, Pow(b, e - 1)); }
        (b * Pow(b, e - 1)) % MODULUS;
      }
    }
  }

  /**
   * `upow`: `base^exponent` modulo 2^32. The loop keeps the product of the result so far
   * and the power still to be taken congruent to the requested power.
   */
  method Upow(base: u32, exponent: u32) returns (result: u32)
    ensures result == Pow(base, exponent) % MODULUS
  {
    result := 1;
    var b, e := base, exponent;
    while e != 0
      invariant (result * Pow(b, e)) % MODULUS == Pow(base, exponent) % MODULUS
      decreases e
    {
      UpowStep(result, b, e);
      if e % 2 == 1 {
        result := MulWrap(result, b);
      }
      b := MulWrap(b, b);
      e := e / 2;
    }
  }

  /** One iteration of the loop of `Upow` keeps its invariant. */
  lemma UpowStep(result: u32, b: u32, e: nat)
    requires e != 0
    ensures var result' := if e % 2 == 1 then MulWrap(result, b) else result;
      (result' * Pow(MulWrap(b, b), e / 2)) % MODULUS == (result * Pow(b, e)) % MODULUS
  {
    PowSquare(b, e / 2);
    if e % 2 == 1 {
      assert e == 2 * (e / 2) + 1;
      UpowOdd(result, b, e / 2, Pow(b * b, e / 2));
    } else {
      assert e == 2 * (e / 2);
      ReduceBase(result, b * b, e / 2);
    }
  }

  lemma UpowOdd(result: u32, b: u32, k: nat, p: int)
    requires p == Pow(b * b, k)
    ensures (MulWrap(result, b) * Pow(MulWrap(b, b), k)) % MODULUS == (result * (b * p)) % MODULUS
  {
    ReduceBase(MulWrap(result, b), b * b, k);
    assert (MulWrap(result, b) * Pow(MulWrap(b, b), k)) % MODULUS == (MulWrap(result, b) * p) % MODULUS;
    ReduceLeft(result * b, p);
    assert result * b * p == result * (b * p);
  }

  /** Reducing the left factor of a product modulo 2^32 does not change the product's residue. */
  lemma ReduceLeft(a: int, y: int)
    ensures ((a % MODULUS) * y) % MODULUS == (a * y) % MODULUS
  {
    MulMod(a % MODULUS, y);
    MulMod(a, y);
  }

  /** Reducing the base of a power modulo 2^32 does not change a product's residue. */
  lemma ReduceBase(x: int, c: int, k: nat)
    ensures (x * Pow(c % MODULUS, k)) % MODULUS == (x * Pow(c, k)) % MODULUS
  {
    MulMod(x, Pow(c % MODULUS, k));
    PowMod(c, k);
    MulMod(x, Pow(c, k));
  }

  /** `1 / d` in C's truncating division, for a non-zero `d`. */
  function OneOver(d: int): int
    requires d != 0
  {
    if d == 1 then 1 else if d == -1 then -1 else 0
  }

  /**
   * What `spow` returns: `Err` where it throws (a negative exponent whose positive power is
   * 0 modulo 2^32). Negating the most negative base or exponent is undefined in C, so those
   * are excluded; negating a most negative intermediate result is taken to wrap.
   */
  ghost function SpowSpec(base: i32, exponent: i32): (r: Result<i32>)
    requires base != -0x8000_0000 && exponent != -0x8000_0000
    ensures exponent >= 0 ==> r.Ok?
    ensures exponent == 0 ==> r == Ok(1)
    ensures exponent < 0 && r.Ok? ==> -1 <= r.value <= 1
    decreases if exponent < 0 then 1 else 0
  {
    if exponent < 0 then
      match SpowSpec(base, -exponent)
      case Err => Err
      case Ok(d) => if d == 0 then Err else Ok(OneOver(d))
    else if base < 0 then
      var abs := ToSigned(Pow(-base, exponent) % MODULUS);
      Ok(if exponent % 2 == 1 then WrapSigned(-(abs as int)) else abs)
    else
      Ok(ToSigned(Pow(base, exponent) % MODULUS))
  }

  /** `spow`, by `upow` on the magnitude of the base. */
  method Spow(base: i32, exponent: i32) returns (r: Result<i32>)
    requires base != -0x8000_0000 && exponent != -0x8000_0000
    ensures r == SpowSpec(base, exponent)
    decreases if exponent < 0 then 1 else 0
  {
    if exponent < 0 {
      var denominator := Spow(base, -exponent);
      if denominator.Err? || denominator.value == 0 {
        return Err;
      }
      return Ok(OneOver(denominator.value));
    } else if base < 0 {
      var magnitude := Upow(-base, exponent);
      var abs := ToSigned(magnitude);
      if exponent % 2 == 1 {
        return Ok(WrapSigned(-(abs as int)));
      }
      return Ok(abs);
    } else {
      var magnitude := Upow(base, exponent);
      return Ok(ToSigned(magnitude));
    }
  }

  // What `spow` means.

  lemma {:induction false} PowNegate(b: int, e: nat)
    ensures Pow(-b, e) == if e % 2 == 1 then -Pow(b, e) else Pow(b, e)
  {
    if e > 0 {
      PowNegate(b, e - 1);
    }
  }

  lemma WrapCongruent(a: int, b: int)
    requires (a - b) % MODULUS == 0
    ensures WrapSigned(a) == WrapSigned(b)
  {
  }

  lemma ToSignedCongruent(x: u32)
    ensures (ToSigned(x) - x) % MODULUS == 0
  {
  }

  /**
   * For a non-negative exponent `spow` is the true power wrapped to 32 bits, whatever the
   * sign of the base.
   */
  lemma SpowIsWrappedPower(base: i32, exponent: i32)
    requires base != -0x8000_0000 && 0 <= exponent
    ensures SpowSpec(base, exponent) == Ok(WrapSigned(Pow(base, exponent)))
  {
    if base < 0 {
      PowNegate(-base, exponent);
      if exponent % 2 == 1 {
        NegatedMagnitude(Pow(-base, exponent));
      }
    }
  }

  /** Negating the wrapped magnitude wraps the negated magnitude. */
  lemma NegatedMagnitude(p: int)
    ensures WrapSigned(-(ToSigned(p % MODULUS) as int)) == WrapSigned(-p)
  {
    var m := p % MODULUS;
    ToSignedCongruent(m);
    assert (-(ToSigned(m) as int) - (-p)) % MODULUS == 0;
    WrapCongruent(-(ToSigned(m) as int), -p);
  }

  /**
   * For a negative exponent `spow` fails exactly when the positive power wraps to 0, and is
   * otherwise `1 / base^-exponent` truncated: 1 or -1 for a power of 1 or -1, else 0.
   */
  lemma SpowNegativeExponent(base: i32, exponent: i32)
    requires base != -0x8000_0000 && -0x8000_0000 < exponent < 0
    ensures var d := WrapSigned(Pow(base, -exponent));
      SpowSpec(base, exponent) == if d == 0 then Err else Ok(OneOver(d))
  {
    SpowIsWrappedPower(base, -exponent);
  }

  /** `upow(b, 0)` is 1 and `upow(b, 1)` is `b`; `upow(2, 32)` wraps to 0. */
  lemma UpowSmallExponents(b: u32)
    ensures Pow(b, 0) % MODULUS == 1 && Pow(b, 1) % MODULUS == b
    ensures Pow(2, 32) % MODULUS == 0
  {
    assert Pow(2, 32) == MODULUS by {
      PowSquare(2, 16);
      PowSquare(4, 8);
      PowSquare(16, 4);
      PowSquare(256, 2);
      PowSquare(65536, 1);
    }
  }
}
