// Types and arithmetic facts shared by the XRVE (Rust prototype) and IRVE (C++) modules.

module Common {

  /** Rust's `u32` when it is used as an address or a count. */
  type u32 = x: int | 0 <= x < 0x1_0000_0000

  datatype Option<T> = None | Some(value: T)

  /** Rust's `Result<T, ()>`: the error carries no information. */
  datatype Result<T> = Ok(value: T) | Err

  const TWO32: int := 0x1_0000_0000

  /** Multiplying by a natural number keeps the order. */
  lemma MulMonotone(a: nat, b: nat, c: nat)
    requires b <= c
    ensures a * b <= a * c
  {
  }
}
