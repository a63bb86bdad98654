/** Machine-level types shared by the driver model and two failure-carrying wrappers. */
module Base {
  /** An unsigned 8-bit value (`u8`). */
  type byte = b: int | 0 <= b < 0x100

  /** An unsigned 16-bit value (`u16`). */
  type u16 = n: int | 0 <= n < 0x1_0000

  /** A logic level on a GPIO line. */
  type bit = b: int | 0 <= b < 2

  datatype Option<+T> = None | Some(value: T)

  datatype Result<+T, +E> = Ok(value: T) | Err(error: E)

  /** Regrouping a concatenation, stated once so proofs can name the step. */
  lemma {:induction false} ConcatAssoc<T>(a: seq<T>, b: seq<T>, c: seq<T>)
    ensures (a + b) + c == a + (b + c)
  {
  }
}
