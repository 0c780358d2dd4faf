/** Small shared vocabulary: failure-compatible Result and Option, and bytes. */
module Base {

  /** The outcome of a fallible operation; `:-` propagates the error like Rust's `?`. */
  datatype Result<+T, +E> = Ok(value: T) | Err(error: E) {
    predicate IsFailure() { Err? }

    function PropagateFailure<U>(): Result<U, E>
      requires Err?
    {
      Err(error)
    }

    function Extract(): T
      requires Ok?
    {
      value
    }
  }

  datatype Option<+T> = None | Some(value: T)

  /** A Rust `u8`. */
  type uint8 = x: int | 0 <= x < 0x100

  /** A Rust `Vec<u8>` / `&[u8]`. */
  type Bytes = seq<uint8>

  /** The empty tuple `()` that a successful write returns. */
  datatype Unit = Unit
}
