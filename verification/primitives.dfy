/** Fixed-width unsigned integers of the Rust program and the `Option` /
    `Result` wrappers that stand for its optional arguments and fallible
    returns. */
module Primitives {

  /** Rust `u8`: one byte of account data or wire encoding. */
  newtype u8 = x: int | 0 <= x < 0x100

  /** Rust `u32`: instruction offsets, space and Borsh length prefixes. */
  newtype u32 = x: int | 0 <= x < 0x1_0000_0000

  /** Rust `u64`: lamport amounts. */
  newtype u64 = x: int | 0 <= x < 0x1_0000_0000_0000_0000

  /** Rust `Option<T>`. */
  datatype Option<+T> = None | Some(value: T) {

    /** `unwrap_or(default)`: the carried value, or `default` when absent. */
    function UnwrapOr(default: T): T {
      match this
      case Some(v) => v
      case None => default
    }
  }

  /** Rust `Result<T, E>`, usable with `:-`. */
  datatype Result<+T, +E> = Ok(value: T) | Err(error: E) {

    predicate IsFailure() {
      Err?
    }

    function PropagateFailure<U>(): Result<U, E>
      requires Err?
    {
      Err(error)
    }

    function Extract(): T
      requires Ok?
    {
      value
    }
  }
}
