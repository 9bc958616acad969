/** Shared vocabulary of the ECAM model: wire bytes and the optional/fallible wrappers. */
module Base {

  /** A wire byte (Rust `u8`); bit-vector arithmetic wraps exactly as `u8` does. */
  type byte = bv8

  datatype Option<+T> = None | Some(value: T)

  datatype Result<+T, +E> = Ok(value: T) | Err(error: E)
}
