/** Shared vocabulary: bytes, the Option and Result wrappers, and integer helpers. */
module Base {

  /** An unsigned 8-bit value, as Rust's `u8`. */
  type byte = b: int | 0 <= b < 256

  /** The largest `usize` on the 64-bit targets the kernel is built for. */
  const USIZE_MAX: nat := 0xFFFF_FFFF_FFFF_FFFF

  datatype Option<+T> = None | Some(value: T)

  datatype Result<+T, +E> = Ok(value: T) | Err(error: E)

  function Min(a: nat, b: nat): (m: nat)
    ensures m <= a && m <= b && (m == a || m == b)
  {
    if a <= b then a else b
  }
}
