/** Machine-level value types shared by every helper of the library, and the
    Result type that stands for Rust's `Result<T, E>`. */
module Primitives {

  /** Rust `u8`. */
  type byte = x: int | 0 <= x < 0x100

  /** Rust `u32`. */
  type u32 = x: int | 0 <= x < 0x1_0000_0000

  /** Rust `u64`; satoshi amounts and balances have this type. */
  type u64 = x: int | 0 <= x <= U64_MAX

  const U64_MAX: int := 0xFFFF_FFFF_FFFF_FFFF

  /** Rust's `Result<T, E>`: a value, or the error the operation reports. */
  datatype Result<+T, +E> = Ok(value: T) | Err(error: E)
}
