/**
  Machine integer types and the result type shared by the device crates.

  The hypervisor targets 64-bit platforms, so `usize` is a 64-bit unsigned
  integer. Dafny integers are unbounded; each machine type is a subset type
  that carries its range explicitly.
 */
module Primitives {

  const U8_LIMIT: int := 0x100
  const U32_LIMIT: int := 0x1_0000_0000
  const USIZE_LIMIT: int := 0x1_0000_0000_0000_0000

  type u8 = x: int | 0 <= x < U8_LIMIT
  type u32 = x: int | 0 <= x < U32_LIMIT
  type usize = x: int | 0 <= x < USIZE_LIMIT

  /** The error kinds of the `axerrno` crate are not part of this model; an
      error carries only its numeric code. */
  datatype AxError = AxError(code: int)

  /** `AxResult<T>`: success with a value, or an error. */
  datatype AxResult<T> = Ok(value: T) | Err(error: AxError)
}
