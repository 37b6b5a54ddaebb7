/** The value shapes the service traits are written against: the unsigned
    32-bit integer the provider counts with, the integer-or-string
    identifier of JSON-RPC 2.0 (section 4, "Request object", member "id"),
    the progress token that wraps it, and the Result of a handler. */
module Model {

  /** 2^32: the number of values an unsigned 32-bit integer can hold. */
  const U32_MODULUS: int := 0x1_0000_0000

  /** Rust's u32. */
  type U32 = x: int | 0 <= x < U32_MODULUS

  /** u32::MAX. */
  const U32_MAX: U32 := 0xFFFF_FFFF

  /** Addition with the carry out of bit 31 dropped, as u32::wrapping_add
      and AtomicU32::fetch_add compute it. */
  function WrappingAdd(a: U32, b: U32): (r: U32)
    ensures a + b <= U32_MAX ==> r == a + b
    ensures a + b > U32_MAX ==> r == a + b - U32_MODULUS
  {
    (a + b) % U32_MODULUS
  }

  /** A request identifier: an integer or an opaque string. */
  datatype NumberOrString = Number(n: U32) | Str(s: string)

  type RequestId = NumberOrString

  /** A progress token: the same integer-or-string shape under its own type. */
  datatype ProgressToken = ProgressToken(value: NumberOrString)

  /** The outcome of a handler: a value or an error. */
  datatype Result<T, E> = Ok(value: T) | Err(error: E)
}
