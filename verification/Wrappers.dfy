/** Values shared by every component: optional ones, results, and 64-bit integers. */
module Wrappers {
  datatype Option<+T> = None | Some(value: T)

  datatype Result<+T> = Ok(value: T) | Err(error: string)

  const INT64_MIN := -0x8000_0000_0000_0000
  const U64_MODULUS := 0x1_0000_0000_0000_0000

  type Int64 = n: int | -0x8000_0000_0000_0000 <= n < 0x8000_0000_0000_0000
}
