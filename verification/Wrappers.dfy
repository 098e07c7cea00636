/** Optional values, results and the 64-bit integer ranges used across the model. */
module Wrappers {

  datatype Option<+T> = None | Some(value: T)

  datatype Result<+T, +E> = Ok(value: T) | Err(error: E)

  const MIN_I64: int := -0x8000_0000_0000_0000
  const MAX_I64: int := 0x7fff_ffff_ffff_ffff
  const MAX_U64: int := 0xffff_ffff_ffff_ffff

  predicate IsI64(n: int) { MIN_I64 <= n <= MAX_I64 }

  /** A checked 64-bit operation: the exact result, or nothing on overflow. */
  function Checked(n: int): Option<int> {
    if IsI64(n) then Some(n) else None
  }
}
