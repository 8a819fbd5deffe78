/** Small shared vocabulary: an optional value and the signed 64-bit range that
    the toolchain's `int64_t` values live in. */
module Basics {

  datatype Option<T> = None | Some(value: T)

  const Int64Min: int := -0x8000_0000_0000_0000
  const Int64Max: int := 0x7FFF_FFFF_FFFF_FFFF

  /** True when `x` is representable as an `int64_t`. */
  predicate InInt64(x: int) {
    Int64Min <= x <= Int64Max
  }
}
