/** Small value types and the saturating 64-bit arithmetic used throughout av-mesh. */
module Prelude {
  datatype Option<+T> = None | Some(value: T)

  datatype Result<+T, +E> = Ok(value: T) | Err(error: E)

  const U64_MAX: nat := 0xFFFF_FFFF_FFFF_FFFF

  function Min(a: int, b: int): int {
    if a <= b then a else b
  }

  function Max(a: int, b: int): int {
    if a >= b then a else b
  }

  // u64::saturating_sub
  function SatSub(a: nat, b: nat): nat {
    if a <= b then 0 else a - b
  }

  // u64::saturating_add
  function SatAdd(a: nat, b: nat): nat {
    if a + b <= U64_MAX then a + b else U64_MAX
  }
}
