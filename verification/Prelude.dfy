/** Vocabulary shared by every component model. */
module Prelude {
  /** An optional value: the source's `Option`, and Python's `None` results. */
  datatype Option<+T> = None | Some(value: T)

  /** A byte. */
  type Octet = b: int | 0 <= b < 256

  /** The largest value of the source's 64-bit counters. */
  const U64_MAX: nat := 0xFFFF_FFFF_FFFF_FFFF

  type U64 = n: nat | n <= U64_MAX

  function Min(a: nat, b: nat): nat {
    if a <= b then a else b
  }

  function Max(a: nat, b: nat): nat {
    if a >= b then a else b
  }

  /** `saturating_add` on 64-bit words. */
  function SaturatingAdd(a: U64, b: U64): U64 {
    Min(a + b, U64_MAX)
  }

  /** `saturating_sub` on 64-bit words. */
  function SaturatingSub(a: U64, b: U64): U64 {
    if a >= b then a - b else 0
  }
}
