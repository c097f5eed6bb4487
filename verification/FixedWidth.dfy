/** Rust's fixed-width integers: the ranges and the saturating and wrapping
    operations the stores use. */
module FixedWidth {

  const I64_MIN: int := -0x8000_0000_0000_0000
  const I64_MAX: int := 0x7fff_ffff_ffff_ffff
  const U32_MAX: int := 0xffff_ffff
  const U64_MAX: int := 0xffff_ffff_ffff_ffff

  type I64 = x: int | I64_MIN <= x <= I64_MAX
  type U32 = x: int | 0 <= x <= U32_MAX
  type U64 = x: int | 0 <= x <= U64_MAX

  datatype Option<+T> = None | Some(value: T)

  function Min(a: int, b: int): int { if a <= b then a else b }

  function Max(a: int, b: int): int { if a <= b then b else a }

  function Clamp(x: int): I64 { Max(I64_MIN, Min(x, I64_MAX)) }

  /** `i64::saturating_add` and `i64::saturating_sub`. */
  function SatAdd(a: I64, b: I64): I64 { Clamp(a + b) }

  function SatSub(a: I64, b: I64): I64 { Clamp(a - b) }

  /** `+` on `i64` in a release build: two's-complement wrap-around. */
  function WrapAdd(a: I64, b: I64): I64 {
    var x := a + b;
    if x > I64_MAX then x - 0x1_0000_0000_0000_0000
    else if x < I64_MIN then x + 0x1_0000_0000_0000_0000
    else x
  }

  /** Saturating increments of the counters. */
  function Inc32(x: U32): U32 { Min(x + 1, U32_MAX) }

  function Inc64(x: U64): U64 { Min(x + 1, U64_MAX) }

  function Pow2(n: nat): (r: nat)
    ensures r >= 1
  {
    if n == 0 then 1 else 2 * Pow2(n - 1)
  }
}
