/** Fixed-width integers of the source: ranges, saturating operations and powers of two. */
module MachineInt {

  const U32_MAX: nat := 0xFFFF_FFFF
  const U64_MAX: nat := 0xFFFF_FFFF_FFFF_FFFF
  const I64_MAX: int := 0x7FFF_FFFF_FFFF_FFFF
  const I64_MIN: int := -0x8000_0000_0000_0000

  const NANOS_PER_MILLI: nat := 1_000_000
  const NANOS_PER_SECOND: nat := 1_000_000_000

  /** Largest `std::time::Duration`, in nanoseconds. */
  const DURATION_MAX: nat := U64_MAX * NANOS_PER_SECOND + 999_999_999

  type u32 = n: nat | n <= U32_MAX
  type u64 = n: nat | n <= U64_MAX

  /** A duration as a count of nanoseconds. */
  type Duration = n: nat | n <= DURATION_MAX

  function Min(a: int, b: int): int {
    if a <= b then a else b
  }

  function Max(a: int, b: int): int {
    if a <= b then b else a
  }

  function Pow2(e: nat): nat {
    if e == 0 then 1 else 2 * Pow2(e - 1)
  }

  /** `a.saturating_mul(b)` in a type whose largest value is `top`. */
  function SaturatingMul(a: nat, b: nat, top: nat): nat {
    Min(a * b, top)
  }

  /** `a.saturating_add(b)` in a type whose largest value is `top`. */
  function SaturatingAdd(a: nat, b: nat, top: nat): nat {
    Min(a + b, top)
  }

  lemma {:induction false} Pow2Monotone(d: nat, e: nat)
    requires d <= e
    ensures 1 <= Pow2(d) <= Pow2(e)
  {
    if d < e {
      Pow2Monotone(d, e - 1);
    } else if 0 < d {
      Pow2Monotone(d - 1, d - 1);
    }
  }
}
