/** The fixed-width arithmetic of the engine: wrapping atomics, wrapping U256
    operators, and the saturating and truncating operations the code calls by name. */
module Machine {

  const U32_MODULUS: nat := 0x1_0000_0000
  const U32_MAX: nat := U32_MODULUS - 1
  const U64_MODULUS: nat := 0x1_0000_0000_0000_0000
  const U64_MAX: nat := U64_MODULUS - 1
  const I64_MAX: int := 0x7FFF_FFFF_FFFF_FFFF
  const I64_MIN: int := -0x8000_0000_0000_0000
  const U128_MAX: nat := 0xFFFF_FFFF_FFFF_FFFF_FFFF_FFFF_FFFF_FFFF
  const I128_MAX: int := 0x7FFF_FFFF_FFFF_FFFF_FFFF_FFFF_FFFF_FFFF
  const I128_MIN: int := -0x8000_0000_0000_0000_0000_0000_0000_0000
  const U256_MODULUS: nat := 0x1_0000000000000000_0000000000000000_0000000000000000_0000000000000000
  const U256_MAX: nat := U256_MODULUS - 1

  type u32 = x: int | 0 <= x <= U32_MAX
  type u64 = x: int | 0 <= x <= U64_MAX
  type i64 = x: int | I64_MIN <= x <= I64_MAX
  type u128 = x: int | 0 <= x <= U128_MAX
  type i128 = x: int | I128_MIN <= x <= I128_MAX
  type u256 = x: int | 0 <= x <= U256_MAX

  function Wrap32(x: int): u32 { x % U32_MODULUS }

  function Wrap64(x: int): u64 { x % U64_MODULUS }

  /** A u64 counter after `+ 1`. */
  function Next64(n: u64): u64 { var x: int := n; Wrap64(x + 1) }

  function Wrap256(x: int): u256 { x % U256_MODULUS }

  function WrapI64(x: int): i64 { (x - I64_MIN) % U64_MODULUS + I64_MIN }

  /** `saturating_sub` on an unsigned type. */
  function SatSub(a: nat, b: nat): nat { if a > b then a - b else 0 }

  /** `saturating_add` on an unsigned type whose largest value is `max`. */
  function SatAdd(a: nat, b: nat, max: nat): nat { Min(a + b, max) }

  /** `saturating_add` on i128. */
  function SatAddI128(a: i128, b: i128): i128 {
    Clamp(a + b, I128_MIN, I128_MAX)
  }

  function Clamp(x: int, lo: int, hi: int): int
    requires lo <= hi
  {
    if x < lo then lo else if x > hi then hi else x
  }

  function Min(a: int, b: int): int { if a <= b then a else b }

  function Max(a: int, b: int): int { if a >= b then a else b }

  function Abs(x: int): nat { if x < 0 then -x else x }

  /** Rust's `/` on signed integers: the quotient is truncated toward zero. */
  function TruncDiv(a: int, b: nat): int
    requires b > 0
  {
    if a >= 0 then a / b else -((-a) / b)
  }

  /** Quotient and remainder are determined by the division equation. */
  lemma DivModUnique(x: int, d: nat, q: int, r: int)
    requires x == q * d + r && 0 <= r < d
    ensures x / d == q && x % d == r
  {
    MulMonotone(q - x / d, d);
    MulMonotone(x / d - q, d);
    assert (q - x / d) * d == x % d - r;
    assert (x / d - q) * d == r - x % d;
  }

  lemma MulMonotone(k: int, m: nat)
    ensures k >= 1 ==> k * m >= m
    ensures k >= 0 ==> k * m >= 0
  {
  }

  lemma NoWrap(x: nat)
    requires x <= U256_MAX
    ensures Wrap256(x) == x
  {
    DivModUnique(x, U256_MODULUS, 0, x);
  }

  lemma WrapAtMost(x: nat)
    ensures Wrap256(x) <= x
  {
    if x <= U256_MAX {
      NoWrap(x);
    }
  }

  lemma ModStep(a: int, b: int, m: nat)
    requires m > 0
    ensures (a % m + b) % m == (a + b) % m
  {
    var x := a % m + b;
    var q := a / m + x / m;
    assert a + b == q * m + x % m;
    DivModUnique(a + b, m, q, x % m);
  }

  /** Adding to an already wrapped i64 counter is adding before wrapping. */
  lemma WrapI64Step(a: int, b: int)
    ensures WrapI64(WrapI64(a) + b) == WrapI64(a + b)
  {
    ModStep(a - I64_MIN, b, U64_MODULUS);
  }

  lemma DivMonotone(a: int, b: int, d: nat)
    requires a <= b && d > 0
    ensures a / d <= b / d
  {
    MulMonotone(a / d - b / d, d);
    assert (a / d - b / d) * d == (a / d) * d - (b / d) * d;
  }

  /** Comparing a quotient is comparing the products. */
  lemma QuotientAtLeast(x: nat, d: nat, q: nat)
    requires d > 0
    ensures x / d >= q <==> x >= q * d
  {
    if x >= q * d {
      DivMonotone(q * d, x, d);
      DivModUnique(q * d, d, q, 0);
    } else {
      MulMonotone(x / d - q, d);
      assert (x / d - q) * d == (x / d) * d - q * d;
    }
  }
}
