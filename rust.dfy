/** Rust's primitive types and numeric conversions used by the game core:
    the fixed-width integer types as bounded subsets of `int`, `Option`,
    truncating integer division, the two `as usize` casts (from `i32` and
    from `f64`) and wrapping `usize` addition.
    `f64` is idealised as `real` throughout. */
module Rust {

  datatype Option<T> = None | Some(value: T)

  const USIZE_MAX: int := 0xFFFF_FFFF_FFFF_FFFF
  const USIZE_MODULUS: int := USIZE_MAX + 1
  const I32_MIN: int := -0x8000_0000
  const I32_MAX: int := 0x7FFF_FFFF
  const U32_MAX: int := 0xFFFF_FFFF

  type usize = x: int | 0 <= x <= USIZE_MAX
  type u32 = x: int | 0 <= x <= U32_MAX
  type u8 = x: int | 0 <= x <= 255
  type i32 = x: int | I32_MIN <= x <= I32_MAX

  function Abs(a: int): nat { if a < 0 then -a else a }

  function AbsR(a: real): real { if a < 0.0 then -a else a }

  /** `f64::max` and `f64::min` (no NaN in the idealisation). */
  function MaxR(a: real, b: real): real { if a >= b then a else b }

  function MinR(a: real, b: real): real { if a <= b then a else b }

  /** Integer division rounding toward zero, as `/` on Rust integers.
      The remainder is smaller than the divisor and carries the sign of
      the dividend, which determines the quotient uniquely. */
  function TruncDiv(a: int, b: int): (q: int)
    requires b != 0
    ensures Abs(a - q * b) < Abs(b)
    ensures a - q * b == 0 || (a - q * b < 0 <==> a < 0)
    ensures a >= 0 && b > 0 ==> q == a / b
  {
    var n := Abs(a) / Abs(b);
    TruncDivRemainder(a, b, n, Abs(a) % Abs(b));
    if (a < 0) == (b < 0) then n else -n
  }

  /** The quotient and remainder of |a| by |b|, moved back to the signs
      of a and b. */
  lemma TruncDivRemainder(a: int, b: int, n: int, m: int)
    requires b != 0 && n == Abs(a) / Abs(b) && m == Abs(a) % Abs(b)
    ensures (a < 0) == (b < 0) ==> a - n * b == (if a < 0 then -m else m)
    ensures (a < 0) != (b < 0) ==> a - (-n) * b == (if a < 0 then -m else m)
    ensures 0 <= m < Abs(b) && 0 <= n <= Abs(a)
  {
    var pa, d := Abs(a), Abs(b);
    assert pa == d * n + m;
    assert 0 <= m < d;
    assert n >= 0;
    if b > 0 {
      assert d * n == n * b;
      assert (-n) * b == -(n * b);
    } else {
      assert d * n == -(n * b);
      assert (-n) * b == -(n * b);
    }
    if n > pa {
      MulMonotone(n, d);
    }
  }

  lemma MulMonotone(n: int, d: int)
    requires n >= 0 && d >= 1
    ensures d * n >= n
  {
    assert d * n == n + (d - 1) * n;
  }

  /** `/` on `i32`: both panicking cases (division by zero, `MIN / -1`)
      are excluded by the precondition, so the quotient fits in `i32`. */
  function I32Div(a: i32, b: i32): (q: i32)
    requires b != 0 && !(a == I32_MIN && b == -1)
    ensures q == TruncDiv(a, b)
  {
    var n := Abs(a) / Abs(b);
    TruncDivRemainder(a, b, n, Abs(a) % Abs(b));
    assert n == -I32_MIN ==> Abs(b) == 1 by {
      if n == -I32_MIN && Abs(b) >= 2 {
        assert n * Abs(b) >= n * 2;
      }
    }
    TruncDiv(a, b)
  }

  /** `v as usize` for `v: i32`: sign extension, so the bit pattern is
      kept modulo 2^64 and a negative value becomes a huge index. */
  function I32ToUsize(v: i32): (u: usize)
    ensures u % USIZE_MODULUS == v % USIZE_MODULUS
    ensures v >= 0 ==> u == v
    ensures v < 0 ==> u > USIZE_MAX + I32_MIN
  {
    if v < 0 then v + USIZE_MODULUS else v
  }

  /** `q as usize` for `q: f64`: rounds toward zero and saturates, so
      every value below one maps to 0 and every value at or above
      `usize::MAX` maps to `usize::MAX`. */
  function F64ToUsize(q: real): (u: usize)
    ensures q < 1.0 ==> u == 0
    ensures 0.0 <= q < USIZE_MAX as real ==> u as real <= q < u as real + 1.0
    ensures q >= USIZE_MAX as real ==> u == USIZE_MAX
  {
    if q <= 0.0 then 0 else if q.Floor >= USIZE_MAX then USIZE_MAX else q.Floor
  }

  /** `+` on `usize` in a release build: wraps around modulo 2^64. */
  function WrappingAdd(a: usize, b: usize): (s: usize)
    ensures s == (a + b) % USIZE_MODULUS
    ensures a + b <= USIZE_MAX ==> s == a + b
  {
    if a + b <= USIZE_MAX then a + b else a + b - USIZE_MODULUS
  }
}
