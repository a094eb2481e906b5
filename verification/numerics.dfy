/** Integer widths and the numeric conversions the renderer and the clock rely on:
    Rust's float-to-integer `as` casts (truncating toward zero, saturating at the
    target type's bounds) and integer division that truncates toward zero. */
module Numerics {

  /** One channel of an RGBA8 pixel, a `u8`. */
  type Byte = b: int | 0 <= b < 256

  const U8Max: int := 0xFF
  const U32Max: int := 0xFFFF_FFFF
  /** 2^32: the number of values of a `u32`. */
  const U32Modulus: int := 0x1_0000_0000
  const I64Min: int := -0x8000_0000_0000_0000
  const I64Max: int := 0x7FFF_FFFF_FFFF_FFFF

  /** The integer part of `x`, dropping the fraction toward zero. */
  function TruncTowardZero(x: real): (n: int)
    ensures 0.0 <= x ==> 0 <= n && n as real <= x < n as real + 1.0
    ensures x < 0.0 ==> n <= 0 && n as real - 1.0 < x <= n as real
  {
    if x >= 0.0 then x.Floor else -((-x).Floor)
  }

  /** Rust's `x as T` for a float `x` and an integer type `T` whose range is
      `lo..=hi`: out-of-range values saturate, the rest truncate toward zero. */
  function SaturatingCast(x: real, lo: int, hi: int): (n: int)
    requires lo <= 0 <= hi
    ensures lo <= n <= hi
    ensures x <= lo as real ==> n == lo
    ensures x >= hi as real ==> n == hi
    ensures 0.0 <= x < hi as real ==> n as real <= x < n as real + 1.0
    ensures lo as real < x < 0.0 ==> n as real - 1.0 < x <= n as real
  {
    if x <= lo as real then lo
    else if x >= hi as real then hi
    else TruncTowardZero(x)
  }

  /** A cast never reverses the order of its arguments. */
  lemma SaturatingCastMonotone(x: real, y: real, lo: int, hi: int)
    requires lo <= 0 <= hi
    requires x <= y
    ensures SaturatingCast(x, lo, hi) <= SaturatingCast(y, lo, hi)
  {
    if lo as real < x && y < hi as real {
      if 0.0 <= x {
        assert x.Floor <= y.Floor;
      } else if y < 0.0 {
        assert (-y).Floor <= (-x).Floor;
      }
    }
  }

  /** Dividing a positive number by a smaller positive divisor gives more. */
  lemma DivAntitone(s: real, z1: real, z2: real)
    requires 0.0 < s && 0.0 < z2 <= z1
    ensures s / z1 <= s / z2
  {
    var r1, r2 := s / z1, s / z2;
    assert r1 * z1 == s;
    assert r2 * z2 == s;
    assert 0.0 < r2;
    assert r2 * (z1 - z2) >= 0.0;
    assert (r2 - r1) * z1 >= 0.0;
  }

  /** Multiplying by a positive number keeps the sign. */
  lemma MulSign(a: real, m: real)
    requires 0.0 < m
    ensures a < 0.0 ==> a * m < 0.0
    ensures a <= 0.0 ==> a * m <= 0.0
  {
  }

  /** A factor in [-1, 1] scales `k >= 0` into [-k, k]. */
  lemma MulUnitBound(t: real, k: real)
    requires -1.0 <= t <= 1.0 && 0.0 <= k
    ensures -k <= t * k <= k
  {
    if 0.0 < k {
      MulSign(t - 1.0, k);
      MulSign(-1.0 - t, k);
    }
  }

  /** Integer division rounding toward zero, as Rust's `/` on signed integers
      and chrono's whole-second count of a duration. */
  function TruncDiv(a: int, d: int): (q: int)
    requires d > 0
    ensures a >= 0 ==> 0 <= q && q * d <= a < q * d + d
    ensures a < 0 ==> q <= 0 && q * d - d < a <= q * d
  {
    if a >= 0 then
      DivBounds(a, d);
      a / d
    else
      DivBounds(-a, d);
      var q := (-a) / d;
      assert -q * d == -(q * d);
      -q
  }

  /** Euclidean division of a natural number brackets it between multiples. */
  lemma DivBounds(n: nat, d: int)
    requires d > 0
    ensures 0 <= n / d && (n / d) * d <= n < (n / d) * d + d
  {
    assert n == (n / d) * d + n % d;
  }

  /** `x` limited to `lo..=hi`, Rust's `f32::clamp`. */
  function Clamp(x: real, lo: real, hi: real): (r: real)
    requires lo <= hi
    ensures lo <= r <= hi
    ensures lo <= x <= hi ==> r == x
  {
    if x < lo then lo else if x > hi then hi else x
  }

  /** The larger of two reals, Rust's `f32::max`. */
  function Max(x: real, y: real): (r: real)
    ensures x <= r && y <= r
    ensures r == x || r == y
  {
    if x >= y then x else y
  }
}
