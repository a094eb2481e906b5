/** The escape-time iteration of one sample point `c`: `z <- z^2 + c` from
    `z = 0`, stopped as soon as `|z|^2 > 4` or after `maxIter` steps.
    Complex numbers are pairs of reals (the source uses `f32`). */
module Escape {

  datatype Complex = Complex(re: real, im: real)

  const Origin: Complex := Complex(0.0, 0.0)

  /** One step of the quadratic map, component-wise as the source writes it.
      The first step from the origin lands on `c`, and points of the real
      axis stay on it when `c` is real. */
  function Step(z: Complex, c: Complex): (r: Complex)
    ensures z == Origin ==> r == c
    ensures z.im == 0.0 && c.im == 0.0 ==> r.im == 0.0
  {
    Complex(z.re * z.re - z.im * z.im + c.re, 2.0 * z.re * z.im + c.im)
  }

  /** The escape test `zx*zx + zy*zy > 4`: a coordinate beyond 2 in size always
      escapes, and escaping needs a coordinate whose square exceeds 2. */
  predicate Escaped(z: Complex): (b: bool)
    ensures z.re * z.re > 4.0 || z.im * z.im > 4.0 ==> b
    ensures b ==> z.re * z.re > 2.0 || z.im * z.im > 2.0
  {
    z.re * z.re + z.im * z.im > 4.0
  }

  /** z_n, the n-th point of the orbit of 0 under `z <- z^2 + c`. */
  function Orbit(c: Complex, n: nat): Complex {
    if n == 0 then Origin else Step(Orbit(c, n - 1), c)
  }

  /** The loop's step number `k` (counting from 0) leaves the disc of radius 2. */
  predicate EscapesAt(c: Complex, k: nat) {
    Escaped(Orbit(c, k + 1))
  }

  /** The first step at or after `from` that escapes, or `maxIter` if none
      before `maxIter` does. */
  function FirstEscape(c: Complex, from: nat, maxIter: nat): (r: nat)
    requires from <= maxIter
    ensures from <= r <= maxIter
    ensures forall k :: from <= k < r ==> !EscapesAt(c, k)
    ensures r < maxIter ==> EscapesAt(c, r)
    decreases maxIter - from
  {
    if from == maxIter then maxIter
    else if EscapesAt(c, from) then from
    else FirstEscape(c, from + 1, maxIter)
  }

  /** The iteration count the escape loop ends with. */
  function EscapeTime(c: Complex, maxIter: nat): (r: nat)
    ensures r <= maxIter
  {
    FirstEscape(c, 0, maxIter)
  }

  /** A point counts as interior exactly when none of its first `maxIter`
      steps escapes. */
  lemma InteriorIffNeverEscapes(c: Complex, maxIter: nat)
    ensures EscapeTime(c, maxIter) == maxIter <==> forall k :: 0 <= k < maxIter ==> !EscapesAt(c, k)
  {
    var r := EscapeTime(c, maxIter);
    if r < maxIter {
      assert EscapesAt(c, r);
    }
  }

  /** The escape loop of `update_mandelbrot` for one sample point. */
  method EscapeCount(c: Complex, maxIter: nat) returns (it: nat)
    ensures it == EscapeTime(c, maxIter)
    ensures it <= maxIter
    ensures forall k :: 0 <= k < it ==> !EscapesAt(c, k)
    ensures it < maxIter ==> EscapesAt(c, it)
  {
    var z := Origin;
    it := 0;
    while it < maxIter
      invariant it <= maxIter
      invariant z == Orbit(c, it)
      invariant FirstEscape(c, it, maxIter) == EscapeTime(c, maxIter)
    {
      // (zx, zy) := (zx*zx - zy*zy + cx, 2*zx*zy + cy)
      z := Step(z, c);
      if Escaped(z) {
        assert EscapesAt(c, it);
        break;
      }
      it := it + 1;
    }
  }
}
