/** The colour of one Mandelbrot pixel from its escape-time iteration count
    (`mandelbrot_color`): interior points are opaque black, exterior points take
    a dark cyan-to-blue palette that never has a red component. */
module Palette {
  import opened Numerics

  /** An RGBA8 colour, the `[u8; 4]` the renderer copies into the image. */
  datatype Rgba = Rgba(r: Byte, g: Byte, b: Byte, a: Byte) {
    /** The four bytes in buffer order: red, green, blue, alpha. */
    function Bytes(): (s: seq<Byte>)
      ensures |s| == 4
      ensures s[0] == r && s[1] == g && s[2] == b && s[3] == a
    {
      [r, g, b, a]
    }
  }

  const Opaque: Byte := 0xFF
  const InteriorBlack: Rgba := Rgba(0, 0, 0, Opaque)
  /** Scale of the green channel at full intensity. */
  const GreenScale: real := 180.0
  /** Scale of the blue channel at full intensity. */
  const BlueScale: real := 255.0

  /** The intensity curve `t.powf(0.35)`, abstracted: a fraction of the
      iteration budget in [0, 1) is mapped into [0, 1). */
  ghost predicate IsIntensityCurve(curve: real -> real) {
    forall t: real :: 0.0 <= t < 1.0 ==> 0.0 <= curve(t) < 1.0
  }

  /** The curve never decreases on [0, 1), as `t^0.35` does not. */
  ghost predicate IsMonotoneCurve(curve: real -> real) {
    forall t, u :: 0.0 <= t <= u < 1.0 ==> curve(t) <= curve(u)
  }

  /** The colour of a pixel whose escape loop stopped at `iter` out of `maxIter`. */
  function MandelbrotColor(iter: nat, maxIter: nat, curve: real -> real): (c: Rgba)
    requires IsIntensityCurve(curve)
    ensures iter >= maxIter ==> c == InteriorBlack
    ensures c.r == 0 && c.a == Opaque
    ensures iter < maxIter ==> c.g < 180 && c.b < 255 && c.g <= c.b
  {
    if iter >= maxIter then InteriorBlack
    else
      var t := iter as real / maxIter as real;
      var intensity := curve(t);
      var g := SaturatingCast(intensity * GreenScale, 0, U8Max);
      var b := SaturatingCast(intensity * BlueScale, 0, U8Max);
      SaturatingCastMonotone(intensity * GreenScale, intensity * BlueScale, 0, U8Max);
      Rgba(0, g, b, Opaque)
  }

  /** For a fixed budget, more iterations before escape never give a darker
      exterior colour: green and blue are non-decreasing in `iter`. */
  lemma ColourMonotone(i: nat, j: nat, maxIter: nat, curve: real -> real)
    requires IsIntensityCurve(curve) && IsMonotoneCurve(curve)
    requires i <= j < maxIter
    ensures MandelbrotColor(i, maxIter, curve).g <= MandelbrotColor(j, maxIter, curve).g
    ensures MandelbrotColor(i, maxIter, curve).b <= MandelbrotColor(j, maxIter, curve).b
  {
    var m := maxIter as real;
    var ti, tj := i as real / m, j as real / m;
    FractionMonotone(i, j, maxIter);
    assert curve(ti) <= curve(tj);
    var ci, cj := curve(ti), curve(tj);
    assert MandelbrotColor(i, maxIter, curve).g == SaturatingCast(ci * GreenScale, 0, U8Max);
    assert MandelbrotColor(j, maxIter, curve).g == SaturatingCast(cj * GreenScale, 0, U8Max);
    assert MandelbrotColor(i, maxIter, curve).b == SaturatingCast(ci * BlueScale, 0, U8Max);
    assert MandelbrotColor(j, maxIter, curve).b == SaturatingCast(cj * BlueScale, 0, U8Max);
    SaturatingCastMonotone(ci * GreenScale, cj * GreenScale, 0, U8Max);
    SaturatingCastMonotone(ci * BlueScale, cj * BlueScale, 0, U8Max);
  }

  /** The fraction of the budget used grows with the count and stays in [0, 1). */
  lemma FractionMonotone(i: nat, j: nat, maxIter: nat)
    requires i <= j < maxIter
    ensures 0.0 <= i as real / maxIter as real <= j as real / maxIter as real < 1.0
  {
    var m := maxIter as real;
    var ti, tj := i as real / m, j as real / m;
    assert ti * m == i as real && tj * m == j as real;
    MulSign(ti, m);
    assert (tj - ti) * m == j as real - i as real;
    MulSign(tj - ti, m);
    assert (1.0 - tj) * m == m - j as real;
    MulSign(1.0 - tj, m);
  }
}
