/** The pixel-buffer fill of `update_mandelbrot`: for every pixel of the
    offscreen image, in row-major order, run the escape loop on the pixel's
    sample point, copy its colour into the pixel's 4-byte slot of the RGBA8
    buffer, and count the pixels that did not escape. */
module Render {
  import opened Numerics
  import opened Palette
  import opened Escape

  /** Size of the offscreen image the buffer is created for. */
  const MandelWidth: nat := 1280
  const MandelHeight: nat := 720

  /** The view the renderer samples: the plane point at the image centre, the
      half-height of the view in plane units, and the window's aspect ratio. */
  datatype View = View(center: Complex, zoom: real, aspect: real)

  /** One frame to render: a view, the image's own dimensions (read from its
      texture descriptor) and the iteration budget. */
  datatype Frame = Frame(view: View, width: nat, height: nat, maxIter: nat)

  /** The image the buffer belongs to is as wide as the slot offsets assume. */
  predicate WellShaped(f: Frame) {
    f.width == MandelWidth
  }

  /** Offset of pixel (x, y)'s four bytes. The row stride is the constant
      image width, not the width read from the image. */
  function Slot(x: nat, y: nat): (s: nat)
    ensures s % 4 == 0
    ensures x < MandelWidth ==> 4 * MandelWidth * y <= s < 4 * MandelWidth * (y + 1)
  {
    (y * MandelWidth + x) * 4
  }

  /** The plane point sampled at the centre of pixel (x, y). */
  function SamplePoint(f: Frame, x: nat, y: nat): Complex
    requires x < f.width && y < f.height
  {
    var u := (x as real + 0.5) / f.width as real;
    var v := (y as real + 0.5) / f.height as real;
    var cx := (u - 0.5) * 2.0 * f.view.aspect;
    var cy := (v - 0.5) * 2.0;
    Complex(cx * f.view.zoom + f.view.center.re, cy * f.view.zoom + f.view.center.im)
  }

  /** With a non-negative zoom and aspect, every sample point lies in the
      view's box: within `zoom * aspect` of the centre horizontally and
      within `zoom` vertically. */
  lemma SampleInView(f: Frame, x: nat, y: nat)
    requires x < f.width && y < f.height
    requires 0.0 <= f.view.zoom && 0.0 <= f.view.aspect
    ensures var c, o := SamplePoint(f, x, y), f.view.center;
      o.re - f.view.zoom * f.view.aspect <= c.re <= o.re + f.view.zoom * f.view.aspect &&
      o.im - f.view.zoom <= c.im <= o.im + f.view.zoom
  {
    var tx := ((x as real + 0.5) / f.width as real - 0.5) * 2.0;
    var ty := ((y as real + 0.5) / f.height as real - 0.5) * 2.0;
    PixelCentreOffset(x, f.width);
    PixelCentreOffset(y, f.height);
    OffsetInView(tx, ty, f.view.aspect, f.view.zoom);
    assert SamplePoint(f, x, y).re == tx * f.view.aspect * f.view.zoom + f.view.center.re;
    var c := SamplePoint(f, x, y);
    assert c.im == ty * f.view.zoom + f.view.center.im;
    assert -f.view.zoom <= ty * f.view.zoom <= f.view.zoom;
  }

  /** Offsets in [-1, 1] scaled by the aspect and the zoom stay inside the
      view's half-extents. */
  lemma OffsetInView(tx: real, ty: real, aspect: real, zoom: real)
    requires -1.0 <= tx <= 1.0 && -1.0 <= ty <= 1.0
    requires 0.0 <= zoom && 0.0 <= aspect
    ensures -(zoom * aspect) <= tx * aspect * zoom <= zoom * aspect
    ensures -zoom <= ty * zoom <= zoom
  {
    MulUnitBound(tx, aspect * zoom);
    assert tx * aspect * zoom == tx * (aspect * zoom);
    MulUnitBound(ty, zoom);
  }

  /** The centre of pixel `i` of `n`, as an offset from the middle of the
      image scaled to [-1, 1]. */
  lemma PixelCentreOffset(i: nat, n: nat)
    requires i < n
    ensures -1.0 <= ((i as real + 0.5) / n as real - 0.5) * 2.0 <= 1.0
  {
    var m := n as real;
    var u := (i as real + 0.5) / m;
    assert u * m == i as real + 0.5;
    MulSign(-u, m);
    MulSign(u - 1.0, m);
  }

  function PixelIterations(f: Frame, x: nat, y: nat): nat
    requires x < f.width && y < f.height
  {
    EscapeTime(SamplePoint(f, x, y), f.maxIter)
  }

  function PixelColour(f: Frame, curve: real -> real, x: nat, y: nat): Rgba
    requires IsIntensityCurve(curve)
    requires x < f.width && y < f.height
  {
    MandelbrotColor(PixelIterations(f, x, y), f.maxIter, curve)
  }

  /** Pixel number `p` in row-major order is (p % width, p / width). */
  predicate InteriorAt(f: Frame, p: nat)
    requires WellShaped(f) && p < MandelWidth * f.height
  {
    PixelIterations(f, p % MandelWidth, p / MandelWidth) >= f.maxIter
  }

  /** Byte `k` of the finished frame. */
  function FrameByte(f: Frame, curve: real -> real, k: nat): Byte
    requires IsIntensityCurve(curve)
    requires WellShaped(f) && k < 4 * MandelWidth * f.height
  {
    var p := k / 4;
    PixelColour(f, curve, p % MandelWidth, p / MandelWidth).Bytes()[k % 4]
  }

  /** The number of interior pixels among the first `n` in row-major order. */
  function InteriorCount(f: Frame, n: nat): (count: nat)
    requires WellShaped(f) && n <= MandelWidth * f.height
    ensures count <= n
  {
    if n == 0 then 0
    else InteriorCount(f, n - 1) + (if InteriorAt(f, n - 1) then 1 else 0)
  }

  /** The interior pixels among the first `n` in row-major order. */
  ghost function InteriorSet(f: Frame, n: nat): set<nat>
    requires WellShaped(f) && n <= MandelWidth * f.height
  {
    set p: nat | p < n && InteriorAt(f, p)
  }

  /** The interior count is the size of the set of interior pixels. */
  lemma {:induction false} InteriorCountIsCardinality(f: Frame, n: nat)
    requires WellShaped(f) && n <= MandelWidth * f.height
    ensures InteriorCount(f, n) == |InteriorSet(f, n)|
  {
    if n > 0 {
      InteriorCountIsCardinality(f, n - 1);
      InteriorSetStep(f, n);
    }
  }

  /** Looking at one more pixel adds it to the set exactly when it is interior. */
  lemma InteriorSetStep(f: Frame, n: nat)
    requires WellShaped(f) && 0 < n <= MandelWidth * f.height
    ensures InteriorAt(f, n - 1) ==>
      InteriorSet(f, n) == InteriorSet(f, n - 1) + {n - 1} && n - 1 !in InteriorSet(f, n - 1)
    ensures !InteriorAt(f, n - 1) ==> InteriorSet(f, n) == InteriorSet(f, n - 1)
  {
  }

  /** Counting pixel (x, y) adds one exactly when that pixel is interior. */
  lemma InteriorCountStep(f: Frame, x: nat, y: nat)
    requires WellShaped(f) && x < MandelWidth && y < f.height
    ensures y * MandelWidth + x + 1 <= MandelWidth * f.height
    ensures InteriorCount(f, y * MandelWidth + x + 1) ==
      InteriorCount(f, y * MandelWidth + x) + (if PixelIterations(f, x, y) >= f.maxIter then 1 else 0)
  {
    SlotDecode(x, y, 0);
  }

  /** Decoding a byte offset inside pixel (x, y)'s slot gives back the pixel
      and the channel. */
  lemma SlotDecode(x: nat, y: nat, j: nat)
    requires x < MandelWidth && j < 4
    ensures (Slot(x, y) + j) / 4 == y * MandelWidth + x
    ensures (Slot(x, y) + j) % 4 == j
    ensures (y * MandelWidth + x) % MandelWidth == x
    ensures (y * MandelWidth + x) / MandelWidth == y
  {
  }

  /** Every slot of an in-range pixel lies inside a `4 * width * height` buffer. */
  lemma SlotInBounds(x: nat, y: nat, height: nat)
    requires x < MandelWidth && y < height
    ensures Slot(x, y) + 4 <= 4 * MandelWidth * height
  {
  }

  /** Distinct pixels own disjoint slots. */
  lemma SlotsDisjoint(x: nat, y: nat, x': nat, y': nat)
    requires x < MandelWidth && x' < MandelWidth
    requires (x, y) != (x', y')
    ensures Slot(x, y) + 4 <= Slot(x', y') || Slot(x', y') + 4 <= Slot(x, y)
  {
  }

  /** The four bytes of pixel (x, y)'s slot are its colour. */
  lemma PixelSlotHoldsColour(f: Frame, curve: real -> real, x: nat, y: nat, j: nat)
    requires IsIntensityCurve(curve) && WellShaped(f)
    requires x < f.width && y < f.height && j < 4
    ensures Slot(x, y) + j < 4 * MandelWidth * f.height
    ensures FrameByte(f, curve, Slot(x, y) + j) == PixelColour(f, curve, x, y).Bytes()[j]
  {
    SlotDecode(x, y, j);
    SlotInBounds(x, y, f.height);
  }

  /** Every alpha byte of a finished frame is opaque and every red byte zero. */
  lemma FrameOpaqueAndRedFree(f: Frame, curve: real -> real, k: nat)
    requires IsIntensityCurve(curve) && WellShaped(f)
    requires k < 4 * MandelWidth * f.height
    ensures k % 4 == 3 ==> FrameByte(f, curve, k) == Opaque
    ensures k % 4 == 0 ==> FrameByte(f, curve, k) == 0
  {
  }

  /** `copy_from_slice` of one colour into the slot starting at `idx`. */
  method CopySlot(data: array<Byte>, idx: nat, colour: Rgba)
    requires idx + 4 <= data.Length
    modifies data
    ensures forall j :: 0 <= j < 4 ==> data[idx + j] == colour.Bytes()[j]
    ensures forall k :: 0 <= k < data.Length && !(idx <= k < idx + 4) ==> data[k] == old(data[k])
  {
    data[idx] := colour.r;
    data[idx + 1] := colour.g;
    data[idx + 2] := colour.b;
    data[idx + 3] := colour.a;
  }

  /** Run the escape loop for pixel (x, y) and pick its colour. */
  method ShadePixel(f: Frame, curve: real -> real, x: nat, y: nat) returns (colour: Rgba, interior: bool)
    requires IsIntensityCurve(curve)
    requires x < f.width && y < f.height
    ensures colour == PixelColour(f, curve, x, y)
    ensures interior <==> PixelIterations(f, x, y) >= f.maxIter
  {
    var it := EscapeCount(SamplePoint(f, x, y), f.maxIter);
    colour := MandelbrotColor(it, f.maxIter, curve);
    interior := it >= f.maxIter;
  }

  /** The body of the inner loop for pixel (x, y): run the escape loop, copy
      the colour into the pixel's slot and count the pixel if it is interior.
      Returns the updated interior count. */
  method PaintPixel(data: array<Byte>, f: Frame, curve: real -> real, x: nat, y: nat, interior: nat)
    returns (interior': nat)
    requires IsIntensityCurve(curve) && WellShaped(f)
    requires data.Length == 4 * MandelWidth * f.height
    requires x < MandelWidth && y < f.height
    requires forall k :: 0 <= k < Slot(x, y) ==> data[k] == FrameByte(f, curve, k)
    requires interior == InteriorCount(f, y * MandelWidth + x)
    modifies data
    ensures forall k :: 0 <= k < Slot(x, y) + 4 ==> data[k] == FrameByte(f, curve, k)
    ensures forall k :: Slot(x, y) + 4 <= k < data.Length ==> data[k] == old(data[k])
    ensures interior' == InteriorCount(f, y * MandelWidth + x + 1)
  {
    var colour, isInterior := ShadePixel(f, curve, x, y);
    var idx := Slot(x, y);
    SlotInBounds(x, y, f.height);
    CopySlot(data, idx, colour);
    forall k | idx <= k < idx + 4
      ensures data[k] == FrameByte(f, curve, k)
    {
      PixelSlotHoldsColour(f, curve, x, y, k - idx);
    }
    InteriorCountStep(f, x, y);
    interior' := interior;
    if isInterior {
      interior' := interior' + 1;
    }
  }

  /** The inner loop for row `y`: paint its pixels left to right. */
  method PaintRow(data: array<Byte>, f: Frame, curve: real -> real, y: nat, interior: nat)
    returns (interior': nat)
    requires IsIntensityCurve(curve) && WellShaped(f)
    requires data.Length == 4 * MandelWidth * f.height
    requires y < f.height
    requires forall k :: 0 <= k < Slot(0, y) ==> data[k] == FrameByte(f, curve, k)
    requires interior == InteriorCount(f, y * MandelWidth)
    modifies data
    ensures forall k :: 0 <= k < Slot(0, y + 1) ==> data[k] == FrameByte(f, curve, k)
    ensures forall k :: Slot(0, y + 1) <= k < data.Length ==> data[k] == old(data[k])
    ensures interior' == InteriorCount(f, (y + 1) * MandelWidth)
  {
    ghost var before := data[..];
    interior' := interior;
    var x := 0;
    while x < f.width
      invariant 0 <= x <= f.width
      invariant forall k :: 0 <= k < Slot(x, y) ==> data[k] == FrameByte(f, curve, k)
      invariant forall k :: Slot(x, y) <= k < data.Length ==> data[k] == before[k]
      invariant interior' == InteriorCount(f, y * MandelWidth + x)
    {
      interior' := PaintPixel(data, f, curve, x, y, interior');
      x := x + 1;
    }
    assert Slot(x, y) == Slot(0, y + 1);
  }

  /** Fill `data` with frame `f` and return the number of interior pixels. */
  method RenderFrame(data: array<Byte>, f: Frame, curve: real -> real) returns (interior: nat)
    requires IsIntensityCurve(curve) && WellShaped(f)
    requires data.Length == 4 * f.width * f.height
    requires data.Length <= U32Modulus
    modifies data
    ensures forall k :: 0 <= k < data.Length ==> data[k] == FrameByte(f, curve, k)
    ensures interior == InteriorCount(f, f.width * f.height)
    ensures interior < U32Modulus
  {
    assert data.Length == 4 * MandelWidth * f.height;
    interior := 0;
    var y := 0;
    while y < f.height
      invariant 0 <= y <= f.height
      invariant forall k :: 0 <= k < Slot(0, y) ==> data[k] == FrameByte(f, curve, k)
      invariant interior == InteriorCount(f, y * MandelWidth)
    {
      interior := PaintRow(data, f, curve, y, interior);
      y := y + 1;
    }
    assert Slot(0, y) == data.Length;
    assert y * MandelWidth == f.width * f.height;
  }

  /** With an image of two or more rows that is narrower than the constant
      width, the slot of the last pixel runs past a `4 * width * height`
      buffer, so the slice write is out of bounds. */
  lemma NarrowImageOverruns(width: nat, height: nat)
    requires 0 < width < MandelWidth && 2 <= height
    ensures Slot(width - 1, height - 1) + 4 > 4 * width * height
  {
    var rows: nat := height - 1;
    var gap: nat := MandelWidth - width;
    assert rows * gap >= gap by {
      assert rows * gap == (rows - 1) * gap + gap;
    }
    assert width * height == width * rows + width;
    assert rows * MandelWidth == rows * width + rows * gap;
    assert Slot(width - 1, height - 1) + 4 == 4 * (rows * MandelWidth) + 4 * width;
  }

  /** With an image wider than the constant width, pixel (MANDEL_WIDTH, 0)
      writes the same slot as pixel (0, 1): one pixel overwrites another. */
  lemma WideImageOverlaps(width: nat, height: nat)
    requires MandelWidth < width && 2 <= height
    ensures MandelWidth < width && 1 < height && Slot(MandelWidth, 0) == Slot(0, 1)
  {
  }

}
