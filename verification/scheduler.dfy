/** The animation bookkeeping of `update_mandelbrot`: a cyclic walk through a
    fixed list of target points, an exponential zoom curve across each cycle,
    the zoom-dependent iteration budget, and the recovery from a frame that has
    gone almost entirely black. Timers, `powf`, `log2` and the sine/cosine orbit
    are inputs; the state the source updates in place is the class `MandelState`. */
module Scheduler {
  import opened Numerics
  import opened Palette
  import opened Escape
  import opened Render

  const StartZoom: real := 0.70
  const MinZoom: real := 0.0006
  /** The zoom the state is created with; the first frame replaces it by a
      point of the zoom curve. */
  const InitialZoom: real := 3.0
  const CycleSeconds: real := 490.0
  /** Radius of the orbit around the target, as a fraction of the zoom. */
  const OrbitScale: real := 0.35
  const MinIterations: nat := 80
  const MaxIterations: nat := 1024

  /** The curated points of interest near the set's boundary. */
  const Targets: seq<Complex> := [
    Complex(-0.743643887037151, 0.13182590420533),   // seahorse valley
    Complex(-1.25066, 0.02012),                      // antenna region
    Complex(0.001643721971153, 0.822467633298876),   // spiral filaments
    Complex(-0.101096363845, 0.956286510809),        // boundary filigree
    Complex(-0.8, 0.156)                             // mini-set chain
  ]

  /** The fields of `MandelState` that never change after creation. */
  datatype Config = Config(startZoom: real, minZoom: real, cycleDuration: real, targets: seq<Complex>)

  /** The fields of `MandelState` that each frame updates. `cycleElapsed` is the
      cycle timer's elapsed time in seconds. */
  datatype ViewState = ViewState(zoom: real, center: Complex, cycleElapsed: real, targetIndex: nat)

  predicate ValidConfig(c: Config) {
    |c.targets| > 0 && 0.0 < c.startZoom && 0.0 < c.minZoom && 0.0 < c.cycleDuration
  }

  /** Indexing the target list cannot fail, and the zoom stays positive. */
  predicate ValidState(c: Config, s: ViewState) {
    s.targetIndex < |c.targets| && 0.0 < s.zoom
  }

  /** `powf` abstracted: a positive base raised to any exponent is positive. */
  ghost predicate PowPositive(powf: (real, real) -> real) {
    forall b: real, e: real :: 0.0 < b ==> 0.0 < powf(b, e)
  }

  /** `(i + 1) % n`: the next target, wrapping at the end of the list. */
  function NextIndex(i: nat, n: nat): (j: nat)
    requires i < n
    ensures j < n
    ensures j == if i + 1 < n then i + 1 else 0
  {
    (i + 1) % n
  }

  /** Stepping from a reduced index is stepping the unreduced one. */
  lemma NextIndexIsModular(a: nat, n: nat)
    requires 0 < n
    ensures NextIndex(a % n, n) == (a + 1) % n
  {
    var q, r := a / n, a % n;
    assert a == q * n + r;
    if r + 1 < n {
      assert a + 1 == q * n + (r + 1);
      ModUnique(a + 1, n, q, r + 1);
    } else {
      assert a + 1 == (q + 1) * n;
      ModUnique(a + 1, n, q + 1, 0);
    }
  }

  /** Euclidean division has one remainder. */
  lemma ModUnique(a: nat, n: nat, q: int, r: int)
    requires 0 < n && 0 <= r < n && a == q * n + r
    ensures a % n == r
  {
    var q', r' := a / n, a % n;
    assert a == q' * n + r';
    if q' > q {
      assert (q' - q) * n == r - r';
      MulAtLeast(q' - q, n);
    } else if q' < q {
      assert (q - q') * n == r' - r;
      MulAtLeast(q - q', n);
    }
  }

  lemma MulAtLeast(k: int, n: int)
    requires 1 <= k && 0 < n
    ensures k * n >= n
  {
  }

  /** `k` target advances from `i`. */
  function AdvanceBy(i: nat, k: nat, n: nat): (j: nat)
    requires i < n
    ensures j < n
  {
    if k == 0 then i else NextIndex(AdvanceBy(i, k - 1, n), n)
  }

  /** However many cycles complete, the index is the start plus the number of
      advances, modulo the length of the list. */
  lemma {:induction false} AdvanceByIsModular(i: nat, k: nat, n: nat)
    requires i < n
    ensures AdvanceBy(i, k, n) == (i + k) % n
  {
    if k == 0 {
      ModUnique(i, n, 0, i);
    } else {
      AdvanceByIsModular(i, k - 1, n);
      NextIndexIsModular(i + k - 1, n);
    }
  }

  /** Fraction of the cycle elapsed, clamped to [0, 1]. */
  function Progress(elapsed: real, duration: real): (p: real)
    requires 0.0 < duration
    ensures 0.0 <= p <= 1.0
    ensures 0.0 <= elapsed <= duration ==> p * duration == elapsed
  {
    Clamp(elapsed / duration, 0.0, 1.0)
  }

  /** `start_zoom * (min_zoom / start_zoom)^progress`. */
  function CurveZoom(c: Config, progress: real, powf: (real, real) -> real): (z: real)
    requires ValidConfig(c) && PowPositive(powf)
    ensures 0.0 < z
  {
    c.startZoom * powf(c.minZoom / c.startZoom, progress)
  }

  /** With a `powf` that is exact at exponents 0 and 1, a cycle starts at the
      start zoom and ends at the minimum zoom. */
  lemma CurveZoomEndpoints(c: Config, powf: (real, real) -> real)
    requires ValidConfig(c) && PowPositive(powf)
    requires forall b: real :: 0.0 < b ==> powf(b, 0.0) == 1.0 && powf(b, 1.0) == b
    ensures CurveZoom(c, 0.0, powf) == c.startZoom
    ensures CurveZoom(c, 1.0, powf) == c.minZoom
  {
    var ratio := c.minZoom / c.startZoom;
    assert 0.0 < ratio;
    assert c.startZoom * ratio == c.minZoom;
  }

  /** The centre: the target plus the orbit offset scaled by the zoom. */
  function OrbitCenter(target: Complex, wobble: Complex, zoom: real): Complex {
    OrbitPoint(target, wobble, OrbitScale * zoom)
  }

  /** `base + wobble * radius`, the point on the orbit of the given radius. */
  function OrbitPoint(base: Complex, wobble: Complex, radius: real): Complex {
    Complex(base.re + wobble.re * radius, base.im + wobble.im * radius)
  }

  /** With a sine/cosine wobble in [-1, 1] and a non-negative zoom, the centre
      stays within `0.35 * zoom` of the target on each axis. */
  lemma OrbitStaysNearTarget(target: Complex, wobble: Complex, zoom: real)
    requires -1.0 <= wobble.re <= 1.0 && -1.0 <= wobble.im <= 1.0
    requires 0.0 <= zoom
    ensures target.re - OrbitScale * zoom <= OrbitCenter(target, wobble, zoom).re <= target.re + OrbitScale * zoom
    ensures target.im - OrbitScale * zoom <= OrbitCenter(target, wobble, zoom).im <= target.im + OrbitScale * zoom
  {
    ScaleNonNegative(OrbitScale, zoom);
    OrbitWithinRadius(target, wobble, OrbitScale * zoom);
  }

  /** A point on an orbit of radius `r` with a wobble in [-1, 1] lies within
      `r` of the base on each axis. */
  lemma OrbitWithinRadius(base: Complex, wobble: Complex, r: real)
    requires -1.0 <= wobble.re <= 1.0 && -1.0 <= wobble.im <= 1.0
    requires 0.0 <= r
    ensures base.re - r <= OrbitPoint(base, wobble, r).re <= base.re + r
    ensures base.im - r <= OrbitPoint(base, wobble, r).im <= base.im + r
  {
    var dre, dim := wobble.re * r, wobble.im * r;
    MulUnitBound(wobble.re, r);
    MulUnitBound(wobble.im, r);
    assert OrbitPoint(base, wobble, r) == Complex(base.re + dre, base.im + dim);
  }

  /** A product of non-negative reals is non-negative. */
  lemma ScaleNonNegative(a: real, b: real)
    requires 0.0 <= a && 0.0 <= b
    ensures 0.0 <= a * b
  {
    if 0.0 < b {
      MulSign(-a, b);
    }
  }

  function IterationBudget(startZoom: real, zoom: real, log2: real -> real): (m: nat)
    requires 0.0 < zoom
    ensures MinIterations <= m <= MaxIterations
  {
    var zoomFactor := Max(startZoom / zoom, 1.0);
    var dynamicIters := 80.0 + 20.0 * log2(zoomFactor);
    SaturatingCast(Clamp(dynamicIters, 80.0, 1024.0), 0, U32Max)
  }

  /** `log2` abstracted: it never decreases on [1, infinity). */
  ghost predicate IsMonotoneLog(log2: real -> real) {
    forall a, b :: 1.0 <= a <= b ==> log2(a) <= log2(b)
  }

  /** Zooming in never lowers the budget. */
  lemma BudgetGrowsAsZoomShrinks(startZoom: real, z1: real, z2: real, log2: real -> real)
    requires 0.0 < startZoom && 0.0 < z2 <= z1
    requires IsMonotoneLog(log2)
    ensures IterationBudget(startZoom, z1, log2) <= IterationBudget(startZoom, z2, log2)
  {
    var r1, r2 := startZoom / z1, startZoom / z2;
    DivAntitone(startZoom, z1, z2);
    var f1, f2 := Max(r1, 1.0), Max(r2, 1.0);
    assert log2(f1) <= log2(f2);
    var d1, d2 := 80.0 + 20.0 * log2(f1), 80.0 + 20.0 * log2(f2);
    SaturatingCastMonotone(Clamp(d1, 80.0, 1024.0), Clamp(d2, 80.0, 1024.0), 0, U32Max);
  }

  /** At or above the start zoom (where `log2(1) = 0`) the budget is the minimum. */
  lemma BudgetAtStartZoom(startZoom: real, zoom: real, log2: real -> real)
    requires 0.0 < startZoom <= zoom
    requires log2(1.0) == 0.0
    ensures IterationBudget(startZoom, zoom, log2) == MinIterations
  {
    assert startZoom / zoom <= 1.0 by {
      assert (startZoom / zoom) * zoom == startZoom;
    }
  }

  /** More than 98.5% of the frame is interior: `interior / total > 0.985`,
      compared exactly. */
  predicate Degenerate(interior: nat, total: nat): (b: bool)
    ensures b ==> 0 < interior
    ensures interior == 0 ==> !b
  {
    interior * 1000 > 985 * total
  }

  /** For a non-empty frame the exact integer test is the ratio test of the
      source, `interior / total > 0.985`, in real arithmetic. */
  lemma DegenerateIsRatio(interior: nat, total: nat)
    requires 0 < total
    ensures Degenerate(interior, total) <==> interior as real / total as real > 0.985
  {
    var t, i := total as real, interior as real;
    RatioAgainstProduct(i, t, 0.985);
    assert (interior * 1000) as real == i * 1000.0;
    assert (985 * total) as real == 985.0 * t;
  }

  /** Dividing by a positive `t` turns "exceeds `q * t`" into "ratio exceeds `q`". */
  lemma RatioAgainstProduct(i: real, t: real, q: real)
    requires 0.0 < t
    ensures i / t > q <==> i > q * t
  {
    var r := i / t;
    assert r * t == i;
    RatioAbove(r, t, q);
  }

  /** For a positive `t`, `r` exceeds `q` exactly when `r * t` exceeds `q * t`. */
  lemma RatioAbove(r: real, t: real, q: real)
    requires 0.0 < t
    ensures r > q <==> r * t > q * t
  {
    assert r * t - q * t == (r - q) * t;
    MulSign(r - q, t);
    MulSign(q - r, t);
    assert (q - r) * t == -((r - q) * t);
  }

  /** For the 1280x720 image, a frame is degenerate from 907777 interior
      pixels on; a frame that is entirely interior is degenerate unless empty. */
  lemma DegenerateThreshold(interior: nat, total: nat)
    ensures Degenerate(interior, MandelWidth * MandelHeight) <==> interior >= 907777
    ensures Degenerate(total, total) <==> total > 0
  {
  }

  /** The first half of a frame: advance the target when the cycle timer has
      just finished, then put the view on the zoom curve near the target. */
  function Retarget(c: Config, s: ViewState, cycleFinished: bool, elapsedNow: real, wobble: Complex,
                    powf: (real, real) -> real): (s': ViewState)
    requires ValidConfig(c) && ValidState(c, s) && PowPositive(powf)
    ensures ValidState(c, s')
    ensures s'.targetIndex == if cycleFinished then NextIndex(s.targetIndex, |c.targets|) else s.targetIndex
    ensures s'.cycleElapsed == elapsedNow
  {
    var index := if cycleFinished then NextIndex(s.targetIndex, |c.targets|) else s.targetIndex;
    var zoom := CurveZoom(c, Progress(elapsedNow, c.cycleDuration), powf);
    ViewState(zoom, OrbitCenter(c.targets[index], wobble, zoom), elapsedNow, index)
  }

  /** The frame the renderer draws from a view state. */
  function FrameOf(c: Config, s: ViewState, width: nat, height: nat, aspect: real, log2: real -> real): (f: Frame)
    requires ValidState(c, s)
    ensures MinIterations <= f.maxIter <= MaxIterations
  {
    Frame(View(s.center, s.zoom, aspect), width, height, IterationBudget(c.startZoom, s.zoom, log2))
  }

  /** The second half of a frame: after a degenerate render, move to the next
      target, restart the cycle and return to the start zoom centred on it. */
  function Recover(c: Config, s: ViewState, interior: nat, total: nat): (s': ViewState)
    requires ValidConfig(c) && ValidState(c, s)
    ensures ValidState(c, s')
    ensures Degenerate(interior, total) ==>
      s'.targetIndex == NextIndex(s.targetIndex, |c.targets|) && s'.zoom == c.startZoom &&
      s'.center == c.targets[s'.targetIndex] && s'.cycleElapsed == 0.0
    ensures !Degenerate(interior, total) ==> s' == s
  {
    if Degenerate(interior, total) then
      var index := NextIndex(s.targetIndex, |c.targets|);
      ViewState(c.startZoom, c.targets[index], 0.0, index)
    else s
  }

  /** One rendered frame moves the target index forward by one for a finished
      cycle and by one more for a degenerate frame, modulo the list length. */
  lemma FrameMovesIndex(c: Config, s: ViewState, cycleFinished: bool, elapsedNow: real, wobble: Complex,
                        powf: (real, real) -> real, interior: nat, total: nat)
    requires ValidConfig(c) && ValidState(c, s) && PowPositive(powf)
    ensures var s1 := Retarget(c, s, cycleFinished, elapsedNow, wobble, powf);
      Recover(c, s1, interior, total).targetIndex ==
        (s.targetIndex + (if cycleFinished then 1 else 0) + (if Degenerate(interior, total) then 1 else 0)) % |c.targets|
  {
    var n := |c.targets|;
    var i := s.targetIndex;
    ModUnique(i, n, 0, i);
    var s1 := Retarget(c, s, cycleFinished, elapsedNow, wobble, powf);
    var k := if cycleFinished then 1 else 0;
    assert s1.targetIndex == (i + k) % n;
    if Degenerate(interior, total) {
      NextIndexIsModular(i + k, n);
    }
  }

  /** The `MandelState` resource, minus the image handle and the frame-rate timer. */
  class MandelState {
    var zoom: real
    var center: Complex
    const startZoom: real
    const minZoom: real
    /** Elapsed time of the cycle timer, in seconds. */
    var cycleElapsed: real
    const cycleDuration: real
    const targets: seq<Complex>
    var targetIndex: nat

    function Cfg(): Config {
      Config(startZoom, minZoom, cycleDuration, targets)
    }

    function State(): ViewState
      reads this
    {
      ViewState(zoom, center, cycleElapsed, targetIndex)
    }

    ghost predicate Valid()
      reads this
    {
      ValidConfig(Cfg()) && ValidState(Cfg(), State())
    }

    /** The resource inserted by `setup_mandelbrot`. */
    constructor ()
      ensures Valid()
      ensures Cfg() == Config(StartZoom, MinZoom, CycleSeconds, Targets)
      ensures State() == ViewState(InitialZoom, Targets[0], 0.0, 0)
    {
      startZoom := StartZoom;
      minZoom := MinZoom;
      zoom := InitialZoom;
      center := Targets[0];
      cycleDuration := CycleSeconds;
      cycleElapsed := 0.0;
      targets := Targets;
      targetIndex := 0;
    }

    /** Advance the target on a finished cycle and move along the zoom curve.
        `elapsedNow` is the cycle timer's elapsed time after this frame's tick,
        `wobble` the pair `(sin(0.11 t), cos(0.13 t))`. */
    method AdvanceCycle(cycleFinished: bool, elapsedNow: real, wobble: Complex, powf: (real, real) -> real)
      requires Valid() && PowPositive(powf)
      modifies this
      ensures Valid()
      ensures State() == Retarget(Cfg(), old(State()), cycleFinished, elapsedNow, wobble, powf)
    {
      ghost var expected := Retarget(Cfg(), State(), cycleFinished, elapsedNow, wobble, powf);
      if cycleFinished {
        targetIndex := (targetIndex + 1) % |targets|;
      }
      assert targetIndex == expected.targetIndex;
      cycleElapsed := elapsedNow;
      var progress := Progress(cycleElapsed, cycleDuration);
      zoom := CurveZoom(Cfg(), progress, powf);
      assert zoom == expected.zoom;
      var base := targets[targetIndex];
      center := OrbitCenter(base, wobble, zoom);
    }

    /** Compute the budget, fill the buffer, count interior pixels and recover
        from a degenerate frame. Returns the interior count. */
    method RenderAndRecover(data: array<Byte>, width: nat, height: nat, aspect: real,
                            log2: real -> real, curve: real -> real) returns (interior: nat)
      requires Valid() && IsIntensityCurve(curve)
      requires width == MandelWidth && data.Length == 4 * width * height && data.Length <= U32Modulus
      modifies this, data
      ensures Valid()
      ensures var f := FrameOf(Cfg(), old(State()), width, height, aspect, log2);
        (forall k :: 0 <= k < data.Length ==> data[k] == FrameByte(f, curve, k)) &&
        interior == InteriorCount(f, width * height)
      ensures State() == Recover(Cfg(), old(State()), interior, width * height)
    {
      var zoomFactor := Max(startZoom / zoom, 1.0);
      var dynamicIters := 80.0 + 20.0 * log2(zoomFactor);
      var maxIter := SaturatingCast(Clamp(dynamicIters, 80.0, 1024.0), 0, U32Max);
      var f := Frame(View(center, zoom, aspect), width, height, maxIter);
      assert f == FrameOf(Cfg(), State(), width, height, aspect, log2);
      interior := RenderFrame(data, f, curve);
      var totalPixels := width * height;
      if interior * 1000 > 985 * totalPixels {
        targetIndex := (targetIndex + 1) % |targets|;
        cycleElapsed := 0.0;
        zoom := startZoom;
        center := targets[targetIndex];
      }
    }

    /** One call of `update_mandelbrot`. `frameDue` is whether the frame-rate
        timer just finished; `data` is null when the image or its pixel data is
        not available, in which case nothing is drawn. */
    method Update(frameDue: bool, cycleFinished: bool, elapsedNow: real, wobble: Complex,
                  powf: (real, real) -> real, data: array?<Byte>, width: nat, height: nat,
                  aspect: real, log2: real -> real, curve: real -> real)
      requires Valid() && PowPositive(powf) && IsIntensityCurve(curve)
      requires data != null ==> width == MandelWidth && data.Length == 4 * width * height && data.Length <= U32Modulus
      modifies this, data
      ensures Valid()
      ensures !frameDue ==> State() == old(State()) && (data != null ==> unchanged(data))
      ensures frameDue && data == null ==>
        State() == Retarget(Cfg(), old(State()), cycleFinished, elapsedNow, wobble, powf)
      ensures frameDue && data != null ==>
        var s1 := Retarget(Cfg(), old(State()), cycleFinished, elapsedNow, wobble, powf);
        var f := FrameOf(Cfg(), s1, width, height, aspect, log2);
        (forall k :: 0 <= k < data.Length ==> data[k] == FrameByte(f, curve, k)) &&
        State() == Recover(Cfg(), s1, InteriorCount(f, width * height), width * height)
    {
      if !frameDue {
        return;
      }
      AdvanceCycle(cycleFinished, elapsedNow, wobble, powf);
      if data == null {
        return;
      }
      var _ := RenderAndRecover(data, width, height, aspect, log2, curve);
    }
  }
}
