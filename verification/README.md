# Standby display: Mandelbrot renderer, zoom scheduler and countdown clock

A Dafny model of the logic in `src/main.rs`, a Bevy program that shows an
animated Mandelbrot backdrop with a countdown to a broadcast start time.
The model covers the parts of the program that make decisions:

- **Palette** (`mandelbrot_color`): interior pixels are opaque black; exterior
  pixels get `[0, g, b, 255]` from an intensity curve. The `as u8` casts
  truncate and saturate, so green stays below 180 and blue below 255. Green
  never exceeds blue, and red is always 0.
- **Escape** (the `while it < max_iter` loop): `EscapeCount` is a loop
  proved equal to `EscapeTime`. `EscapeTime` is the first step whose orbit
  point leaves the radius-2 disc, or `max_iter` if none does.
- **Render** (the nested `y`/`x` loops): `RenderFrame` fills an
  `array<Byte>` in place and counts the interior pixels. Pixel `(x, y)` goes
  to the slot at `(y * MANDEL_WIDTH + x) * 4`. The method's postcondition
  gives every byte of the buffer, and the lemmas beside it prove that
  slots are in bounds, that slots do not overlap, and that every alpha byte
  is opaque.
- **Scheduler** (`MandelState` and the bookkeeping of `update_mandelbrot`):
  - the target index advances cyclically;
  - each cycle follows the exponential zoom curve;
  - the iteration budget is clamped to [80, 1024];
  - after a frame that is more than 98.5% interior, the scheduler moves to
    the next target, restarts the cycle, returns to the start zoom and
    centres on the new target.

  The class methods are proved against the pure step functions `Retarget`
  and `Recover`.
- **Clock** (`AppClock`, `setup_clock`, `advance_clock`,
  `update_countdown_text`): instants are integer microseconds. The default
  start is ten minutes before the target. Each frame advances the clock by
  the scaled delta truncated to whole microseconds, unless it is paused,
  has speed zero, or the delta is not finite. The display shows `MM:SS` of
  the whole seconds left. Those seconds are truncated toward zero, and the
  hours are dropped. Once a whole second or more has passed since the target,
  the display shows `LIVE` in green.

Floating-point values are modelled as reals. `powf` (intensity curve and
zoom curve) and `log2` are function parameters. Each comes with only the
range or monotonicity fact a property needs. The sine/cosine orbit is the
input `wobble`.

In these details the model follows the code rather than its comments or the obvious intent:
- The initial zoom is 3.0, not the start zoom 0.70. The first frame
  overwrites it.
- The default clock start is 10 minutes before the target. A comment in the
  code says 5.
- The colour channels are truncated (`as u8`), not rounded.
- The cycle lasts 490 s. A comment in the code says 90 s.
- When the whole seconds left lie in [0, 3600), the display shows minutes
  and seconds (`MM:SS`). It drops the hours of a longer wait.
- A remaining time between −1 s and 0 s still shows `00:00`. This is
  because chrono's `num_seconds` truncates toward zero.

## Model

| member | source | states |
|---|---|---|
| Numerics.TruncTowardZero | src/main.rs:178-179 | the float-to-integer cast drops the fraction toward zero: 0 <= n <= x < n+1 for x >= 0, n-1 < x <= n <= 0 for x < 0 |
| Numerics.SaturatingCast | src/main.rs:178-179 | `as` into an integer type saturates at its bounds and truncates toward zero in between |
| Numerics.SaturatingCastMonotone | src/main.rs:178-179 | the saturating cast preserves order |
| Numerics.TruncDiv | src/main.rs:310 | signed division rounding toward zero, with the bracket `q*d <= a < q*d + d` (or its mirror for a < 0) |
| Numerics.Clamp | src/main.rs:224 | the result lies in [lo, hi] and equals x when x already does |
| Numerics.Max | src/main.rs:222 | the result is one of the two arguments and bounds both |
| Palette.MandelbrotColor | src/main.rs:169-181 | iter >= max_iter gives exactly [0,0,0,255]; every colour has red 0 and alpha 255; exterior green < 180, blue < 255, green <= blue |
| Palette.ColourMonotone | src/main.rs:175-179 | for a non-decreasing intensity curve, green and blue never decrease as the exterior iteration count grows |
| Escape.FirstEscape | src/main.rs:241-253 | the result is the first escaping step at or after `from`, or max_iter when no step before it escapes |
| Escape.EscapeTime | src/main.rs:241-253 | the loop's final count never exceeds max_iter |
| Escape.InteriorIffNeverEscapes | src/main.rs:241-253 | the count equals max_iter exactly when none of the first max_iter steps has `zx²+zy² > 4` |
| Escape.EscapeCount | src/main.rs:241-253 | the loop ends with `it == EscapeTime(c, max_iter)`, no earlier step escaped, and the step at `it` escaped when `it < max_iter` |
| Escape.Step | src/main.rs:245-248 | one step of `z <- z^2 + c` on the components: the first step from the origin lands on c, and the real axis maps to itself when c is real |
| Escape.Escaped | src/main.rs:249 | the escape test `zx²+zy² > 4`: a coordinate whose square exceeds 4 always escapes, and escaping needs a coordinate whose square exceeds 2 |
| Render.Slot | src/main.rs:256 | the byte offset `(y * MANDEL_WIDTH + x) * 4` is a multiple of 4 and, for x < MANDEL_WIDTH, lies inside row y's band [4*W*y, 4*W*(y+1)) |
| Render.SampleInView | src/main.rs:233-239 | the sample point at pixel (x, y)'s centre lies within zoom*aspect of the view centre horizontally and within zoom vertically |
| Render.ShadePixel | src/main.rs:241-261 | the pixel's colour is `mandelbrot_color` of its escape count, and it is interior exactly when that count reaches max_iter |
| Render.InteriorCount | src/main.rs:259-261 | the running interior counter after n pixels is at most n |
| Render.InteriorCountIsCardinality | src/main.rs:259-261 | the counter equals the number of interior pixels among the first n |
| Render.SlotDecode | src/main.rs:256 | a byte offset inside pixel (x, y)'s slot decodes back to (x, y) and the channel |
| Render.SlotInBounds | src/main.rs:256-257 | every write range idx..idx+4 of an in-range pixel lies inside a 4*W*H buffer |
| Render.SlotsDisjoint | src/main.rs:256-257 | distinct pixels write disjoint 4-byte ranges |
| Render.PixelSlotHoldsColour | src/main.rs:255-257 | the finished frame's slot for (x, y) holds that pixel's colour, byte by byte |
| Render.FrameOpaqueAndRedFree | src/main.rs:255-257 | in the finished frame every alpha byte is 255 and every red byte 0 |
| Render.CopySlot | src/main.rs:257 | copies the 4 colour bytes to idx..idx+4 and leaves every other byte unchanged |
| Render.PaintPixel | src/main.rs:233-261 | one inner iteration extends the finished prefix of the buffer by pixel (x, y)'s slot and the count by its interior flag; every byte after the slot is unchanged |
| Render.PaintRow | src/main.rs:232-262 | one pass of the inner loop finishes row y: the finished prefix of the buffer and the interior count both move to the start of row y+1; every byte from row y+1 on is unchanged |
| Render.RenderFrame | src/main.rs:229-263 | after the loops every byte of the buffer is the frame's byte for its pixel, and the counter equals the number of interior pixels |
| Render.NarrowImageOverruns | src/main.rs:256-257 | for any width 0 < w < MANDEL_WIDTH and any height h >= 2, the last pixel's slot ends past a 4*w*h buffer, so the constant-stride write is out of bounds |
| Render.WideImageOverlaps | src/main.rs:256-257 | for an image wider than MANDEL_WIDTH with two or more rows, pixel (MANDEL_WIDTH, 0) writes the same slot as pixel (0, 1) |
| Scheduler.NextIndex | src/main.rs:196 | the next index is below the list length: i+1, or 0 at the end of the list |
| Scheduler.NextIndexIsModular | src/main.rs:268 | advancing a reduced index is advancing the unreduced one modulo the length |
| Scheduler.AdvanceBy | src/main.rs:194-197 | any number of cycle completions keeps the index below the list length |
| Scheduler.AdvanceByIsModular | src/main.rs:194-197 | k advances from i land on (i + k) % len |
| Scheduler.Progress | src/main.rs:200-202 | progress lies in [0, 1] and is elapsed/duration inside the cycle |
| Scheduler.CurveZoom | src/main.rs:203 | the zoom on the curve is positive |
| Scheduler.CurveZoomEndpoints | src/main.rs:203 | progress 0 gives start_zoom, progress 1 gives min_zoom |
| Scheduler.OrbitStaysNearTarget | src/main.rs:206-209 | with the sine/cosine wobble in [-1, 1] and a non-negative zoom, the centre lies within 0.35*zoom of the target on each axis |
| Scheduler.IterationBudget | src/main.rs:222-224 | the budget lies in [80, 1024] for every positive zoom |
| Scheduler.BudgetGrowsAsZoomShrinks | src/main.rs:222-224 | a smaller zoom never gets a smaller budget |
| Scheduler.BudgetAtStartZoom | src/main.rs:222-224 | at or above start_zoom the budget is exactly 80 |
| Scheduler.Degenerate | src/main.rs:266 | a degenerate frame has at least one interior pixel, and a frame without interior pixels is never degenerate |
| Scheduler.DegenerateIsRatio | src/main.rs:266 | for a non-empty frame the integer test holds exactly when interior/total > 0.985 in real arithmetic |
| Scheduler.DegenerateThreshold | src/main.rs:266-267 | a 1280x720 frame is degenerate from 907777 interior pixels on; an all-interior frame is degenerate unless it has no pixels |
| Scheduler.Retarget | src/main.rs:194-209 | the index advances by one modulo the length on a finished cycle; the state stays valid (index in range, zoom positive) |
| Scheduler.FrameOf | src/main.rs:215-224 | the rendered frame's budget lies in [80, 1024] |
| Scheduler.Recover | src/main.rs:265-272 | on a degenerate frame: next target, zoom == start_zoom, center == targets[new index], cycle restarted; otherwise nothing changes |
| Scheduler.FrameMovesIndex | src/main.rs:194-272 | one frame moves the index by (cycle finished) + (degenerate) modulo the length |
| Scheduler.MandelState.constructor | src/main.rs:130-140 | zoom 3.0, start 0.70, min 0.0006, 490 s cycle, the five targets, index 0, centre on the first target |
| Scheduler.MandelState.AdvanceCycle | src/main.rs:193-209 | the new state is `Retarget` of the old one |
| Scheduler.MandelState.RenderAndRecover | src/main.rs:215-272 | the buffer holds the frame drawn from the old view, the count is its interior count, the new state is `Recover` of the old one |
| Scheduler.MandelState.Update | src/main.rs:183-273 | nothing changes when no frame is due; without a buffer only `Retarget` applies; otherwise the frame is drawn from the retargeted state and `Recover` applied |
| Clock.InitialInstant | src/main.rs:151-160 | the configured start if any, else ten minutes before the target |
| Clock.ScaledDelta | src/main.rs:335 | the scaled delta is finite exactly when the speed is |
| Clock.AdvancedInstant | src/main.rs:330-341 | paused, zero speed or a non-finite scaled delta leaves the instant unchanged; otherwise it moves by the scaled microseconds truncated toward zero, forward for non-negative speed |
| Clock.FrozenClockStandsStill | src/main.rs:330-333 | a paused or zero-speed clock is unchanged after any number of frames |
| Clock.ClockNeverRunsBackward | src/main.rs:335-339 | at non-negative speed the clock never decreases over any number of frames |
| Clock.AppClock.constructor | src/main.rs:151-167 | the clock starts at `InitialInstant`, speed 1, not paused |
| Clock.AppClock.Advance | src/main.rs:330-341 | the new instant is `AdvancedInstant` of the old one; speed and paused are untouched |
| Clock.Text.Rendered | src/main.rs:316-320 | the live text is "LIVE"; otherwise the string is the banner followed by the clock face, so the face can be read back from it, and it never equals "LIVE" |
| Clock.WholeSeconds | src/main.rs:310 | whole seconds of a duration, truncated toward zero |
| Clock.Decimal | src/main.rs:316 | decimal digits, one digit exactly for values below 10 |
| Clock.DecimalRoundTrip | src/main.rs:316 | parsing the printed digits gives the number back |
| Clock.ZeroPad2 | src/main.rs:316 | `{:02}` of a value below 100 is two digits |
| Clock.ZeroPad2RoundTrip | src/main.rs:316 | the two padded digits parse back to the value |
| Clock.ClockFace | src/main.rs:313-316 | `MM:SS` is five characters with the colon in the middle |
| Clock.ClockFaceReadsBack | src/main.rs:313-316 | the MM and SS digits parse back to values below 60 with MM*60 + SS equal to the seconds modulo 3600 |
| Clock.Shown | src/main.rs:312-320 | negative seconds give the live marker in (0,255,128); any other value gives white banner text |
| Clock.Countdown | src/main.rs:309-321 | "LIVE" in (0,255,128) exactly when the whole seconds left are negative; otherwise the text is white |
| Clock.CountdownReadsBack | src/main.rs:312-316 | the shown text is the banner followed by `MM:SS`; MM and SS parse back to values below 60, and MM*60 + SS equals the whole seconds left modulo 3600 |
| Clock.DefaultStartShowsTenMinutes | src/main.rs:309-316 | from the default start the first display is `10:00` in white |
| Clock.SubSecondOverdueShowsZero | src/main.rs:310-312 | less than one second past the target still shows `00:00`, not LIVE |
| Clock.OneSecondLateIsLive | src/main.rs:312-321 | one second past the target shows LIVE |
| Clock.HoursAreDropped | src/main.rs:313 | with an hour or more left, the display equals the display one hour later |

## Left out

- Bevy wiring is not modelled: `main`, `setup_camera`, `setup_text`, `fit_sprite_to_window`, sprite and asset creation, and the `windows.single()` lookup. These are framework calls with no logic of their own. The aspect ratio is an input.
- `setup_target_time` and the parsing in `setup_clock` are not modelled. The target and the configured start enter as integer microsecond instants. A timestamp that does not parse stops the program with a panic, and that panic is not modelled.
- Bevy `Timer` semantics are not modelled. Whether the frame-rate timer just finished, whether the cycle timer just finished, and the cycle timer's elapsed time after the tick are all inputs of `Update`.
- Floating point is not modelled. `f32`/`f64` arithmetic is exact real arithmetic, and NaN and infinities appear only as the `NonFinite` speed. The exact colour bytes, the zoom curve and the orbit therefore hold only for exact arithmetic.
- `powf`, `log2`, `sin` and `cos` are not defined in the model. They are parameters restricted only by the facts stated in `IsIntensityCurve`, `IsMonotoneCurve`, `PowPositive` and `IsMonotoneLog`.
- Scheduler.Recover: the degeneracy test is the exact comparison `interior * 1000 > 985 * total`. The source divides in `f32`, and rounding can flip the result within about one pixel of the threshold.
- Scheduler.Retarget: the zoom is not proved non-increasing within a cycle, because that depends on the real `powf`.
- Render.RenderFrame requires `width == MANDEL_WIDTH`, a buffer of exactly `4 * width * height` bytes, and at most 2^32 bytes. The source creates exactly this buffer. The other shapes are not modelled:
  - a wider image gives overlapping slots, for example pixel (1280, 0) overwrites pixel (0, 1) (`WideImageOverlaps`);
  - a narrower image with two or more rows runs past the buffer, and the slice write panics (`NarrowImageOverruns`);
  - more than 2^32 bytes overflows the `u32` offset, which panics in a debug build and wraps in a release build;
  - a buffer longer than `4 * width * height` does not panic, and its bytes past the frame keep their old values.
- Palette.MandelbrotColor: green and blue are stated only through the abstract intensity curve, so the exact `t^0.35` values are not stated.
- Clock.AppClock.Advance: instants are unbounded integers, so chrono's panic when a `DateTime` addition leaves its range is not modelled. The `i64` cast of the microseconds saturates as in Rust.
- `update_countdown_text` is modelled only as the `(text, colour)` it computes. The text is a value that is either the live marker or the banner followed by a clock face, and `Rendered` turns it into the string. Replacing the text entity's contents and font size, and skipping when there is no such entity, are not modelled.
