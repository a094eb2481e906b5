/** The countdown: a simulated clock (`AppClock`) that starts a fixed lead
    before the broadcast target and advances by the frame delta times a speed
    factor, and the text and colour shown for the time remaining. Instants are
    integer microseconds; parsing the configured timestamps and resolving the
    local time zone happen before this model starts. */
module Clock {
  import opened Numerics

  const MicrosPerSecond: int := 1_000_000
  /** The clock starts ten minutes before the target when no start is configured. */
  const DefaultLeadMicros: int := 10 * 60 * MicrosPerSecond

  datatype Option<T> = None | Some(value: T)

  /** A floating-point value: a finite number, or NaN or an infinity. */
  datatype Float = Finite(value: real) | NonFinite

  /** The instant the clock starts at: the configured start time if there is
      one, otherwise the default lead before the target. */
  function InitialInstant(target: int, configuredStart: Option<int>): (start: int)
    ensures configuredStart.Some? ==> start == configuredStart.value
    ensures configuredStart.None? ==> start < target && target - start == 600 * MicrosPerSecond
  {
    match configuredStart
    case Some(s) => s
    case None => target - DefaultLeadMicros
  }

  /** `delta_secs * speed`: a frame delta is a finite duration, so the product
      is finite exactly when the speed is. */
  function ScaledDelta(deltaSecs: real, speed: Float): (d: Float)
    ensures d.Finite? <==> speed.Finite?
  {
    match speed
    case Finite(v) => Finite(deltaSecs * v)
    case NonFinite => NonFinite
  }

  /** The instant after one frame of `advance_clock`. */
  function AdvancedInstant(current: int, paused: bool, speed: Float, deltaSecs: real): (next: int)
    requires 0.0 <= deltaSecs
    ensures paused || speed == Finite(0.0) || speed.NonFinite? ==> next == current
    ensures !paused && speed.Finite? && 0.0 <= speed.value ==> current <= next
    ensures !paused && speed.Finite? && speed.value <= 0.0 ==> next <= current
    ensures !paused && speed.Finite? ==>
      var exact := deltaSecs * speed.value * 1_000_000.0;
      (0.0 <= exact < I64Max as real ==> (next - current) as real <= exact < (next - current) as real + 1.0) &&
      (I64Min as real < exact < 0.0 ==> (next - current) as real - 1.0 < exact <= (next - current) as real)
  {
    if paused || speed == Finite(0.0) then current
    else
      match ScaledDelta(deltaSecs, speed)
      case NonFinite => current
      case Finite(d) => current + SaturatingCast(d * 1_000_000.0, I64Min, I64Max)
  }

  /** The instant after a sequence of frames. */
  function AdvancedOver(current: int, paused: bool, speed: Float, deltas: seq<real>): int
    requires forall i :: 0 <= i < |deltas| ==> 0.0 <= deltas[i]
    decreases |deltas|
  {
    if deltas == [] then current
    else AdvancedOver(AdvancedInstant(current, paused, speed, deltas[0]), paused, speed, deltas[1..])
  }

  /** A paused or zero-speed clock stands still however many frames pass. */
  lemma {:induction false} FrozenClockStandsStill(current: int, paused: bool, speed: Float, deltas: seq<real>)
    requires forall i :: 0 <= i < |deltas| ==> 0.0 <= deltas[i]
    requires paused || speed == Finite(0.0)
    ensures AdvancedOver(current, paused, speed, deltas) == current
  {
    if deltas != [] {
      FrozenClockStandsStill(current, paused, speed, deltas[1..]);
    }
  }

  /** At a non-negative speed the clock never runs backward over any number
      of frames. */
  lemma {:induction false} ClockNeverRunsBackward(current: int, paused: bool, speed: Float, deltas: seq<real>)
    requires forall i :: 0 <= i < |deltas| ==> 0.0 <= deltas[i]
    requires speed.Finite? ==> 0.0 <= speed.value
    ensures current <= AdvancedOver(current, paused, speed, deltas)
    decreases |deltas|
  {
    if deltas != [] {
      ClockNeverRunsBackward(AdvancedInstant(current, paused, speed, deltas[0]), paused, speed, deltas[1..]);
    }
  }

  /** The `AppClock` resource. */
  class AppClock {
    /** The simulated current instant, in microseconds. */
    var current: int
    /** 1.0 is real time, 2.0 twice as fast; 0.0 freezes the clock. */
    var speed: Float
    var paused: bool

    /** `setup_clock`. */
    constructor (target: int, configuredStart: Option<int>)
      ensures current == InitialInstant(target, configuredStart)
      ensures speed == Finite(1.0) && !paused
    {
      current := InitialInstant(target, configuredStart);
      speed := Finite(1.0);
      paused := false;
    }

    /** `advance_clock` for a frame that took `deltaSecs` seconds: skipped when
        paused, at speed zero or when the scaled delta is not finite; otherwise
        the clock moves by the scaled delta truncated to whole microseconds. */
    method Advance(deltaSecs: real)
      requires 0.0 <= deltaSecs
      modifies this`current
      ensures current == AdvancedInstant(old(current), paused, speed, deltaSecs)
    {
      if paused || speed == Finite(0.0) {
        return;
      }
      var scaled := ScaledDelta(deltaSecs, speed);
      if scaled.Finite? {
        var micros := SaturatingCast(scaled.value * 1_000_000.0, I64Min, I64Max);
        current := current + micros;
      }
    }
  }

  /** Text colour as 8-bit sRGB. */
  datatype Rgb = Rgb(r: Byte, g: Byte, b: Byte)

  const White: Rgb := Rgb(255, 255, 255)
  /** The accent colour of the "LIVE" state. */
  const LiveGreen: Rgb := Rgb(0, 255, 128)
  /** The text shown before the remaining minutes and seconds. */
  const Banner: string := "GYoung YouTube Live : \n\t "
  const LiveText: string := "LIVE"

  /** The text section of the countdown entity: the live marker, or the banner
      followed by the `MM:SS` face. */
  datatype Text = Live | Remaining(face: string) {
    /** The string the text section holds: "LIVE", or the banner followed by
        the clock face, which can be read back from it. */
    function Rendered(): (s: string)
      ensures Live? ==> s == LiveText
      ensures Remaining? ==> |s| == |Banner| + |face| && s[..|Banner|] == Banner && s[|Banner|..] == face
      ensures Remaining? ==> s != LiveText
    {
      match this
      case Live => LiveText
      case Remaining(face) => Banner + face
    }
  }

  /** What the countdown text entity shows. */
  datatype Display = Display(text: Text, colour: Rgb)

  /** Whole seconds of a duration given in microseconds, truncated toward zero
      as chrono's `num_seconds` does. */
  function WholeSeconds(micros: int): (s: int)
    ensures micros >= 0 ==> 0 <= s && s * 1_000_000 <= micros < (s + 1) * 1_000_000
    ensures micros < 0 ==> s <= 0 && (s - 1) * 1_000_000 < micros <= s * 1_000_000
  {
    // The divisor is `MicrosPerSecond`, written as a literal so that the
    // bounds above stay linear.
    TruncDiv(micros, 1_000_000)
  }

  function DigitChar(d: nat): (c: char)
    requires d < 10
    ensures '0' <= c <= '9'
  {
    (d + '0' as int) as char
  }

  predicate IsDigits(s: string) {
    forall i :: 0 <= i < |s| ==> '0' <= s[i] <= '9'
  }

  /** The decimal digits of `n`, most significant first. */
  function Decimal(n: nat): (s: string)
    ensures 1 <= |s| && IsDigits(s)
    ensures n < 10 <==> |s| == 1
  {
    if n < 10 then [DigitChar(n)] else Decimal(n / 10) + [DigitChar(n % 10)]
  }

  /** The number a string of decimal digits denotes. */
  function ParseDecimal(s: string): nat
    requires IsDigits(s)
  {
    if s == [] then 0 else ParseDecimal(s[..|s| - 1]) * 10 + (s[|s| - 1] as int - '0' as int)
  }

  lemma {:induction false} DecimalRoundTrip(n: nat)
    ensures ParseDecimal(Decimal(n)) == n
  {
    if n >= 10 {
      DecimalRoundTrip(n / 10);
      var s := Decimal(n);
      assert s[..|s| - 1] == Decimal(n / 10);
    }
  }

  /** `format!("{:02}", n)`: at least two digits, padded with a leading zero. */
  function ZeroPad2(n: nat): (s: string)
    ensures IsDigits(s)
    ensures n < 100 ==> |s| == 2
  {
    if n < 10 then ['0'] + Decimal(n) else Decimal(n)
  }

  /** A padded number below 100 reads back as itself. */
  lemma ZeroPad2RoundTrip(n: nat)
    requires n < 100
    ensures |ZeroPad2(n)| == 2 && ParseDecimal(ZeroPad2(n)) == n
  {
    DecimalRoundTrip(n);
    var s := ZeroPad2(n);
    if n < 10 {
      assert s[..1] == "0";
      assert ParseDecimal(s[..1]) == 0 by {
        assert s[..1][..0] == [];
      }
    }
  }

  /** `MM:SS` of a non-negative number of whole seconds: minutes of the hour
      and seconds of the minute, each zero-padded to two digits. */
  function ClockFace(totalSecs: nat): (face: string)
    ensures |face| == 5 && face[2] == ':'
  {
    var minutes := (totalSecs % 3600) / 60;
    var seconds := totalSecs % 60;
    ZeroPad2(minutes) + ":" + ZeroPad2(seconds)
  }

  /** The face reads back as the seconds modulo one hour: `MM * 60 + SS` is
      `totalSecs % 3600`, and both fields are below 60. */
  lemma ClockFaceReadsBack(totalSecs: nat)
    ensures var face := ClockFace(totalSecs);
      IsDigits(face[..2]) && IsDigits(face[3..]) &&
      ParseDecimal(face[..2]) < 60 && ParseDecimal(face[3..]) < 60 &&
      ParseDecimal(face[..2]) * 60 + ParseDecimal(face[3..]) == totalSecs % 3600
  {
    var minutes, seconds := (totalSecs % 3600) / 60, totalSecs % 60;
    MinutesAndSeconds(totalSecs);
    ZeroPad2RoundTrip(minutes);
    ZeroPad2RoundTrip(seconds);
    var mm, ss := ZeroPad2(minutes), ZeroPad2(seconds);
    var face := ClockFace(totalSecs);
    assert face == mm + ":" + ss;
    assert face[..2] == mm;
    assert face[3..] == ss;
  }

  /** Splitting the seconds of the hour into minutes and seconds loses nothing. */
  lemma MinutesAndSeconds(totalSecs: nat)
    ensures (totalSecs % 3600) / 60 < 60
    ensures (totalSecs % 3600) / 60 * 60 + totalSecs % 60 == totalSecs % 3600
  {
    var q, r := totalSecs / 3600, totalSecs % 3600;
    assert totalSecs == q * 3600 + r;
    assert totalSecs == (q * 60 + r / 60) * 60 + r % 60;
  }

  /** What the countdown shows for a signed number of whole seconds left. */
  function Shown(totalSecs: int): (d: Display)
    ensures totalSecs < 0 <==> d.text == Live
    ensures totalSecs < 0 <==> d.colour == LiveGreen
    ensures totalSecs >= 0 <==> d.colour == White
  {
    if totalSecs >= 0 then Display(Remaining(ClockFace(totalSecs)), White)
    else Display(Live, LiveGreen)
  }

  /** The text and colour `update_countdown_text` shows for a target and the
      clock's current instant. */
  function Countdown(target: int, current: int): (d: Display)
    ensures WholeSeconds(target - current) < 0 <==> d == Display(Live, LiveGreen)
    ensures WholeSeconds(target - current) >= 0 <==> d.colour == White
  {
    Shown(WholeSeconds(target - current))
  }

  /** While the target is ahead, the digits after the banner read back as the
      whole seconds left modulo one hour, split into minutes and seconds. */
  lemma CountdownReadsBack(target: int, current: int)
    requires WholeSeconds(target - current) >= 0
    ensures var t := Countdown(target, current).text.Rendered(); var b := |Banner|;
      |t| == b + 5 && t[..b] == Banner && t[b + 2] == ':' &&
      IsDigits(t[b..b + 2]) && IsDigits(t[b + 3..]) &&
      ParseDecimal(t[b..b + 2]) < 60 && ParseDecimal(t[b + 3..]) < 60 &&
      ParseDecimal(t[b..b + 2]) * 60 + ParseDecimal(t[b + 3..]) ==
        WholeSeconds(target - current) % 3600
  {
    var s := WholeSeconds(target - current);
    var face := ClockFace(s);
    ClockFaceReadsBack(s);
    var t, b := Countdown(target, current).text.Rendered(), |Banner|;
    assert t == Banner + face;
    assert t[..b] == Banner;
    assert t[b..b + 2] == face[..2];
    assert t[b + 3..] == face[3..];
  }

  /** With the default start the first frame shows ten minutes to go. */
  lemma DefaultStartShowsTenMinutes(target: int)
    ensures Countdown(target, InitialInstant(target, None)) == Display(Remaining("10:00"), White)
  {
    var start := InitialInstant(target, None);
    assert target - start == 600 * MicrosPerSecond;
    assert WholeSeconds(600 * MicrosPerSecond) == 600;
    assert Decimal(1) == "1" && Decimal(0) == "0";
    assert Decimal(10) == "10";
    assert ZeroPad2(10) == "10" && ZeroPad2(0) == "00";
    assert (600 % 3600) / 60 == 10 && 600 % 60 == 0;
  }

  /** Less than a second past the target still shows `00:00`, because the whole
      seconds are truncated toward zero. */
  lemma SubSecondOverdueShowsZero(target: int, current: int)
    requires target < current < target + MicrosPerSecond
    ensures Countdown(target, current) == Display(Remaining("00:00"), White)
  {
    assert WholeSeconds(target - current) == 0;
    assert ZeroPad2(0) == "00";
  }

  /** A full second past the target the countdown shows the live state. */
  lemma OneSecondLateIsLive(target: int)
    ensures Countdown(target, target + MicrosPerSecond) == Display(Live, LiveGreen)
  {
    assert WholeSeconds(-MicrosPerSecond) == -1;
  }

  /** An hour or more ahead, the display is the same as one hour later: the
      hours are not shown. */
  lemma HoursAreDropped(target: int, current: int)
    requires WholeSeconds(target - current) >= 3600
    ensures Countdown(target, current) == Countdown(target, current + 3600 * MicrosPerSecond)
  {
    var s := WholeSeconds(target - current);
    calc {
      Countdown(target, current + 3600 * MicrosPerSecond);
    ==
      Shown(WholeSeconds(target - (current + 3600 * MicrosPerSecond)));
    == { HourLater(target, current); }
      Shown(s - 3600);
    == { ShownHourly(s); }
      Shown(s);
    ==
      Countdown(target, current);
    }
  }

  /** An hour later on the clock, 3600 fewer whole seconds are left. */
  lemma HourLater(target: int, current: int)
    requires WholeSeconds(target - current) >= 3600
    ensures WholeSeconds(target - (current + 3600 * MicrosPerSecond)) ==
      WholeSeconds(target - current) - 3600
  {
    var micros := target - current;
    assert target - (current + 3600 * MicrosPerSecond) == micros - 3600 * MicrosPerSecond;
    HourLessSeconds(micros);
  }

  /** One hour less on the clock is 3600 whole seconds less. */
  lemma HourLessSeconds(micros: int)
    requires WholeSeconds(micros) >= 3600
    ensures WholeSeconds(micros - 3600 * MicrosPerSecond) == WholeSeconds(micros) - 3600
  {
    var q := WholeSeconds(micros);
    var r := micros - q * MicrosPerSecond;
    assert 0 <= r < MicrosPerSecond;
    assert micros - 3600 * MicrosPerSecond == (q - 3600) * MicrosPerSecond + r;
  }

  /** What is shown repeats every hour. */
  lemma ShownHourly(totalSecs: int)
    requires totalSecs >= 3600
    ensures Shown(totalSecs) == Shown(totalSecs - 3600)
  {
    ClockFaceHourly(totalSecs);
  }

  /** The face repeats every hour. */
  lemma ClockFaceHourly(totalSecs: nat)
    requires totalSecs >= 3600
    ensures ClockFace(totalSecs) == ClockFace(totalSecs - 3600)
  {
    assert (totalSecs - 3600) % 3600 == totalSecs % 3600;
    assert (totalSecs - 3600) % 60 == totalSecs % 60;
  }

}
