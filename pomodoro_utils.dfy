/**
 * Display helpers of the timer: the `MM:SS` clock and the colour of a
 * pomodoro for the time that remains in a work interval.
 */
module PomodoroUtils {
  import opened Decimal

  datatype Option<T> = None | Some(value: T)

  // ---------------------------------------------------------------------------
  // Clock
  // ---------------------------------------------------------------------------

  /** JavaScript's `%` on integers: truncating, so the result has the sign of `n`. */
  function JsRemainder(n: int, d: int): (r: int)
    requires d > 0
    ensures n >= 0 ==> r == n % d
    ensures -d < r < d
  {
    if n >= 0 then n % d else -((-n) % d)
  }

  /**
   * The remainder truncates toward zero: negating the dividend negates the
   * remainder, and a negative dividend leaves a remainder in `(-d, 0]` that
   * differs from it by a multiple of `d`.
   */
  lemma JsRemainderTruncates(n: int, d: int)
    requires d > 0
    ensures JsRemainder(-n, d) == -JsRemainder(n, d)
    ensures n < 0 ==> -d < JsRemainder(n, d) <= 0 && (n - JsRemainder(n, d)) % d == 0
  {
    if n < 0 {
      var m, q := -n, (-n) / d;
      assert m == q * d + m % d;
      assert n - JsRemainder(n, d) == (-q) * d;
      DivOfSum(-q, d, 0);
    }
  }

  /**
   * Minutes and seconds of a clock reading: `Math.floor(n / spm)` (Dafny's `/`
   * with a positive divisor is the floor) and the JavaScript remainder `n % spm`.
   */
  function ClockParts(totalSeconds: int, secondsPerMinute: int): (parts: (int, int))
    requires secondsPerMinute > 0
    ensures totalSeconds >= 0 ==>
      parts.0 >= 0 && 0 <= parts.1 < secondsPerMinute &&
      parts.0 * secondsPerMinute + parts.1 == totalSeconds
  {
    (totalSeconds / secondsPerMinute, JsRemainder(totalSeconds, secondsPerMinute))
  }

  /** `formatSecondsAsClock`: minutes, a colon, seconds, each padded with '0' to two characters. */
  function FormatSecondsAsClock(totalSeconds: int, secondsPerMinute: int): (s: string)
    requires secondsPerMinute > 0
    ensures |s| >= 5 && ':' in s
  {
    var (minutes, seconds) := ClockParts(totalSeconds, secondsPerMinute);
    PadStart(IntToString(minutes), 2, '0') + ":" + PadStart(IntToString(seconds), 2, '0')
  }

  /** First index of `c` in `s`, if any. */
  function IndexOf(s: string, c: char): (r: Option<nat>)
    ensures r.Some? ==> r.value < |s| && s[r.value] == c &&
                        forall i :: 0 <= i < r.value ==> s[i] != c
    ensures r.None? ==> forall i :: 0 <= i < |s| ==> s[i] != c
  {
    if s == [] then None
    else if s[0] == c then Some(0)
    else match IndexOf(s[1..], c)
      case None => None
      case Some(k) => Some(k + 1)
  }

  /** Reads a non-negative clock string back into its minutes and seconds. */
  function ParseClock(s: string): Option<(nat, nat)>
  {
    match IndexOf(s, ':')
    case None => None
    case Some(k) =>
      if AllDigits(s[..k]) && AllDigits(s[k + 1..])
      then Some((DigitsValue(s[..k]), DigitsValue(s[k + 1..])))
      else None
  }

  lemma PaddedDigits(n: nat)
    ensures var p := PadStart(IntToString(n), 2, '0');
      AllDigits(p) && DigitsValue(p) == n && |p| >= 2 && (n < 100 ==> |p| == 2)
  {
    var s := NatToString(n);
    assert IntToString(n) == s;
    ZeroPaddedValue(s, 2);
    DigitsValueOfNatToString(n);
  }

  /** Padding a digit string with zeros keeps its value. */
  lemma {:induction false} ZeroPaddedValue(s: string, width: nat)
    requires AllDigits(s)
    ensures AllDigits(PadStart(s, width, '0'))
    ensures DigitsValue(PadStart(s, width, '0')) == DigitsValue(s)
    decreases width - |s|
  {
    if |s| < width {
      DigitsValueLeadingZeros("0", s);
      ZeroPaddedValue("0" + s, width);
    }
  }

  /**
   * Reading the clock back gives minutes and seconds that add up to the
   * number of seconds it was made from, with the seconds below one minute.
   */
  lemma ClockRoundTrip(totalSeconds: nat, secondsPerMinute: int)
    requires secondsPerMinute > 0
    ensures var p := ParseClock(FormatSecondsAsClock(totalSeconds, secondsPerMinute));
      p.Some? && p.value.0 * secondsPerMinute + p.value.1 == totalSeconds &&
      p.value.1 < secondsPerMinute
  {
    var parts := ClockParts(totalSeconds, secondsPerMinute);
    var minutes: nat, seconds: nat := parts.0, parts.1;
    var mm := PadStart(IntToString(minutes), 2, '0');
    var ss := PadStart(IntToString(seconds), 2, '0');
    assert mm + ":" + ss == FormatSecondsAsClock(totalSeconds, secondsPerMinute);
    PaddedDigits(minutes);
    PaddedDigits(seconds);
    ParseJoined(mm, ss);
  }

  /** A clock string splits at its colon into its two digit groups. */
  lemma ParseJoined(mm: string, ss: string)
    requires AllDigits(mm) && AllDigits(ss)
    ensures ParseClock(mm + ":" + ss) == Some((DigitsValue(mm), DigitsValue(ss)))
  {
    var s := mm + ":" + ss;
    FirstColon(mm, ss);
    assert s[..|mm|] == mm;
    assert s[|mm| + 1..] == ss;
  }

  lemma FirstColon(mm: string, ss: string)
    requires AllDigits(mm)
    ensures IndexOf(mm + ":" + ss, ':') == Some(|mm|)
  {
    var s := mm + ":" + ss;
    assert s[|mm|] == ':';
    forall i | 0 <= i < |mm| ensures s[i] != ':' {
      assert s[i] == mm[i];
    }
  }

  /** Below 100 minutes the clock is always five characters with the colon in the middle. */
  lemma ClockShape(totalSeconds: nat, secondsPerMinute: int)
    requires 0 < secondsPerMinute <= 100
    requires totalSeconds < 100 * secondsPerMinute
    ensures var s := FormatSecondsAsClock(totalSeconds, secondsPerMinute);
      |s| == 5 && s[2] == ':' && AllDigits(s[..2]) && AllDigits(s[3..])
  {
    var parts := ClockParts(totalSeconds, secondsPerMinute);
    var minutes: nat, seconds: nat := parts.0, parts.1;
    MinutesBelow(totalSeconds, secondsPerMinute, 100);
    var mm := PadStart(IntToString(minutes), 2, '0');
    var ss := PadStart(IntToString(seconds), 2, '0');
    assert mm + ":" + ss == FormatSecondsAsClock(totalSeconds, secondsPerMinute);
    PaddedDigits(minutes);
    PaddedDigits(seconds);
    Joined(mm, ss);
  }

  lemma MinutesBelow(n: nat, d: int, bound: nat)
    requires d > 0 && n < bound * d
    ensures n / d < bound
  {
    if n / d >= bound {
      MulMonotone(bound, n / d, d);
    }
  }

  lemma Joined(mm: string, ss: string)
    requires |mm| == 2 && |ss| == 2 && AllDigits(mm) && AllDigits(ss)
    ensures var s := mm + ":" + ss;
      |s| == 5 && s[2] == ':' && AllDigits(s[..2]) && AllDigits(s[3..])
  {
    var s := mm + ":" + ss;
    assert s[..2] == mm;
    assert s[3..] == ss;
  }

  /** Zero seconds shows as `00:00`. */
  lemma ClockAtZero()
    ensures FormatSecondsAsClock(0, 60) == "00:00"
  {
    ClockOfDigits(0, 0, 0);
    assert DigitChar(0) == '0';
  }

  /** 65 seconds shows as `01:05`. */
  lemma ClockAtSixtyFive()
    ensures FormatSecondsAsClock(65, 60) == "01:05"
  {
    ClockOfDigits(65, 1, 5);
    assert DigitChar(1) == '1' && DigitChar(5) == '5';
  }

  /** Minutes are never wrapped into hours: one hour shows as `60:00`. */
  lemma ClockAtOneHour()
    ensures FormatSecondsAsClock(3600, 60) == "60:00"
  {
    ClockOfParts(3600, 60, 60, 0);
    PaddedOneDigit(0);
    Padded60();
    assert DigitChar(0) == '0';
    JoinFive('6', '0', '0', '0');
  }

  /** A time below ten minutes with its seconds below ten. */
  lemma ClockOfDigits(totalSeconds: nat, minutes: nat, seconds: nat)
    requires minutes < 10 && seconds < 10 && totalSeconds == minutes * 60 + seconds
    ensures FormatSecondsAsClock(totalSeconds, 60) == ['0', DigitChar(minutes), ':', '0', DigitChar(seconds)]
  {
    ClockOfParts(totalSeconds, 60, minutes, seconds);
    PaddedOneDigit(minutes);
    PaddedOneDigit(seconds);
    JoinFive('0', DigitChar(minutes), '0', DigitChar(seconds));
  }

  lemma JoinFive(a: char, b: char, c: char, d: char)
    ensures [a, b] + ":" + [c, d] == [a, b, ':', c, d]
  {
  }

  lemma ClockOfParts(totalSeconds: nat, secondsPerMinute: int, minutes: nat, seconds: nat)
    requires 0 <= seconds < secondsPerMinute
    requires totalSeconds == minutes * secondsPerMinute + seconds
    ensures FormatSecondsAsClock(totalSeconds, secondsPerMinute) ==
      PadStart(IntToString(minutes), 2, '0') + ":" + PadStart(IntToString(seconds), 2, '0')
  {
    assert ClockParts(totalSeconds, secondsPerMinute) == (minutes, seconds) by {
      DivOfSum(minutes, secondsPerMinute, seconds);
    }
  }

  lemma PaddedOneDigit(d: nat)
    requires d < 10
    ensures PadStart(IntToString(d), 2, '0') == ['0', DigitChar(d)]
  {
    var s := IntToString(d);
    assert s == NatToString(d) == [DigitChar(d)];
    assert PadStart(s, 2, '0') == PadStart(['0'] + s, 2, '0');
  }

  lemma Padded60()
    ensures PadStart(IntToString(60), 2, '0') == "60"
  {
    assert NatToString(6) == "6";
    assert NatToString(60) == "60";
  }

  // ---------------------------------------------------------------------------
  // Colour
  // ---------------------------------------------------------------------------

  datatype Rgb = Rgb(red: int, green: int, blue: int)

  const RedStart := 64
  const RedEnd := 255
  const GreenStart := 128
  const GreenEnd := 32
  const BlueValue := 0

  /** The colour of a fresh pomodoro, `rgb(64, 128, 0)`. */
  const BasePomodoroColor := Rgb(64, 128, 0)

  /**
   * `getPomodoroColorForRemainingSeconds`: each channel moves linearly from its
   * start to its end value as the elapsed fraction `1 - remaining / work` goes
   * from 0 to 1, and is rounded down. For integer inputs this is exact rational
   * arithmetic: `floor(start + (end - start) * (work - remaining) / work)`.
   */
  function ColorForRemainingSeconds(remainingSeconds: int, workDurationSeconds: int): (c: Rgb)
    requires workDurationSeconds > 0
    ensures c.blue == BlueValue
    ensures remainingSeconds == workDurationSeconds ==> c == BasePomodoroColor
  {
    var elapsed := workDurationSeconds - remainingSeconds;
    Rgb(RedStart + (RedEnd - RedStart) * elapsed / workDurationSeconds,
        GreenStart + (GreenEnd - GreenStart) * elapsed / workDurationSeconds,
        BlueValue)
  }

  /** The template string `rgb(R, G, B)`. */
  function Render(c: Rgb): (s: string)
    ensures |s| >= 11 && s[..4] == "rgb(" && s[|s| - 1] == ')'
  {
    "rgb(" + IntToString(c.red) + ", " + IntToString(c.green) + ", " + IntToString(c.blue) + ")"
  }

  /** With nothing elapsed the colour is the base colour; with everything elapsed it is (255, 32, 0). */
  lemma ColorEndpoints(work: int)
    requires work > 0
    ensures ColorForRemainingSeconds(work, work) == BasePomodoroColor
    ensures ColorForRemainingSeconds(0, work) == Rgb(RedEnd, GreenEnd, BlueValue)
  {
    assert (RedEnd - RedStart) * work / work == RedEnd - RedStart by {
      DivOfMultiple(RedEnd - RedStart, work);
    }
    assert (GreenEnd - GreenStart) * work / work == GreenEnd - GreenStart by {
      DivOfMultiple(GreenEnd - GreenStart, work);
    }
  }

  lemma DivOfMultiple(a: int, d: int)
    requires d > 0
    ensures a * d / d == a
  {
    var q, r := a * d / d, a * d % d;
    assert (a - q) * d == r by {
      assert a * d == q * d + r;
    }
    if a - q >= 1 {
      MulMonotone(1, a - q, d);
    } else if a - q <= -1 {
      MulMonotone(a - q, -1, d);
    }
  }

  /** Euclidean division recovers quotient and remainder. */
  lemma DivOfSum(q: int, d: int, r: int)
    requires 0 <= r < d
    ensures (q * d + r) / d == q && (q * d + r) % d == r
  {
    var n := q * d + r;
    var q', r' := n / d, n % d;
    assert (q - q') * d == r' - r by {
      assert n == q' * d + r';
      assert q * d - q' * d == (q - q') * d;
    }
    if q - q' >= 1 {
      MulMonotone(1, q - q', d);
    } else if q - q' <= -1 {
      MulMonotone(q - q', -1, d);
    }
  }

  /** `a * x / d` is monotone in `x` for a non-negative factor `a`. */
  lemma ScaledDivMonotone(a: int, x: int, y: int, d: int)
    requires d > 0 && a >= 0 && x <= y
    ensures a * x / d <= a * y / d
  {
    assert a * x <= a * y by {
      assert a * (y - x) >= 0 by { MulNonNegative(a, y - x); }
      assert a * y - a * x == a * (y - x);
    }
    DivMonotone(a * x, a * y, d);
  }

  lemma MulNonNegative(a: int, b: int)
    requires a >= 0 && b >= 0
    ensures a * b >= 0
  {
  }

  lemma DivMonotone(p: int, q: int, d: int)
    requires d > 0 && p <= q
    ensures p / d <= q / d
  {
    if p / d > q / d {
      assert (p / d) * d >= (q / d + 1) * d by {
        MulMonotone(q / d + 1, p / d, d);
      }
    }
  }

  lemma MulMonotone(x: int, y: int, d: int)
    requires d > 0 && x <= y
    ensures x * d <= y * d
  {
  }

  /** Within a work interval every channel stays between its start and end values and blue is 0. */
  lemma ColorInRange(remaining: int, work: int)
    requires work > 0 && 0 <= remaining <= work
    ensures var c := ColorForRemainingSeconds(remaining, work);
      RedStart <= c.red <= RedEnd && GreenEnd <= c.green <= GreenStart && c.blue == BlueValue
  {
    var elapsed := work - remaining;
    ScaledDivMonotone(RedEnd - RedStart, 0, elapsed, work);
    ScaledDivMonotone(RedEnd - RedStart, elapsed, work, work);
    DivOfMultiple(RedEnd - RedStart, work);
    NegScaledDivMonotone(GreenStart - GreenEnd, 0, elapsed, work);
    NegScaledDivMonotone(GreenStart - GreenEnd, elapsed, work, work);
    DivOfMultiple(GreenEnd - GreenStart, work);
  }

  /** `(-a) * x / d` is antitone in `x` for a non-negative `a`. */
  lemma NegScaledDivMonotone(a: int, x: int, y: int, d: int)
    requires d > 0 && a >= 0 && x <= y
    ensures (-a) * y / d <= (-a) * x / d
  {
    assert (-a) * y <= (-a) * x by {
      assert a * (y - x) >= 0 by { MulNonNegative(a, y - x); }
      assert (-a) * x - (-a) * y == a * (y - x);
    }
    DivMonotone((-a) * y, (-a) * x, d);
  }

  /**
   * Each of red and green is the floor of its linear interpolation: the
   * largest value whose distance from the start, times the interval, does not
   * exceed the channel's full change times the elapsed seconds.
   */
  lemma ColorInterpolates(remaining: int, work: int)
    requires work > 0
    ensures var c := ColorForRemainingSeconds(remaining, work);
      work * (c.red - RedStart) <= (RedEnd - RedStart) * (work - remaining) <
        work * (c.red - RedStart) + work &&
      work * (c.green - GreenStart) <= (GreenEnd - GreenStart) * (work - remaining) <
        work * (c.green - GreenStart) + work
  {
    var a := (RedEnd - RedStart) * (work - remaining);
    var b := (GreenEnd - GreenStart) * (work - remaining);
    assert a == (a / work) * work + a % work;
    assert b == (b / work) * work + b % work;
  }

  /** As the remaining time decreases, red never decreases and green never increases. */
  lemma ColorMonotone(r1: int, r2: int, work: int)
    requires work > 0 && r1 <= r2
    ensures ColorForRemainingSeconds(r2, work).red <= ColorForRemainingSeconds(r1, work).red
    ensures ColorForRemainingSeconds(r1, work).green <= ColorForRemainingSeconds(r2, work).green
    ensures ColorForRemainingSeconds(r1, work).blue == ColorForRemainingSeconds(r2, work).blue
  {
    ScaledDivMonotone(RedEnd - RedStart, work - r2, work - r1, work);
    NegScaledDivMonotone(GreenStart - GreenEnd, work - r2, work - r1, work);
  }

  /**
   * Within a work interval the rendered colour is `rgb(R, G, 0)` with R and G
   * written as plain decimal digits, without a sign, that read back as the channels.
   */
  lemma RenderedColor(remaining: int, work: int)
    requires work > 0 && 0 <= remaining <= work
    ensures var c := ColorForRemainingSeconds(remaining, work);
      Render(c) == "rgb(" + NatToString(c.red) + ", " + NatToString(c.green) + ", 0)" &&
      DigitsValue(NatToString(c.red)) == c.red && DigitsValue(NatToString(c.green)) == c.green
  {
    var c := ColorForRemainingSeconds(remaining, work);
    ColorInRange(remaining, work);
    RenderNonNegative(c);
    assert NatToString(c.blue) == "0";
    DigitsValueOfNatToString(c.red);
    DigitsValueOfNatToString(c.green);
  }

  /** A colour with no negative channel renders without minus signs. */
  lemma RenderNonNegative(c: Rgb)
    requires c.red >= 0 && c.green >= 0 && c.blue >= 0
    ensures Render(c) ==
      "rgb(" + NatToString(c.red) + ", " + NatToString(c.green) + ", " + NatToString(c.blue) + ")"
  {
    assert IntToString(c.red) == NatToString(c.red);
    assert IntToString(c.green) == NatToString(c.green);
    assert IntToString(c.blue) == NatToString(c.blue);
  }

  /** The base colour renders as the literal the hook starts every pomodoro with. */
  lemma RenderBaseColor()
    ensures Render(BasePomodoroColor) == "rgb(64, 128, 0)"
  {
    assert NatToString(6) == "6";
    assert NatToString(64) == "64";
    assert NatToString(1) == "1";
    assert NatToString(12) == "12";
    assert NatToString(128) == "128";
    assert NatToString(0) == "0";
  }
}
