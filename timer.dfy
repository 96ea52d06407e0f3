// components/Timer.tsx: the countdown of a recipe step and its m:ss display.

module TimerWidget {
  import opened RecipeTypes
  import opened Text

  /** The countdown's state: seconds left and whether it is running. */
  datatype Clock = Clock(timeLeft: int, isRunning: bool)

  /** The one-second interval is installed only while the timer runs and time
      is left (Timer.tsx:21). */
  predicate Armed(c: Clock) {
    c.isRunning && c.timeLeft > 0
  }

  /** The state after one second, and whether `onComplete` was called. */
  datatype Step = Step(clock: Clock, completed: bool)

  /** One second of the countdown (Timer.tsx:21-31): with the interval
      installed, a count of 1 or less becomes 0 and stops the timer, with
      `onComplete`; a larger count goes down by one. Without the interval
      nothing happens. */
  function Elapse(c: Clock): (s: Step)
    ensures !Armed(c) ==> s == Step(c, false)
    ensures Armed(c) ==> 0 <= s.clock.timeLeft < c.timeLeft
    ensures s.completed <==> Armed(c) && s.clock.timeLeft == 0
    ensures s.completed <==> Armed(c) && !s.clock.isRunning
  {
    if !Armed(c) then Step(c, false)
    else if c.timeLeft <= 1 then Step(Clock(0, false), true)
    else Step(Clock(c.timeLeft - 1, c.isRunning), false)
  }

  /** The state after `n` seconds, and how many times `onComplete` was called. */
  function Run(c: Clock, n: nat): (Clock, nat)
    decreases n
  {
    if n == 0 then (c, 0)
    else
      var s := Elapse(c);
      var (final, calls) := Run(s.clock, n - 1);
      (final, calls + if s.completed then 1 else 0)
  }

  /** A timer without an installed interval stays as it is. */
  lemma {:induction false} IdleStaysStill(c: Clock, n: nat)
    requires !Armed(c)
    ensures Run(c, n) == (c, 0)
  {
    if n > 0 {
      IdleStaysStill(c, n - 1);
    }
  }

  /** Started at `t` seconds, the countdown shows `t - n` after `n < t` seconds
      without completing; from second `t` on it rests at 0, stopped, having
      called `onComplete` exactly once. */
  lemma {:induction false} Countdown(t: int, n: nat)
    requires t > 0
    ensures Run(Clock(t, true), n) == if n < t then (Clock(t - n, true), 0) else (Clock(0, false), 1)
  {
    if n > 0 {
      if t == 1 {
        IdleStaysStill(Clock(0, false), n - 1);
      } else {
        Countdown(t - 1, n - 1);
      }
    }
  }

  /** `seconds % 60` with JavaScript's remainder, which takes the sign of the dividend. */
  function JsRemainder(a: int, b: int): (r: int)
    requires b > 0
    ensures a >= 0 ==> 0 <= r < b
    ensures a < 0 ==> -b < r <= 0
  {
    if a >= 0 then a % b else -((-a) % b)
  }

  /** The result differs from the dividend by a multiple of the divisor; with
      the sign bounds this makes it the truncating remainder. */
  lemma JsRemainderIsRemainder(a: int, b: int)
    requires b > 0
    ensures exists q :: a == b * q + JsRemainder(a, b)
  {
    if a >= 0 {
      assert a == b * (a / b) + JsRemainder(a, b);
    } else {
      var k := (-a) / b;
      assert -a == b * k + (-a) % b;
      assert a == b * -k + JsRemainder(a, b);
    }
  }

  /** `formatTime`: the minutes, a colon, and the remaining seconds padded to
      two digits. `Math.floor(seconds / 60)` is Dafny's division by 60, which
      rounds down. */
  function FormatTime(seconds: int): (r: string)
    ensures seconds >= 0 ==> exists m, ss :: r == m + ":" + ss && IsClock(m, ss)
  {
    var minutes := seconds / 60;
    var remainingSeconds := JsRemainder(seconds, 60);
    var m, ss := IntToDecimal(minutes), PadStart(IntToDecimal(remainingSeconds), 2, '0');
    if seconds >= 0 then
      MinutesText(minutes);
      SecondsText(remainingSeconds);
      assert IsClock(m, ss);
      m + ":" + ss
    else
      m + ":" + ss
  }

  /** The two halves of an `m:ss` text: minutes as one or more digits, seconds
      as exactly two. */
  predicate IsClock(m: string, ss: string) {
    m != [] && AllDigits(m) && |ss| == 2 && AllDigits(ss)
  }

  /** The first position of `c` in `s`. */
  function IndexOf(s: string, c: char): (r: Option<nat>)
    ensures r.None? <==> c !in s
    ensures r.Some? ==> r.value < |s| && s[r.value] == c && c !in s[..r.value]
  {
    if s == [] then None
    else if s[0] == c then Some(0)
    else match IndexOf(s[1..], c)
      case None => None
      case Some(k) =>
        assert s[..k + 1] == [s[0]] + s[1..][..k];
        Some(k + 1)
  }

  /** A character absent from `p` is found first just after `p`. */
  lemma {:induction false} IndexOfAfter(p: string, rest: string, c: char)
    requires c !in p && rest != [] && rest[0] == c
    ensures IndexOf(p + rest, c) == Some(|p|)
  {
    if p != [] {
      assert (p + rest)[1..] == p[1..] + rest;
      assert p[0] in p;
      IndexOfAfter(p[1..], rest, c);
    }
  }

  /** Reads an `m:ss` text back into seconds: digits, a colon, two digits
      below 60. */
  function ParseClock(text: string): Option<int> {
    match IndexOf(text, ':')
    case None => None
    case Some(k) =>
      var m, ss := text[..k], text[k + 1..];
      if IsClock(m, ss) && DecimalValue(ss) < 60
      then Some(60 * DecimalValue(m) + DecimalValue(ss))
      else None
  }

  /** A remainder below 60 is written as exactly two digits. */
  lemma PadSeconds(rem: int)
    requires 0 <= rem < 60
    ensures PadStart(IntToDecimal(rem), 2, '0') == [DigitChar(rem / 10), DigitChar(rem % 10)]
  {
    if rem >= 10 {
      assert NatToDecimal(rem) == NatToDecimal(rem / 10) + [DigitChar(rem % 10)];
      assert NatToDecimal(rem / 10) == [DigitChar(rem / 10)];
    } else {
      assert PadStart(NatToDecimal(rem), 2, '0') == ['0'] + [DigitChar(rem)];
    }
  }

  /** A non-negative count of minutes is written as digits only. */
  lemma MinutesText(minutes: int)
    requires minutes >= 0
    ensures IntToDecimal(minutes) != [] && AllDigits(IntToDecimal(minutes))
  {
    assert IntToDecimal(minutes) == NatToDecimal(minutes);
  }

  /** A remainder below 60 is written as two digit characters. */
  lemma SecondsText(rem: int)
    requires 0 <= rem < 60
    ensures var ss := PadStart(IntToDecimal(rem), 2, '0'); |ss| == 2 && AllDigits(ss)
  {
    PadSeconds(rem);
    var ss := [DigitChar(rem / 10), DigitChar(rem % 10)];
    assert IsDigit(ss[0]) && IsDigit(ss[1]);
  }

  /** For a non-negative count, `formatTime` writes the minutes without
      leading zeros and the seconds as exactly two digits. */
  lemma FormatTimeShape(seconds: int)
    requires seconds >= 0
    ensures FormatTime(seconds) ==
      NatToDecimal(seconds / 60) + ":" + [DigitChar(seconds % 60 / 10), DigitChar(seconds % 60 % 10)]
  {
    var minutes, rem := seconds / 60, seconds % 60;
    assert JsRemainder(seconds, 60) == rem;
    assert IntToDecimal(minutes) == NatToDecimal(minutes);
    PadSeconds(rem);
  }

  /** Two digit characters read back as their two-digit value. */
  lemma TwoDigits(tens: nat, units: nat)
    requires tens < 10 && units < 10
    ensures AllDigits([DigitChar(tens), DigitChar(units)])
    ensures DecimalValue([DigitChar(tens), DigitChar(units)]) == 10 * tens + units
  {
    var ss := [DigitChar(tens), DigitChar(units)];
    assert ss[..1] == [DigitChar(tens)] && ss[..1][..0] == [];
    assert DigitValue(DigitChar(tens)) == tens && DigitValue(DigitChar(units)) == units;
    assert DecimalValue(ss[..1]) == tens;
    assert DecimalValue(ss) == DecimalValue(ss[..1]) * 10 + DigitValue(ss[1]);
  }

  /** In `d:ss` with no colon in `d`, the first colon follows `d`. */
  lemma SplitAtColon(d: string, ss: string)
    requires ':' !in d
    ensures IndexOf(d + ":" + ss, ':') == Some(|d|)
    ensures (d + ":" + ss)[..|d|] == d && (d + ":" + ss)[|d| + 1..] == ss
  {
    assert d + ":" + ss == d + ([':'] + ss);
    IndexOfAfter(d, [':'] + ss, ':');
  }

  /** `ParseClock` reads minutes, a colon and two digits of seconds. */
  lemma ParseClockDigits(d: string, tens: nat, units: nat)
    requires d != [] && AllDigits(d) && tens < 6 && units < 10
    ensures ParseClock(d + ":" + [DigitChar(tens), DigitChar(units)]) ==
      Some(60 * DecimalValue(d) + 10 * tens + units)
  {
    assert ':' !in d by {
      forall i | 0 <= i < |d| ensures d[i] != ':' { assert IsDigit(d[i]); }
    }
    SplitAtColon(d, [DigitChar(tens), DigitChar(units)]);
    TwoDigits(tens, units);
  }

  /** Minutes, tens of seconds and units of seconds add back up to the count. */
  lemma ClockDigitsSum(seconds: int)
    requires seconds >= 0
    ensures 60 * (seconds / 60) + 10 * (seconds % 60 / 10) + seconds % 60 % 10 == seconds
  {
  }

  /** Reading back minutes written in decimal and two second digits. */
  lemma ParseWritten(minutes: nat, tens: nat, units: nat)
    requires tens < 6 && units < 10
    ensures ParseClock(NatToDecimal(minutes) + ":" + [DigitChar(tens), DigitChar(units)]) ==
      Some(60 * minutes + 10 * tens + units)
  {
    ParseClockDigits(NatToDecimal(minutes), tens, units);
    DecimalRoundTrip(minutes);
  }

  /** Reading back what `formatTime` writes gives the count: 60 * m + ss == seconds. */
  lemma FormatTimeRoundTrip(seconds: int)
    requires seconds >= 0
    ensures ParseClock(FormatTime(seconds)) == Some(seconds)
  {
    var minutes, tens, units := seconds / 60, seconds % 60 / 10, seconds % 60 % 10;
    var text := NatToDecimal(minutes) + ":" + [DigitChar(tens), DigitChar(units)];
    calc {
      ParseClock(FormatTime(seconds));
      == { FormatTimeShape(seconds); }
      ParseClock(text);
      == { ParseWritten(minutes, tens, units); }
      Some(60 * minutes + 10 * tens + units);
      == { ClockDigitsSum(seconds); }
      Some(seconds);
    }
  }

  /** The `Timer` component's state. */
  class Timer {
    const duration: int
    var timeLeft: int
    var isRunning: bool

    function State(): Clock
      reads this
    {
      Clock(timeLeft, isRunning)
    }

    /** The count is the full duration, or somewhere between 0 and it. */
    ghost predicate Valid()
      reads this
    {
      timeLeft == duration || 0 <= timeLeft < duration
    }

    /** A new timer holds the full duration and is paused (Timer.tsx:13-14). */
    constructor (duration: int)
      ensures this.duration == duration && State() == Clock(duration, false) && Valid()
    {
      this.duration := duration;
      timeLeft := duration;
      isRunning := false;
    }

    /** One firing of the interval; nothing happens when none is installed. */
    method Tick() returns (completed: bool)
      requires Valid()
      modifies this
      ensures Valid()
      ensures Step(State(), completed) == Elapse(old(State()))
    {
      completed := false;
      if isRunning && timeLeft > 0 {
        var prev := timeLeft;
        if prev <= 1 {
          isRunning := false;
          completed := true;
          timeLeft := 0;
        } else {
          timeLeft := prev - 1;
        }
      }
    }

    /** `toggleTimer`: pause or resume; the count is kept. */
    method ToggleTimer()
      requires Valid()
      modifies this
      ensures Valid()
      ensures State() == Clock(old(timeLeft), !old(isRunning))
    {
      isRunning := !isRunning;
    }

    /** `resetTimer`: paused, at the full duration, whatever the state before. */
    method ResetTimer()
      modifies this
      ensures Valid()
      ensures State() == Clock(duration, false)
    {
      isRunning := false;
      timeLeft := duration;
    }
  }
}
